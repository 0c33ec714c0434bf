/**
 * The borrow registry of src/disjoint_mut.rs with each operation as one atomic step: what any run of
 * borrows, casts and drops, on any threads, keeps.
 */
module DisjointMut {
  import opened Bits
  import opened DisjointIndex

  /** DisjointMutBounds, as its PartialEq sees it. */
  datatype Entry = Entry(span: Span, mutable: bool, location: nat, thread: nat)

  datatype Lists = Lists(mutable: seq<Entry>, immutable: seq<Entry>)

  predicate Clashes(e: Entry, list: seq<Entry>) {
    exists i :: 0 <= i < |list| && Overlaps(e.span, list[i].span)
  }

  /** `add_mut_bounds`; None is the overlap panic. */
  function AddMut(l: Lists, e: Entry): Option<Lists> {
    if Clashes(e, l.immutable) || Clashes(e, l.mutable) then None
    else Some(l.(mutable := l.mutable + [e]))
  }

  /** `add_immut_bounds`. */
  function AddImmut(l: Lists, e: Entry): Option<Lists> {
    if Clashes(e, l.mutable) then None
    else Some(l.(immutable := l.immutable + [e]))
  }

  function Add(l: Lists, e: Entry): Option<Lists> {
    if e.mutable then AddMut(l, e) else AddImmut(l, e)
  }

  /** The list without its first entry equal to `e`. */
  function Without(list: seq<Entry>, e: Entry): (r: Option<seq<Entry>>)
    ensures r.Some? <==> e in list
    ensures r.Some? ==> multiset(r.value) == multiset(list) - multiset{e}
  {
    if list == [] then None
    else if list[0] == e then
      assert list == [e] + list[1..];
      Some(list[1..])
    else match Without(list[1..], e)
      case None => None
      case Some(rest) =>
        assert list == [list[0]] + list[1..];
        Some([list[0]] + rest)
  }

  /** `remove_bound`; None is the panic on a missing entry. */
  function Remove(l: Lists, e: Entry): Option<Lists> {
    if e.mutable then
      match Without(l.mutable, e)
      case None => None
      case Some(list) => Some(l.(mutable := list))
    else
      match Without(l.immutable, e)
      case None => None
      case Some(list) => Some(l.(immutable := list))
  }

  // ----- The code -----

  class Registry {
    var mutable: seq<Entry>
    var immutable: seq<Entry>

    constructor ()
      ensures Value() == Lists([], [])
    {
      mutable, immutable := [], [];
    }

    function Value(): Lists
      reads this
    {
      Lists(mutable, immutable)
    }

    /** The loops over `check_overlaps`. */
    static method CheckOverlaps(current: Entry, list: seq<Entry>) returns (clash: bool)
      ensures clash == Clashes(current, list)
    {
      for i := 0 to |list|
        invariant forall j :: 0 <= j < i ==> !Overlaps(current.span, list[j].span)
      {
        if Overlaps(current.span, list[i].span) {
          return true;
        }
      }
      return false;
    }

    method AddMutBounds(current: Entry) returns (ok: bool)
      modifies this
      ensures ok == AddMut(old(Value()), current).Some?
      ensures Value() == if ok then AddMut(old(Value()), current).value else old(Value())
    {
      var clash := CheckOverlaps(current, immutable);
      if clash {
        return false;
      }
      clash := CheckOverlaps(current, mutable);
      if clash {
        return false;
      }
      mutable := mutable + [current];
      return true;
    }

    method AddImmutBounds(current: Entry) returns (ok: bool)
      modifies this
      ensures ok == AddImmut(old(Value()), current).Some?
      ensures Value() == if ok then AddImmut(old(Value()), current).value else old(Value())
    {
      var clash := CheckOverlaps(current, mutable);
      if clash {
        return false;
      }
      immutable := immutable + [current];
      return true;
    }

    /** `position` and `remove`. */
    static method RemoveFrom(list: seq<Entry>, e: Entry) returns (found: bool, rest: seq<Entry>)
      ensures found == Without(list, e).Some?
      ensures rest == if found then Without(list, e).value else list
    {
      for i := 0 to |list|
        invariant e !in list[..i]
      {
        if list[i] == e {
          FirstIsRemoved(list, e, i);
          return true, list[..i] + list[i + 1..];
        }
      }
      assert list[..|list|] == list;
      return false, list;
    }

    method RemoveBound(e: Entry) returns (found: bool)
      modifies this
      ensures found == Remove(old(Value()), e).Some?
      ensures Value() == if found then Remove(old(Value()), e).value else old(Value())
    {
      if e.mutable {
        found, mutable := RemoveFrom(mutable, e);
      } else {
        found, immutable := RemoveFrom(immutable, e);
      }
    }
  }

  lemma {:induction false} FirstIsRemoved(list: seq<Entry>, e: Entry, i: nat)
    requires i < |list| && list[i] == e && e !in list[..i]
    ensures Without(list, e) == Some(list[..i] + list[i + 1..])
  {
    if i == 0 {
      assert list[..0] + list[1..] == list[1..];
    } else {
      HeadSplits(list, e, i);
      FirstIsRemoved(list[1..], e, i - 1);
    }
  }

  /** The prefix and the suffix of a list, by those of its tail. */
  lemma HeadSplits(list: seq<Entry>, e: Entry, i: nat)
    requires 0 < i < |list| && e !in list[..i]
    ensures list[0] != e && list[1..][i - 1] == list[i] && e !in list[1..][..i - 1]
    ensures [list[0]] + (list[1..][..i - 1] + list[1..][i..]) == list[..i] + list[i + 1..]
  {
    assert list[..i] == [list[0]] + list[1..][..i - 1];
    assert list[1..][i..] == list[i + 1..];
  }

  // ----- Runs -----

  /** A guard: its entry, and the elements it gives access to. */
  datatype Guard = Guard(e: Entry, bytes: Span)

  /** A buffer of `len` elements: its registry, the guards that exist, and the entries whose guard is
      gone because its cast failed. */
  datatype World = World(len: nat, lists: Lists, live: seq<Guard>, leaked: multiset<Entry>)

  /** `index_mut` and `index`, `cast` (`single`) and `cast_slice` of the i-th guard, and its drop. */
  datatype Op =
    | Borrow(form: Slice, mutable: bool, location: nat, thread: nat)
    | Cast(i: nat, size: nat, single: bool, aligned: bool)
    | DropGuard(i: nat)

  predicate Enabled(w: World, op: Op) {
    match op
    case Borrow(form, _, _, _) => ValidSlice(form)
    case Cast(i, size, _, _) => i < |w.live| && size > 0
    case DropGuard(i) => i < |w.live|
  }

  /** When the `unwrap` of a cast does not panic: the bytes are aligned for the element type, and they
      are one element, or a whole number of elements. */
  predicate CastFits(bytes: Span, size: nat, single: bool, aligned: bool)
    requires size > 0
  {
    aligned && if single then bytes.end - bytes.start == size else (bytes.end - bytes.start) % size == 0
  }

  function Others(live: seq<Guard>, i: nat): seq<Guard>
    requires i < |live|
  {
    live[..i] + live[i + 1..]
  }

  /** A borrow registers its bound and touches what its index resolves to. Overflow, an index out of
      range and an overlap panic, and leave the registry alone. */
  function AfterBorrow(w: World, form: Slice, mutable: bool, location: nat, thread: nat): World {
    match Bound(form)
    case None => w
    case Some(span) =>
      match GetMut(form, w.len)
      case None => w
      case Some(bytes) =>
        var e := Entry(span, mutable, location, thread);
        match Add(w.lists, e)
        case None => w
        case Some(lists) => w.(lists := lists, live := w.live + [Guard(e, bytes)])
  }

  /** The effect of an operation; None is the panic of a drop that does not find its entry. A cast that
      fails has already given up the guard, whose entry stays. */
  function Next(w: World, op: Op): Option<World>
    requires Enabled(w, op)
  {
    match op
    case Borrow(form, mutable, location, thread) => Some(AfterBorrow(w, form, mutable, location, thread))
    case Cast(i, size, single, aligned) =>
      if CastFits(w.live[i].bytes, size, single, aligned) then Some(w)
      else Some(w.(live := Others(w.live, i), leaked := w.leaked + multiset{w.live[i].e}))
    case DropGuard(i) =>
      match Remove(w.lists, w.live[i].e)
      case None => None
      case Some(lists) => Some(w.(lists := lists, live := Others(w.live, i)))
  }

  function Start(len: nat): World {
    World(len, Lists([], []), [], multiset{})
  }

  /** A run whose casts and drops have their guards, and which no drop aborted. */
  predicate Runs(w: World, ops: seq<Op>, w': World)
    decreases |ops|
  {
    if ops == [] then w == w'
    else Enabled(w, ops[0]) && Next(w, ops[0]).Some? && Runs(Next(w, ops[0]).value, ops[1..], w')
  }

  /** No cast of the run fails. */
  predicate CastsFit(w: World, ops: seq<Op>)
    decreases |ops|
  {
    ops != [] && Enabled(w, ops[0]) && Next(w, ops[0]).Some? ==>
      && (ops[0].Cast? ==> CastFits(w.live[ops[0].i].bytes, ops[0].size, ops[0].single, ops[0].aligned))
      && CastsFit(Next(w, ops[0]).value, ops[1..])
  }

  // ----- What every run keeps -----

  predicate Sorted(l: Lists) {
    (forall e :: e in l.mutable ==> e.mutable) && (forall e :: e in l.immutable ==> !e.mutable)
  }

  /** No registered mutable range overlaps another registered range. */
  predicate Exclusive(l: Lists) {
    && Apart(l.mutable)
    && (forall i, j :: 0 <= i < |l.mutable| && 0 <= j < |l.immutable| ==> !Overlaps(l.mutable[i].span, l.immutable[j].span))
  }

  function Registered(l: Lists): multiset<Entry> {
    multiset(l.mutable) + multiset(l.immutable)
  }

  function Entries(live: seq<Guard>): (r: seq<Entry>)
    ensures |r| == |live| && forall i :: 0 <= i < |r| ==> r[i] == live[i].e
  {
    seq(|live|, i requires 0 <= i < |live| => live[i].e)
  }

  /** A guard touches only what it registered, inside the buffer. */
  ghost predicate Covers(g: Guard, len: nat) {
    0 <= g.bytes.start <= g.bytes.end <= len && forall k :: Has(g.bytes, k) ==> Has(g.e.span, k)
  }

  ghost predicate Good(w: World) {
    && w.len <= ISIZE_MAX
    && Sorted(w.lists) && Exclusive(w.lists)
    && Registered(w.lists) == multiset(Entries(w.live)) + w.leaked
    && AllCover(w.live, w.len)
  }

  ghost predicate AllCover(live: seq<Guard>, len: nat) {
    forall i :: 0 <= i < |live| ==> Covers(live[i], len)
  }

  lemma CoverKept(live: seq<Guard>, i: nat, len: nat)
    requires i < |live| && AllCover(live, len)
    ensures AllCover(Others(live, i), len)
  {
  }

  lemma AddKeeps(l: Lists, e: Entry)
    requires Sorted(l) && Exclusive(l) && Add(l, e).Some?
    ensures Sorted(Add(l, e).value) && Exclusive(Add(l, e).value)
    ensures Registered(Add(l, e).value) == Registered(l) + multiset{e}
  {
  }

  lemma OverlapsSymmetric(a: Span, b: Span)
    ensures Overlaps(a, b) == Overlaps(b, a)
  {
  }

  predicate Apart(list: seq<Entry>) {
    forall i, j :: 0 <= i < j < |list| ==> !Overlaps(list[i].span, list[j].span)
  }

  lemma ApartCons(e: Entry, rest: seq<Entry>)
    ensures Apart([e] + rest) <==> Apart(rest) && forall x :: x in rest ==> !Overlaps(e.span, x.span)
  {
    var list := [e] + rest;
    assert list[0] == e && forall k :: 0 <= k < |rest| ==> list[k + 1] == rest[k];
    if Apart(list) {
      forall i, j | 0 <= i < j < |rest|
        ensures !Overlaps(rest[i].span, rest[j].span)
      {
        assert !Overlaps(list[i + 1].span, list[j + 1].span);
      }
      forall x | x in rest
        ensures !Overlaps(e.span, x.span)
      {
        var k :| 0 <= k < |rest| && rest[k] == x;
        assert !Overlaps(list[0].span, list[k + 1].span);
      }
    }
  }

  /** Leaving an entry out of a list keeps its pairs apart. */
  lemma {:induction false} WithoutKeepsPairs(list: seq<Entry>, e: Entry)
    requires e in list && Apart(list)
    ensures Apart(Without(list, e).value)
    ensures forall x :: x in Without(list, e).value ==> x in list
  {
    assert list == [list[0]] + list[1..];
    ApartCons(list[0], list[1..]);
    if list[0] != e {
      var rest := Without(list[1..], e).value;
      WithoutKeepsPairs(list[1..], e);
      ApartCons(list[0], rest);
    }
  }

  lemma {:induction false} WithoutIsPart(list: seq<Entry>, e: Entry)
    requires e in list
    ensures forall x :: x in Without(list, e).value ==> x in list
  {
    if list[0] != e {
      WithoutIsPart(list[1..], e);
    }
  }

  lemma RemoveKeeps(l: Lists, e: Entry)
    requires Sorted(l) && Exclusive(l) && e in Registered(l)
    ensures Remove(l, e).Some?
    ensures Sorted(Remove(l, e).value) && Exclusive(Remove(l, e).value)
    ensures Registered(Remove(l, e).value) == Registered(l) - multiset{e}
  {
    assert e in l.mutable <==> e.mutable;
    if e.mutable {
      WithoutKeepsPairs(l.mutable, e);
      AcrossMembers(l, Lists(Without(l.mutable, e).value, l.immutable));
    } else {
      WithoutIsPart(l.immutable, e);
      AcrossMembers(l, Lists(l.mutable, Without(l.immutable, e).value));
    }
  }

  lemma AcrossMembers(l: Lists, r: Lists)
    requires Exclusive(l)
    requires (forall x :: x in r.mutable ==> x in l.mutable) && (forall x :: x in r.immutable ==> x in l.immutable)
    ensures forall i, j :: 0 <= i < |r.mutable| && 0 <= j < |r.immutable| ==> !Overlaps(r.mutable[i].span, r.immutable[j].span)
  {
    forall i, j | 0 <= i < |r.mutable| && 0 <= j < |r.immutable|
      ensures !Overlaps(r.mutable[i].span, r.immutable[j].span)
    {
      assert r.mutable[i] in l.mutable && r.immutable[j] in l.immutable;
    }
  }

  lemma EntriesAdded(live: seq<Guard>, g: Guard)
    ensures multiset(Entries(live + [g])) == multiset(Entries(live)) + multiset{g.e}
  {
    assert Entries(live + [g]) == Entries(live) + [g.e];
  }

  lemma EntriesOfOthers(live: seq<Guard>, i: nat)
    requires i < |live|
    ensures multiset(Entries(live)) == multiset(Entries(Others(live, i))) + multiset{live[i].e}
  {
    OneOut(Entries(live), i);
    assert Entries(Others(live, i)) == Entries(live)[..i] + Entries(live)[i + 1..];
  }

  lemma OneOut(list: seq<Entry>, i: nat)
    requires i < |list|
    ensures multiset(list) == multiset(list[..i] + list[i + 1..]) + multiset{list[i]}
  {
    assert list == list[..i] + [list[i]] + list[i + 1..];
  }

  /** The guard of a granted borrow touches only what it registered. */
  lemma NewGuardCovers(form: Slice, len: nat, g: Guard)
    requires ValidSlice(form) && len <= ISIZE_MAX
    requires Bound(form) == Some(g.e.span) && GetMut(form, len) == Some(g.bytes)
    ensures Covers(g, len)
  {
    BoundCoversTouched(form, len);
    TouchedIsInside(form, len);
  }

  lemma GrantKeeps(w: World, lists: Lists, g: Guard)
    requires Good(w) && Add(w.lists, g.e) == Some(lists) && Covers(g, w.len)
    ensures Good(w.(lists := lists, live := w.live + [g]))
  {
    AddKeeps(w.lists, g.e);
    EntriesAdded(w.live, g);
  }

  lemma BorrowKeeps(w: World, form: Slice, mutable: bool, location: nat, thread: nat)
    requires Good(w) && ValidSlice(form)
    ensures Good(AfterBorrow(w, form, mutable, location, thread))
  {
    if Bound(form).Some? && GetMut(form, w.len).Some? {
      var g := Guard(Entry(Bound(form).value, mutable, location, thread), GetMut(form, w.len).value);
      if Add(w.lists, g.e).Some? {
        NewGuardCovers(form, w.len, g);
        GrantKeeps(w, Add(w.lists, g.e).value, g);
      }
    }
  }

  lemma CastKeeps(w: World, i: nat)
    requires Good(w) && i < |w.live|
    ensures Good(w.(live := Others(w.live, i), leaked := w.leaked + multiset{w.live[i].e}))
  {
    EntriesOfOthers(w.live, i);
    CoverKept(w.live, i, w.len);
  }

  lemma DropKeeps(w: World, i: nat)
    requires Good(w) && i < |w.live|
    ensures Next(w, DropGuard(i)).Some? && Good(Next(w, DropGuard(i)).value)
  {
    var e := w.live[i].e;
    EntriesOfOthers(w.live, i);
    CoverKept(w.live, i, w.len);
    assert e in Registered(w.lists);
    RemoveKeeps(w.lists, e);
  }

  /** One operation: a drop always finds its entry, the entries are those of the guards plus the leaked
      ones, no mutable one overlaps another, and guards touch only what they registered. */
  lemma StepKeeps(w: World, op: Op)
    requires Good(w) && Enabled(w, op)
    ensures Next(w, op).Some? && Good(Next(w, op).value)
  {
    match op {
      case Borrow(form, mutable, location, thread) => BorrowKeeps(w, form, mutable, location, thread);
      case Cast(i, _, _, _) => CastKeeps(w, i);
      case DropGuard(i) => DropKeeps(w, i);
    }
  }

  /** Every run from the empty registry. */
  lemma {:induction false} RunKeeps(w: World, ops: seq<Op>, w': World)
    requires Good(w) && Runs(w, ops, w')
    ensures Good(w') && w'.len == w.len
    decreases |ops|
  {
    if ops != [] {
      StepKeeps(w, ops[0]);
      RunKeeps(Next(w, ops[0]).value, ops[1..], w');
    }
  }

  // ----- Exclusion -----

  lemma TwoGuards(live: seq<Guard>, i: nat, j: nat)
    requires i < |live| && j < |live| && i != j
    ensures multiset{live[i].e, live[j].e} <= multiset(Entries(live))
  {
    EntriesOfOthers(live, i);
    var k := if j < i then j else j - 1;
    assert Entries(Others(live, i))[k] == live[j].e;
  }

  /** Reader/writer exclusion between any two guards that exist at the same time, whichever run made them. */
  lemma LiveGuardsAreDisjoint(len: nat, ops: seq<Op>, w: World, i: nat, j: nat)
    requires len <= ISIZE_MAX && Runs(Start(len), ops, w)
    requires i < |w.live| && j < |w.live| && i != j && w.live[i].e.mutable
    ensures !Overlaps(w.live[i].e.span, w.live[j].e.span) && !Overlaps(w.live[j].e.span, w.live[i].e.span)
  {
    RunKeeps(Start(len), ops, w);
    TwoGuards(w.live, i, j);
    RegisteredAreDisjoint(w.lists, w.live[i].e, w.live[j].e);
  }

  lemma RegisteredAreDisjoint(l: Lists, a: Entry, b: Entry)
    requires Sorted(l) && Exclusive(l) && a.mutable && multiset{a, b} <= Registered(l)
    ensures !Overlaps(a.span, b.span) && !Overlaps(b.span, a.span)
  {
    assert multiset{a, b}[a] >= 1 && multiset{a, b}[b] >= 1;
    assert a in l.mutable;
    if b.mutable {
      assert multiset(l.immutable)[b] == 0 && multiset(l.immutable)[a] == 0;
      assert multiset{a, b} <= multiset(l.mutable);
      PairAt(l.mutable, a, b);
    } else {
      assert b in l.immutable;
    }
  }

  /** What the registry is for: after any run, whatever index forms the guards came from, no element is
      touched by a mutable guard and another one. */
  lemma LiveGuardsShareNothing(len: nat, ops: seq<Op>, w: World, i: nat, j: nat, k: int)
    requires len <= ISIZE_MAX && Runs(Start(len), ops, w)
    requires i < |w.live| && j < |w.live| && i != j && w.live[i].e.mutable
    ensures !Share(w.live[i].bytes, w.live[j].bytes, k)
  {
    RunKeeps(Start(len), ops, w);
    LiveGuardsAreDisjoint(len, ops, w, i, j);
    if Share(w.live[i].bytes, w.live[j].bytes, k) {
      assert Share(w.live[i].e.span, w.live[j].e.span, k);
      OverlapsIffShared(w.live[i].e.span, w.live[j].e.span);
    }
  }

  /** Two entries counted separately stand at two places. */
  lemma {:induction false} PairAt(list: seq<Entry>, a: Entry, b: Entry)
    requires multiset{a, b} <= multiset(list)
    ensures exists i, j :: 0 <= i < |list| && 0 <= j < |list| && i != j && list[i] == a && list[j] == b
  {
    assert multiset{a, b}[a] >= 1;
    assert a in list;
    var i :| 0 <= i < |list| && list[i] == a;
    assert list == list[..i] + [a] + list[i + 1..];
    assert multiset(list) == multiset(list[..i] + list[i + 1..]) + multiset{a};
    assert multiset{a, b} == multiset{a} + multiset{b};
    assert multiset(list[..i] + list[i + 1..])[b] >= 1;
    assert b in list[..i] + list[i + 1..];
    var k :| 0 <= k < |list| - 1 && (list[..i] + list[i + 1..])[k] == b;
    var j := if k < i then k else k + 1;
    assert list[j] == b;
  }

  /** A borrow is refused exactly when it conflicts with a guard that exists, or with one that leaked. */
  lemma RefusedIffConflict(w: World, e: Entry)
    requires Good(w)
    ensures Add(w.lists, e).None? <==>
            exists g :: g in multiset(Entries(w.live)) + w.leaked && Overlaps(e.span, g.span) && (e.mutable || g.mutable)
  {
    var all := multiset(Entries(w.live)) + w.leaked;
    assert all == Registered(w.lists);
    if Add(w.lists, e).None? {
      if Clashes(e, w.lists.mutable) {
        var i :| 0 <= i < |w.lists.mutable| && Overlaps(e.span, w.lists.mutable[i].span);
        assert w.lists.mutable[i] in all;
      } else {
        var i :| 0 <= i < |w.lists.immutable| && Overlaps(e.span, w.lists.immutable[i].span);
        assert w.lists.immutable[i] in all;
      }
    }
    if g :| g in all && Overlaps(e.span, g.span) && (e.mutable || g.mutable) {
      assert g in Registered(w.lists);
      assert g in w.lists.mutable || g in w.lists.immutable;
    }
  }

  /** What a borrow does: it returns exactly when the buffer has the range and no guard or leaked entry
      conflicts with it, and then there is one more guard, over exactly the indices it means. */
  lemma BorrowIs(w: World, form: Slice, mutable: bool, location: nat, thread: nat)
    requires Good(w) && ValidSlice(form)
    ensures var w' := AfterBorrow(w, form, mutable, location, thread);
            if InBounds(form, w.len) && Bound(form).Some?
               && Add(w.lists, Entry(Bound(form).value, mutable, location, thread)).Some? then
              |w'.live| == |w.live| + 1 && w'.live[..|w.live|] == w.live && w'.leaked == w.leaked && w'.len == w.len
              && GuardIs(w'.live[|w.live|], w.len, form, mutable, location, thread)
            else w' == w
  {
    TouchedIs(form, w.len);
    BoundIs(form);
  }

  ghost predicate GuardIs(g: Guard, len: nat, form: Slice, mutable: bool, location: nat, thread: nat) {
    && g.e.mutable == mutable && g.e.location == location && g.e.thread == thread
    && (forall i :: Has(g.bytes, i) <==> Touches(form, len, i))
    && (forall i :: Has(g.e.span, i) <==> Touches(form, USIZE_MAX, i))
  }

  /** `n` elements of `size` bytes. */
  predicate IsWhole(bytes: int, size: int, n: int) {
    bytes == n * size
  }

  /** A cast keeps its guard exactly when the bytes are aligned and a whole number of elements, one for
      a single element. */
  lemma CastIs(w: World, i: nat, size: nat, single: bool, aligned: bool)
    requires Good(w) && i < |w.live| && size > 0
    ensures var bytes := w.live[i].bytes.end - w.live[i].bytes.start;
            Next(w, Cast(i, size, single, aligned)) == Some(w) <==> aligned && HasElements(bytes, size, single)
  {
    assert Covers(w.live[i], w.len);
    assert |Others(w.live, i)| < |w.live|;
    WholeIff(w.live[i].bytes.end - w.live[i].bytes.start, size, single);
  }

  ghost predicate HasElements(bytes: int, size: int, single: bool) {
    exists n: nat :: IsWhole(bytes, size, n) && (single ==> n == 1)
  }

  lemma WholeIff(bytes: nat, size: nat, single: bool)
    requires size > 0
    ensures HasElements(bytes, size, single) <==> if single then bytes == size else bytes % size == 0
  {
    assert IsWhole(size, size, 1);
    if bytes % size == 0 {
      assert IsWhole(bytes, size, bytes / size);
    }
    if n: nat :| IsWhole(bytes, size, n) && (single ==> n == 1) {
      DivUnique(bytes, size, n, 0);
    }
  }

  // ----- Conservation -----

  /** A run leaks exactly when one of its casts fails. */
  lemma {:induction false} LeaksIffCastFails(w: World, ops: seq<Op>, w': World)
    requires Runs(w, ops, w')
    ensures |w.leaked| <= |w'.leaked| && (|w.leaked| == |w'.leaked| <==> CastsFit(w, ops))
    decreases |ops|
  {
    if ops != [] {
      LeaksIffCastFails(Next(w, ops[0]).value, ops[1..], w');
    }
  }

  /** The registered entries are those of the guards that exist if and only if no cast has failed. */
  lemma ConservedIffCastsFit(len: nat, ops: seq<Op>, w: World)
    requires len <= ISIZE_MAX && Runs(Start(len), ops, w)
    ensures Registered(w.lists) == multiset(Entries(w.live)) <==> CastsFit(Start(len), ops)
  {
    RunKeeps(Start(len), ops, w);
    LeaksIffCastFails(Start(len), ops, w);
    assert |Registered(w.lists)| == |multiset(Entries(w.live))| + |w.leaked|;
  }

  /** A cast that fails leaves its range borrowed for good: whatever happens next, a mutable borrow
      that overlaps it is refused. */
  lemma {:induction false} LeakIsForever(w: World, ops: seq<Op>, w': World, g: Entry, op: Op)
    requires Good(w) && Runs(w, ops, w') && g in w.leaked
    requires op.Borrow? && ValidSlice(op.form) && op.mutable
    requires Bound(op.form).Some? && Overlaps(Bound(op.form).value, g.span)
    ensures Next(w', op) == Some(w')
    decreases |ops|
  {
    if ops == [] {
      RefusedIffConflict(w, Entry(Bound(op.form).value, true, op.location, op.thread));
    } else {
      StepKeeps(w, ops[0]);
      LeakIsForever(Next(w, ops[0]).value, ops[1..], w', g, op);
    }
  }

  // ----- Typed borrows -----

  /** `mut_slice_as` and `slice_as` as operations: the borrow of the scaled index, then the cast. When
      the borrow is granted, the cast fits exactly when the bytes are a whole number of elements; a
      typed borrow that returns has a guard over the bytes of the elements asked for; and an inclusive
      index on elements of more than a byte always leaks. */
  lemma TypedBorrowIs(w: World, s: Slice, size: nat, mutable: bool, location: nat, thread: nat)
    requires Good(w) && ValidSlice(s) && size > 0 && Mul(s, size).Some?
    requires |AfterBorrow(w, Mul(s, size).value, mutable, location, thread).live| > |w.live|
    ensures var g := AfterBorrow(w, Mul(s, size).value, mutable, location, thread).live[|w.live|];
            && (SliceAs(s, size, w.len).Some? ==>
                  CastFits(g.bytes, size, false, true) && g.bytes == SliceAs(s, size, w.len).value.bytes)
            && (IsInclusive(s) && size > 1 ==> !CastFits(g.bytes, size, false, true))
  {
    if IsInclusive(s) && size > 1 {
      InclusiveIsNotWhole(if s.RangeInclusive? then s.start else 0, s.last, size);
    }
  }

  /** The leak is real: a typed borrow of one two-byte element through an inclusive index panics, no
      guard is left, and a borrow of the byte is refused from then on. */
  lemma LeakIsReachable() returns (ops: seq<Op>, w: World, retry: Op)
    ensures Runs(Start(4), ops, w) && w.live == [] && Registered(w.lists) != multiset(Entries(w.live))
    ensures retry.Borrow? && retry.mutable && Enabled(w, retry) && GetMut(retry.form, w.len).Some? && Next(w, retry) == Some(w)
  {
    var e := Entry(Span(0, 1), true, 0, 0);
    var cast := Cast(0, 2, false, true);
    retry := Borrow(Range(0, 1), true, 1, 0);
    FirstByteIsBorrowed(e);
    var w1 := World(4, Lists([e], []), [Guard(e, Span(0, 1))], multiset{});
    w := World(4, Lists([e], []), [], multiset{e});
    assert Others(w1.live, 0) == [] && multiset{} + multiset{e} == multiset{e};
    assert Next(w1, cast) == Some(w);
    ops := [Borrow(RangeInclusive(0, 0), true, 0, 0), cast];
    assert ops[1..] == [cast] && [cast][1..] == [];
    StartIsGood(4);
    RunKeeps(Start(4), ops, w);
    LeakIsForever(w, [], w, e, retry);
  }

  lemma FirstByteIsBorrowed(e: Entry)
    requires e == Entry(Span(0, 1), true, 0, 0)
    ensures Mul(RangeInclusive(0, 0), 2) == Some(RangeInclusive(0, 0))
    ensures Next(Start(4), Borrow(RangeInclusive(0, 0), true, 0, 0)) ==
            Some(World(4, Lists([e], []), [Guard(e, Span(0, 1))], multiset{}))
  {
    assert [] + [e] == [e] && [] + [Guard(e, Span(0, 1))] == [Guard(e, Span(0, 1))];
  }

  lemma StartIsGood(len: nat)
    requires len <= ISIZE_MAX
    ensures Good(Start(len))
  {
  }
}
