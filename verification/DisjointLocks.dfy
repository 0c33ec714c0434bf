/**
 * The same registry with every operation split where it takes and releases its two locks, on any
 * number of threads. `add_mut_bounds` gives up the immutable list's lock before it takes the mutable
 * list's, so reader/writer exclusion can be lost in between; mutable/mutable exclusion cannot.
 */
module DisjointLocks {
  import opened DisjointIndex
  import opened DisjointMut

  /** Where a thread is. `late` records, for the proof only, the immutable entries pushed since the
      thread checked the immutable list. */
  datatype Pc =
    | Idle
    | CheckImm(e: Entry)
    | InCheckImm(e: Entry)
    | PushMut(e: Entry, late: set<Entry>)
    | InPushMut(e: Entry, late: set<Entry>)
    | PushImm(e: Entry)
    | InPushImm(e: Entry)
    | WantBoth(e: Entry)
    | HasBoth(e: Entry)
    | Drop(e: Entry)
    | InDrop(e: Entry)

  datatype State = State(lists: Lists, mutLock: Option<nat>, immLock: Option<nat>, pcs: seq<Pc>)

  datatype Act = StartMut(e: Entry) | StartImm(e: Entry) | StartDrop(e: Entry) | Go

  predicate HoldsMut(pc: Pc) {
    pc.InPushMut? || pc.InPushImm? || pc.WantBoth? || pc.HasBoth? || (pc.InDrop? && pc.e.mutable)
  }

  predicate HoldsImm(pc: Pc) {
    pc.InCheckImm? || pc.HasBoth? || (pc.InDrop? && !pc.e.mutable)
  }

  predicate WantsMut(pc: Pc) {
    pc.PushMut? || pc.PushImm? || (pc.Drop? && pc.e.mutable)
  }

  predicate WantsImm(pc: Pc) {
    pc.CheckImm? || pc.WantBoth? || (pc.Drop? && !pc.e.mutable)
  }

  /** The state after a lock is obtained: where the thread goes. */
  function Granted(pc: Pc): Pc
    requires WantsMut(pc) || WantsImm(pc)
  {
    match pc
    case CheckImm(e) => InCheckImm(e)
    case PushMut(e, late) => InPushMut(e, late)
    case PushImm(e) => InPushImm(e)
    case WantBoth(e) => HasBoth(e)
    case Drop(e) => InDrop(e)
    case _ => pc
  }

  function Note(pc: Pc, x: Entry): Pc {
    match pc
    case PushMut(e, late) => PushMut(e, late + {x})
    case InPushMut(e, late) => InPushMut(e, late + {x})
    case _ => pc
  }

  function NoteAll(pcs: seq<Pc>, x: Entry): (r: seq<Pc>)
    ensures |r| == |pcs| && forall t :: 0 <= t < |pcs| ==> r[t] == Note(pcs[t], x)
  {
    seq(|pcs|, t requires 0 <= t < |pcs| => Note(pcs[t], x))
  }

  /** The lists once an entry is removed; one that is not there changes nothing. */
  function Left(l: Lists, e: Entry): Lists {
    match Remove(l, e) case Some(r) => r case None => l
  }

  /** One step of thread `t`; None when it cannot take it, in particular when the lock is taken. */
  function Step(s: State, t: nat, act: Act): Option<State>
    requires t < |s.pcs|
  {
    var pc := s.pcs[t];
    match act
    case StartMut(e) => if pc.Idle? && e.mutable then Some(s.(pcs := s.pcs[t := CheckImm(e)])) else None
    case StartImm(e) => if pc.Idle? && !e.mutable then Some(s.(pcs := s.pcs[t := PushImm(e)])) else None
    case StartDrop(e) => if pc.Idle? && e in Registered(s.lists) then Some(s.(pcs := s.pcs[t := Drop(e)])) else None
    case Go =>
      if WantsMut(pc) then
        (if s.mutLock.None? then Some(s.(mutLock := Some(t), pcs := s.pcs[t := Granted(pc)])) else None)
      else if WantsImm(pc) then
        (if s.immLock.None? then Some(s.(immLock := Some(t), pcs := s.pcs[t := Granted(pc)])) else None)
      else
        match pc
        case InCheckImm(e) =>
          Some(s.(immLock := None, pcs := s.pcs[t := if Clashes(e, s.lists.immutable) then Idle else PushMut(e, {})]))
        case InPushMut(e, _) =>
          var lists := if Clashes(e, s.lists.mutable) then s.lists else s.lists.(mutable := s.lists.mutable + [e]);
          Some(s.(lists := lists, mutLock := None, pcs := s.pcs[t := Idle]))
        case InPushImm(e) =>
          if Clashes(e, s.lists.mutable) then Some(s.(mutLock := None, pcs := s.pcs[t := Idle]))
          else Some(s.(pcs := s.pcs[t := WantBoth(e)]))
        case HasBoth(e) =>
          var lists := s.lists.(immutable := s.lists.immutable + [e]);
          Some(State(lists, None, None, NoteAll(s.pcs, e)[t := Idle]))
        case InDrop(e) =>
          var left := s.(lists := Left(s.lists, e), pcs := s.pcs[t := Idle]);
          Some(if e.mutable then left.(mutLock := None) else left.(immLock := None))
        case _ => None
  }

  // ----- What every interleaving keeps -----

  /** A lock is owned by the one thread that is where it holds it. */
  predicate LocksAgree(s: State) {
    && (forall t :: 0 <= t < |s.pcs| ==> (HoldsMut(s.pcs[t]) <==> s.mutLock == Some(t)))
    && (forall t :: 0 <= t < |s.pcs| ==> (HoldsImm(s.pcs[t]) <==> s.immLock == Some(t)))
    && (s.mutLock.Some? ==> s.mutLock.value < |s.pcs|) && (s.immLock.Some? ==> s.immLock.value < |s.pcs|)
  }

  /** What a thread knows where it stands. */
  predicate Knows(pc: Pc, l: Lists) {
    match pc
    case CheckImm(e) => e.mutable
    case InCheckImm(e) => e.mutable
    case PushMut(e, late) => e.mutable && Checked(e, late, l)
    case InPushMut(e, late) => e.mutable && Checked(e, late, l)
    case PushImm(e) => !e.mutable
    case InPushImm(e) => !e.mutable
    case WantBoth(e) => !e.mutable && !Clashes(e, l.mutable)
    case HasBoth(e) => !e.mutable && !Clashes(e, l.mutable)
    case _ => true
  }

  /** Only entries pushed since the check can overlap. */
  predicate Checked(e: Entry, late: set<Entry>, l: Lists) {
    forall x :: x in l.immutable && Overlaps(e.span, x.span) ==> x in late
  }

  predicate Inv(s: State) {
    && LocksAgree(s) && Sorted(s.lists) && Apart(s.lists.mutable)
    && forall t :: 0 <= t < |s.pcs| ==> Knows(s.pcs[t], s.lists)
  }

  lemma ApartSnoc(list: seq<Entry>, e: Entry)
    requires Apart(list) && !Clashes(e, list)
    ensures Apart(list + [e])
  {
    forall i, j | 0 <= i < j < |list| + 1
      ensures !Overlaps((list + [e])[i].span, (list + [e])[j].span)
    {
      if j == |list| {
        OverlapsSymmetric(e.span, list[i].span);
      }
    }
  }

  /** Fewer entries, or immutable ones more that are noted, change nothing a thread knows. */
  lemma KnowsLess(pc: Pc, l: Lists, r: Lists)
    requires Knows(pc, l)
    requires (forall x :: x in r.mutable ==> x in l.mutable) && (forall x :: x in r.immutable ==> x in l.immutable)
    ensures Knows(pc, r)
  {
    if pc.WantBoth? || pc.HasBoth? {
      ClashesLess(pc.e, r.mutable, l.mutable);
    }
  }

  lemma ClashesLess(e: Entry, r: seq<Entry>, l: seq<Entry>)
    requires forall x :: x in r ==> x in l
    ensures Clashes(e, r) ==> Clashes(e, l)
  {
    if Clashes(e, r) {
      var i :| 0 <= i < |r| && Overlaps(e.span, r[i].span);
      assert r[i] in l;
      var k :| 0 <= k < |l| && l[k] == r[i];
    }
  }

  lemma KnowsNoted(pc: Pc, l: Lists, x: Entry)
    requires Knows(pc, l)
    ensures Knows(Note(pc, x), l.(immutable := l.immutable + [x]))
  {
  }

  lemma RemoveSubset(l: Lists, e: Entry, r: Lists)
    requires Sorted(l) && Apart(l.mutable) && Remove(l, e) == Some(r)
    ensures Sorted(r) && Apart(r.mutable)
    ensures (forall x :: x in r.mutable ==> x in l.mutable) && (forall x :: x in r.immutable ==> x in l.immutable)
  {
    if e.mutable {
      WithoutKeepsPairs(l.mutable, e);
    } else {
      WithoutIsPart(l.immutable, e);
    }
  }

  lemma StepKeepsInv(s: State, t: nat, act: Act)
    requires t < |s.pcs| && Inv(s) && Step(s, t, act).Some?
    ensures Inv(Step(s, t, act).value)
  {
    var pc := s.pcs[t];
    if !act.Go? {
      StartKeeps(s, t, act);
    } else if WantsMut(pc) || WantsImm(pc) {
      GrantKeeps(s, t);
    } else {
      match pc {
        case InPushMut(e, late) => PushMutKeeps(s, t);
        case HasBoth(e) => PushImmKeeps(s, t);
        case InDrop(e) => DropKeeps(s, t);
        case InCheckImm(e) => CheckKeeps(s, t);
        case InPushImm(e) => CheckKeeps(s, t);
        case _ =>
      }
    }
  }

  lemma StartKeeps(s: State, t: nat, act: Act)
    requires t < |s.pcs| && Inv(s) && !act.Go? && Step(s, t, act).Some?
    ensures Inv(Step(s, t, act).value)
  {
  }

  lemma GrantKeeps(s: State, t: nat)
    requires t < |s.pcs| && Inv(s) && (WantsMut(s.pcs[t]) || WantsImm(s.pcs[t])) && Step(s, t, Go).Some?
    ensures Inv(Step(s, t, Go).value)
  {
    assert Knows(s.pcs[t], s.lists);
    assert Knows(Granted(s.pcs[t]), s.lists);
  }

  lemma CheckKeeps(s: State, t: nat)
    requires t < |s.pcs| && Inv(s) && (s.pcs[t].InCheckImm? || s.pcs[t].InPushImm?)
    ensures Inv(Step(s, t, Go).value)
  {
    assert Knows(s.pcs[t], s.lists);
  }

  lemma PushMutKeeps(s: State, t: nat)
    requires t < |s.pcs| && Inv(s) && s.pcs[t].InPushMut?
    ensures Inv(Step(s, t, Go).value)
  {
    var e := s.pcs[t].e;
    assert Knows(s.pcs[t], s.lists);
    if !Clashes(e, s.lists.mutable) {
      ApartSnoc(s.lists.mutable, e);
      var s' := Step(s, t, Go).value;
      forall u | 0 <= u < |s.pcs|
        ensures Knows(s'.pcs[u], s'.lists)
      {
        assert Knows(s.pcs[u], s.lists);
        assert u != t ==> !HoldsMut(s.pcs[u]);
      }
    }
  }

  lemma PushImmKeeps(s: State, t: nat)
    requires t < |s.pcs| && Inv(s) && s.pcs[t].HasBoth?
    ensures Inv(Step(s, t, Go).value)
  {
    var e := s.pcs[t].e;
    assert Knows(s.pcs[t], s.lists);
    var s' := Step(s, t, Go).value;
    forall u | 0 <= u < |s.pcs|
      ensures Knows(s'.pcs[u], s'.lists)
    {
      KnowsNoted(s.pcs[u], s.lists, e);
    }
  }

  lemma DropKeeps(s: State, t: nat)
    requires t < |s.pcs| && Inv(s) && s.pcs[t].InDrop?
    ensures Inv(Step(s, t, Go).value)
  {
    var e := s.pcs[t].e;
    var lists := if Remove(s.lists, e).Some? then Remove(s.lists, e).value else s.lists;
    if Remove(s.lists, e).Some? {
      RemoveSubset(s.lists, e, lists);
    }
    DropLocks(s, t, lists);
    forall u | 0 <= u < |s.pcs|
      ensures Knows(s.pcs[u], lists)
    {
      KnowsLess(s.pcs[u], s.lists, lists);
    }
  }

  lemma DropLocks(s: State, t: nat, lists: Lists)
    requires t < |s.pcs| && LocksAgree(s) && s.pcs[t].InDrop?
    ensures LocksAgree(Step(s, t, Go).value)
  {
  }

  // ----- Runs -----

  function Start(threads: nat): State {
    State(Lists([], []), None, None, seq(threads, t => Idle))
  }

  /** A schedule: which thread takes which step. */
  predicate Runs(s: State, schedule: seq<(nat, Act)>, s': State)
    decreases |schedule|
  {
    if schedule == [] then s == s'
    else
      var (t, act) := schedule[0];
      t < |s.pcs| && Step(s, t, act).Some? && Runs(Step(s, t, act).value, schedule[1..], s')
  }

  /** Thread `t` is about to register its entry. */
  predicate Completes(s: State, t: nat)
    requires t < |s.pcs|
  {
    s.pcs[t].HasBoth? || (s.pcs[t].InPushMut? && !Clashes(s.pcs[t].e, s.lists.mutable))
  }

  /** A completed push registers its entry once, unless it clashes with a mutable one; a completed drop
      takes away one occurrence of its own; no other step changes the registry. */
  lemma StepRegisters(s: State, t: nat, act: Act)
    requires t < |s.pcs| && Sorted(s.lists) && Step(s, t, act).Some?
    ensures var lists, pc := Step(s, t, act).value.lists, s.pcs[t];
            if act.Go? && pc.InDrop? then Registered(lists) == Registered(s.lists) - multiset{pc.e}
            else if act.Go? && Completes(s, t) then Registered(lists) == Registered(s.lists) + multiset{pc.e}
            else lists == s.lists
  {
    if act.Go? && s.pcs[t].InDrop? {
      DropStep(s, t);
    } else if act.Go? && Completes(s, t) {
      PushStep(s, t);
    } else {
      OtherStep(s, t, act);
    }
  }

  lemma DropStep(s: State, t: nat)
    requires t < |s.pcs| && Sorted(s.lists) && s.pcs[t].InDrop? && Step(s, t, Go).Some?
    ensures Registered(Step(s, t, Go).value.lists) == Registered(s.lists) - multiset{s.pcs[t].e}
  {
    DropLeaves(s, t, s.pcs[t].e);
    DropRegisters(s.lists, s.pcs[t].e);
  }

  lemma DropLeaves(s: State, t: nat, e: Entry)
    requires t < |s.pcs| && s.pcs[t] == InDrop(e)
    ensures Step(s, t, Go).Some? && Step(s, t, Go).value.lists == Left(s.lists, e)
  {
  }

  lemma PushStep(s: State, t: nat)
    requires t < |s.pcs| && Completes(s, t) && Step(s, t, Go).Some?
    ensures Registered(Step(s, t, Go).value.lists) == Registered(s.lists) + multiset{s.pcs[t].e}
  {
    PushRegisters(s.lists, s.pcs[t].e);
  }

  lemma OtherStep(s: State, t: nat, act: Act)
    requires t < |s.pcs| && Step(s, t, act).Some? && !(act.Go? && (s.pcs[t].InDrop? || Completes(s, t)))
    ensures Step(s, t, act).value.lists == s.lists
  {
  }

  /** A drop leaves the thread idle, and free of the lock it held. */
  lemma DropFrees(s: State, t: nat)
    requires t < |s.pcs| && LocksAgree(s) && s.pcs[t].InDrop?
    ensures Step(s, t, Go).Some?
    ensures var s' := Step(s, t, Go).value; s'.pcs == s.pcs[t := Idle] && s'.mutLock != Some(t) && s'.immLock != Some(t)
  {
  }

  lemma PushRegisters(l: Lists, e: Entry)
    ensures Registered(l.(mutable := l.mutable + [e])) == Registered(l) + multiset{e}
    ensures Registered(l.(immutable := l.immutable + [e])) == Registered(l) + multiset{e}
  {
  }

  lemma DropRegisters(l: Lists, e: Entry)
    requires Sorted(l)
    ensures Registered(Left(l, e)) == Registered(l) - multiset{e}
  {
    if e in Registered(l) {
      assert e in (if e.mutable then l.mutable else l.immutable);
    } else {
      assert Remove(l, e).None?;
    }
  }

  lemma {:induction false} RunKeepsInv(s: State, schedule: seq<(nat, Act)>, s': State)
    requires Inv(s) && Runs(s, schedule, s')
    ensures Inv(s')
    decreases |schedule|
  {
    if schedule != [] {
      StepKeepsInv(s, schedule[0].0, schedule[0].1);
      RunKeepsInv(Step(s, schedule[0].0, schedule[0].1).value, schedule[1..], s');
    }
  }

  /** Under every interleaving, no two registered mutable ranges overlap. */
  lemma MutableExclusion(threads: nat, schedule: seq<(nat, Act)>, s: State, i: nat, j: nat)
    requires Runs(Start(threads), schedule, s) && i < |s.lists.mutable| && j < |s.lists.mutable| && i != j
    ensures !Overlaps(s.lists.mutable[i].span, s.lists.mutable[j].span)
  {
    RunKeepsInv(Start(threads), schedule, s);
    OverlapsSymmetric(s.lists.mutable[i].span, s.lists.mutable[j].span);
  }

  // ----- No deadlock -----

  /** Thread `t` waits for a lock thread `u` holds. */
  predicate WaitsFor(s: State, t: nat, u: nat)
    requires t < |s.pcs| && u < |s.pcs|
  {
    (WantsMut(s.pcs[t]) && s.mutLock == Some(u)) || (WantsImm(s.pcs[t]) && s.immLock == Some(u))
  }

  /** Chains of waiting threads have at most two links, so no cycle can form. */
  lemma NoWaitCycle(s: State, t: nat, u: nat, v: nat, w: nat)
    requires t < |s.pcs| && u < |s.pcs| && v < |s.pcs| && w < |s.pcs| && Inv(s)
    requires WaitsFor(s, t, u) && WaitsFor(s, u, v)
    ensures t != u && u != v && t != v && !WaitsFor(s, v, w)
  {
  }

  /** As long as an operation is under way, one of them can go on. */
  lemma SomeThreadCanGo(s: State, t: nat) returns (u: nat)
    requires t < |s.pcs| && Inv(s) && !s.pcs[t].Idle?
    ensures u < |s.pcs| && !s.pcs[u].Idle? && Step(s, u, Go).Some?
  {
    u := t;
    if WantsMut(s.pcs[u]) && s.mutLock.Some? {
      u := s.mutLock.value;
      assert HoldsMut(s.pcs[u]);
    }
    if WantsImm(s.pcs[u]) && s.immLock.Some? {
      u := s.immLock.value;
      assert HoldsImm(s.pcs[u]);
    }
  }

  // ----- Reader/writer exclusion -----

  predicate ReaderWriter(l: Lists) {
    forall i, j :: 0 <= i < |l.mutable| && 0 <= j < |l.immutable| ==> !Overlaps(l.mutable[i].span, l.immutable[j].span)
  }

  /** A step at which a mutable range is registered. */
  predicate Registers(s: State, t: nat)
    requires t < |s.pcs|
  {
    s.pcs[t].InPushMut? && !Clashes(s.pcs[t].e, s.lists.mutable)
  }

  /** An overlapping immutable range arrived after the check and is still there. */
  predicate Overtaken(s: State, t: nat)
    requires t < |s.pcs| && s.pcs[t].InPushMut?
  {
    exists x :: x in s.pcs[t].late && x in s.lists.immutable && Overlaps(s.pcs[t].e.span, x.span)
  }

  /** The only step that can lose exclusion is a mutable push, and it does exactly when its thread was
      overtaken by an overlapping immutable borrow after it released the first lock. */
  lemma ExclusionIsKeptIff(s: State, t: nat, act: Act)
    requires t < |s.pcs| && Inv(s) && Step(s, t, act).Some? && ReaderWriter(s.lists)
    ensures ReaderWriter(Step(s, t, act).value.lists) <==> !(act.Go? && Registers(s, t) && Overtaken(s, t))
  {
    var pc := s.pcs[t];
    assert Knows(pc, s.lists);
    if act.Go? && Registers(s, t) {
      PushExclusion(s.lists, pc.e, pc.late);
    } else if act.Go? && pc.HasBoth? {
      ReaderJoins(s.lists, pc.e);
    } else if act.Go? && pc.InDrop? && Remove(s.lists, pc.e).Some? {
      var r := Remove(s.lists, pc.e).value;
      RemoveSubset(s.lists, pc.e, r);
      ReaderWriterLess(s.lists, r);
    }
  }

  lemma ReaderWriterLess(l: Lists, r: Lists)
    requires ReaderWriter(l)
    requires (forall x :: x in r.mutable ==> x in l.mutable) && (forall x :: x in r.immutable ==> x in l.immutable)
    ensures ReaderWriter(r)
  {
    forall i, j | 0 <= i < |r.mutable| && 0 <= j < |r.immutable|
      ensures !Overlaps(r.mutable[i].span, r.immutable[j].span)
    {
      assert r.mutable[i] in l.mutable && r.immutable[j] in l.immutable;
    }
  }

  lemma ReaderJoins(l: Lists, e: Entry)
    requires ReaderWriter(l) && !Clashes(e, l.mutable)
    ensures ReaderWriter(l.(immutable := l.immutable + [e]))
  {
    forall i | 0 <= i < |l.mutable|
      ensures !Overlaps(l.mutable[i].span, e.span)
    {
      OverlapsSymmetric(l.mutable[i].span, e.span);
    }
  }

  lemma PushExclusion(l: Lists, e: Entry, late: set<Entry>)
    requires ReaderWriter(l) && Checked(e, late, l)
    ensures ReaderWriter(l.(mutable := l.mutable + [e])) <==>
            !exists x :: x in late && x in l.immutable && Overlaps(e.span, x.span)
  {
    var r := l.(mutable := l.mutable + [e]);
    assert r.mutable[|l.mutable|] == e;
    if x :| x in late && x in l.immutable && Overlaps(e.span, x.span) {
      var j :| 0 <= j < |l.immutable| && l.immutable[j] == x;
      assert Overlaps(r.mutable[|l.mutable|].span, r.immutable[j].span);
    } else {
      forall j | 0 <= j < |l.immutable|
        ensures !Overlaps(e.span, l.immutable[j].span)
      {
        assert l.immutable[j] in l.immutable;
      }
    }
  }

  /** The window is real: two threads, and a mutable and an immutable range over the same index are
      both registered. */
  lemma ExclusionCanBeLost() returns (s: State, schedule: seq<(nat, Act)>)
    ensures Runs(Start(2), schedule, s) && !ReaderWriter(s.lists)
  {
    var w, r := Entry(Span(0, 2), true, 0, 0), Entry(Span(0, 1), false, 1, 1);
    var s3 := State(Lists([], []), None, None, [PushMut(w, {}), Idle]);
    var s8 := State(Lists([], [r]), None, None, [PushMut(w, {r}), Idle]);
    s := State(Lists([w], [r]), None, None, [Idle, Idle]);
    WriterChecks(w, s3);
    ReaderEnters(w, r, s3, s8);
    WriterPushes(w, r, s8, s);
    var first, second, third := [(0, StartMut(w)), (0, Go), (0, Go)],
                                [(1, StartImm(r)), (1, Go), (1, Go), (1, Go), (1, Go)], [(0, Go), (0, Go)];
    RunsOn(s3, second, s8, third, s);
    RunsOn(Start(2), first, s3, second + third, s);
    schedule := first + (second + third);
    assert Overlaps(s.lists.mutable[0].span, s.lists.immutable[0].span);
  }

  lemma WriterChecks(w: Entry, s3: State)
    requires w.mutable && s3 == State(Lists([], []), None, None, [PushMut(w, {}), Idle])
    ensures Runs(Start(2), [(0, StartMut(w)), (0, Go), (0, Go)], s3)
  {
    var s1 := Step(Start(2), 0, StartMut(w)).value;
    var s2 := Step(s1, 0, Go).value;
    assert s2.pcs[0] == InCheckImm(w);
    assert Step(s2, 0, Go).value == s3;
    Cons(s2, (0, Go), [], s3);
    Cons(s1, (0, Go), [(0, Go)], s3);
    Cons(Start(2), (0, StartMut(w)), [(0, Go), (0, Go)], s3);
  }

  lemma ReaderEnters(w: Entry, r: Entry, s3: State, s8: State)
    requires w.mutable && !r.mutable
    requires s3 == State(Lists([], []), None, None, [PushMut(w, {}), Idle])
    requires s8 == State(Lists([], [r]), None, None, [PushMut(w, {r}), Idle])
    ensures Runs(s3, [(1, StartImm(r)), (1, Go), (1, Go), (1, Go), (1, Go)], s8)
  {
    var s4 := Step(s3, 1, StartImm(r)).value;
    var s5 := Step(s4, 1, Go).value;
    assert s5.pcs[1] == InPushImm(r);
    var s6 := Step(s5, 1, Go).value;
    assert s6 == State(Lists([], []), Some(1), None, [PushMut(w, {}), WantBoth(r)]);
    var s7 := Step(s6, 1, Go).value;
    assert s7 == State(Lists([], []), Some(1), Some(1), [PushMut(w, {}), HasBoth(r)]);
    assert Note(s7.pcs[0], r) == PushMut(w, {r}) by {
      assert {} + {r} == {r};
    }
    assert NoteAll(s7.pcs, r)[1 := Idle] == s8.pcs && [] + [r] == [r];
    assert Step(s7, 1, Go).value == s8;
    Cons(s7, (1, Go), [], s8);
    Cons(s6, (1, Go), [(1, Go)], s8);
    Cons(s5, (1, Go), [(1, Go), (1, Go)], s8);
    Cons(s4, (1, Go), [(1, Go), (1, Go), (1, Go)], s8);
    Cons(s3, (1, StartImm(r)), [(1, Go), (1, Go), (1, Go), (1, Go)], s8);
  }

  lemma WriterPushes(w: Entry, r: Entry, s8: State, s: State)
    requires s8 == State(Lists([], [r]), None, None, [PushMut(w, {r}), Idle])
    requires s == State(Lists([w], [r]), None, None, [Idle, Idle])
    ensures Runs(s8, [(0, Go), (0, Go)], s)
  {
    var s9 := Step(s8, 0, Go).value;
    assert s9 == State(Lists([], [r]), Some(0), None, [InPushMut(w, {r}), Idle]);
    assert s9.pcs[0 := Idle] == [Idle, Idle] && [] + [w] == [w];
    assert !Clashes(w, s9.lists.mutable);
    assert Step(s9, 0, Go).value == s;
    Cons(s9, (0, Go), [], s);
    Cons(s8, (0, Go), [(0, Go)], s);
  }

  lemma {:induction false} RunsOn(s: State, first: seq<(nat, Act)>, mid: State, rest: seq<(nat, Act)>, s': State)
    requires Runs(s, first, mid) && Runs(mid, rest, s')
    ensures Runs(s, first + rest, s')
    decreases |first|
  {
    if first == [] {
      assert first + rest == rest;
    } else {
      RunsOn(Step(s, first[0].0, first[0].1).value, first[1..], mid, rest, s');
      assert (first + rest)[1..] == first[1..] + rest;
    }
  }

  lemma Cons(s: State, step: (nat, Act), rest: seq<(nat, Act)>, s': State)
    requires step.0 < |s.pcs| && Step(s, step.0, step.1).Some? && Runs(Step(s, step.0, step.1).value, rest, s')
    ensures Runs(s, [step] + rest, s')
  {
    assert ([step] + rest)[1..] == rest;
  }

  // ----- Runs without a race -----

  /** The immutable push about to happen overlaps no mutable borrow between its two checks. */
  predicate Races(s: State, t: nat, act: Act)
    requires t < |s.pcs|
  {
    act.Go? && s.pcs[t].HasBoth? &&
    exists u :: 0 <= u < |s.pcs| && (s.pcs[u].PushMut? || s.pcs[u].InPushMut?) && Overlaps(s.pcs[u].e.span, s.pcs[t].e.span)
  }

  predicate RaceFree(s: State, schedule: seq<(nat, Act)>)
    decreases |schedule|
  {
    schedule != [] ==>
      var (t, act) := schedule[0];
      t < |s.pcs| && Step(s, t, act).Some? ==> !Races(s, t, act) && RaceFree(Step(s, t, act).value, schedule[1..])
  }

  /** Every such race can lose exclusion, unless the mutable borrow would be refused anyway: the reader
      registers, then the writer, and both ranges stay. */
  lemma RaceCanLoseExclusion(s: State, t: nat, u: nat) returns (s': State)
    requires t < |s.pcs| && u < |s.pcs| && Inv(s) && s.pcs[t].HasBoth? && (s.pcs[u].PushMut? || s.pcs[u].InPushMut?)
    requires Overlaps(s.pcs[u].e.span, s.pcs[t].e.span) && !Clashes(s.pcs[u].e, s.lists.mutable)
    ensures Runs(s, [(t, Go), (u, Go), (u, Go)], s') && !ReaderWriter(s'.lists)
  {
    var r, w := s.pcs[t].e, s.pcs[u].e;
    assert HoldsMut(s.pcs[t]) && s.mutLock == Some(t);
    assert s.pcs[u].PushMut?;
    var s1 := Step(s, t, Go).value;
    assert s1.pcs[u] == Note(s.pcs[u], r) && s1.mutLock == None;
    var s2 := Step(s1, u, Go).value;
    assert s2.lists == s1.lists && s2.pcs[u].InPushMut? && s2.pcs[u].e == w;
    s' := Step(s2, u, Go).value;
    assert s'.lists == Lists(s.lists.mutable + [w], s.lists.immutable + [r]);
    assert Overlaps(s'.lists.mutable[|s.lists.mutable|].span, s'.lists.immutable[|s.lists.immutable|].span);
    Cons(s2, (u, Go), [], s');
    Cons(s1, (u, Go), [(u, Go)], s');
    Cons(s, (t, Go), [(u, Go), (u, Go)], s');
    assert [(t, Go)] + [(u, Go), (u, Go)] == [(t, Go), (u, Go), (u, Go)];
  }

  /** Exclusion in every state of a schedule. */
  predicate AlwaysExcludes(s: State, schedule: seq<(nat, Act)>)
    decreases |schedule|
  {
    ReaderWriter(s.lists) &&
    (schedule != [] ==>
       var (t, act) := schedule[0];
       t < |s.pcs| && Step(s, t, act).Some? ==> AlwaysExcludes(Step(s, t, act).value, schedule[1..]))
  }

  /** No step of a schedule registers a mutable range that was overtaken. */
  predicate NeverOvertaken(s: State, schedule: seq<(nat, Act)>)
    decreases |schedule|
  {
    schedule != [] ==>
      var (t, act) := schedule[0];
      t < |s.pcs| && Step(s, t, act).Some? ==>
        !(act.Go? && Registers(s, t) && Overtaken(s, t)) && NeverOvertaken(Step(s, t, act).value, schedule[1..])
  }

  /** For whole schedules: exclusion holds throughout if and only if no registration was overtaken. */
  lemma {:induction false} AlwaysExcludesIff(s: State, schedule: seq<(nat, Act)>)
    requires Inv(s) && ReaderWriter(s.lists)
    ensures AlwaysExcludes(s, schedule) <==> NeverOvertaken(s, schedule)
    decreases |schedule|
  {
    if schedule != [] {
      var (t, act) := schedule[0];
      if t < |s.pcs| && Step(s, t, act).Some? {
        StepKeepsInv(s, t, act);
        ExclusionIsKeptIff(s, t, act);
        if ReaderWriter(Step(s, t, act).value.lists) {
          AlwaysExcludesIff(Step(s, t, act).value, schedule[1..]);
        }
      }
    }
  }

  /** Nobody was overtaken by a range that overlaps. */
  predicate Undisturbed(s: State) {
    forall u, x :: 0 <= u < |s.pcs| && (s.pcs[u].PushMut? || s.pcs[u].InPushMut?) && x in s.pcs[u].late ==>
      !Overlaps(s.pcs[u].e.span, x.span)
  }

  /** Without such a race, full reader/writer exclusion holds in every state. */
  lemma {:induction false} RaceFreeRunsExclude(s: State, schedule: seq<(nat, Act)>, s': State)
    requires Inv(s) && Undisturbed(s) && ReaderWriter(s.lists) && Runs(s, schedule, s') && RaceFree(s, schedule)
    ensures ReaderWriter(s'.lists)
    decreases |schedule|
  {
    if schedule != [] {
      var (t, act) := schedule[0];
      StepKeepsInv(s, t, act);
      ExclusionIsKeptIff(s, t, act);
      StaysUndisturbed(s, t, act);
      RaceFreeRunsExclude(Step(s, t, act).value, schedule[1..], s');
    }
  }

  lemma StaysUndisturbed(s: State, t: nat, act: Act)
    requires t < |s.pcs| && Undisturbed(s) && Step(s, t, act).Some? && !Races(s, t, act)
    ensures Undisturbed(Step(s, t, act).value)
  {
    var s' := Step(s, t, act).value;
    forall u, x | 0 <= u < |s'.pcs| && (s'.pcs[u].PushMut? || s'.pcs[u].InPushMut?) && x in s'.pcs[u].late
      ensures !Overlaps(s'.pcs[u].e.span, x.span)
    {
      if act.Go? && s.pcs[t].HasBoth? && u != t {
        assert s'.pcs[u] == Note(s.pcs[u], s.pcs[t].e);
      }
    }
  }

  /** From the empty registry, on any number of threads. */
  lemma RaceFreeMeansExclusive(threads: nat, schedule: seq<(nat, Act)>, s: State)
    requires Runs(Start(threads), schedule, s) && RaceFree(Start(threads), schedule)
    ensures ReaderWriter(s.lists)
  {
    RaceFreeRunsExclude(Start(threads), schedule, s);
  }

  lemma ReachableKeepsInv(threads: nat, schedule: seq<(nat, Act)>, s: State)
    requires Runs(Start(threads), schedule, s)
    ensures Inv(s)
  {
    RunKeepsInv(Start(threads), schedule, s);
  }
}
