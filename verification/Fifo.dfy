/**
 * The bounded FIFO of examples/dp_fifo.c: one mutex, one condition variable, one producer and one
 * consumer. A thread owns the lock from its entry to its next wait or unlock, so each such section is
 * one step of the protocol.
 */
module Fifo {

  type Elem = int

  /** What the mutex guards: `entries[..count]`, `push_wait` and `flush`. */
  datatype Shared = Shared(queue: seq<Elem>, pushWait: bool, flush: bool)

  // ----- The critical sections -----

  datatype PushResult = Stored(sh: Shared, signal: bool) | MustWait(sh: Shared) | Refused(sh: Shared)

  datatype ShiftResult = Got(sh: Shared, e: Elem, signal: bool) | Empty

  /** `dp_fifo_push` from its loop test to the next wait or unlock. */
  function PushTop(sh: Shared, capacity: nat, e: Elem): PushResult {
    if |sh.queue| == capacity then MustWait(sh.(pushWait := true))
    else Stored(sh.(queue := sh.queue + [e]), |sh.queue| + 1 == 1)
  }

  /** `dp_fifo_push` from its return from the wait; a refusal signals. */
  function PushAgain(sh: Shared, capacity: nat, e: Elem): PushResult {
    var awake := sh.(pushWait := false);
    if sh.flush then Refused(awake) else PushTop(awake, capacity, e)
  }

  /** `dp_fifo_shift` from its loop test. */
  function ShiftTop(sh: Shared, capacity: nat): ShiftResult {
    if sh.queue == [] then Empty
    else Got(sh.(queue := sh.queue[1..]), sh.queue[0], |sh.queue| - 1 == capacity - 1)
  }

  /** The end of `dp_fifo_flush`. */
  function FlushEnd(sh: Shared): Shared {
    sh.(queue := [], flush := false)
  }

  function Reversed(s: seq<Elem>): (r: seq<Elem>)
    ensures |r| == |s| && forall i :: 0 <= i < |r| ==> r[i] == s[|s| - 1 - i]
  {
    seq(|s|, i requires 0 <= i < |s| => s[|s| - 1 - i])
  }

  /** No element is destroyed twice, and none is missed. */
  lemma {:induction false} ReversedSame(s: seq<Elem>)
    ensures multiset(Reversed(s)) == multiset(s)
    decreases |s|
  {
    if s != [] {
      var last := |s| - 1;
      ReversedSame(s[..last]);
      assert Reversed(s) == [s[last]] + Reversed(s[..last]);
      assert s == s[..last] + [s[last]];
    }
  }

  class DpFifo {
    const capacity: nat
    const entries: array<Elem>
    var count: nat
    var pushWait: bool
    var flush: bool

    ghost predicate Valid()
      reads this, entries
    {
      0 < capacity == entries.Length && count <= capacity
    }

    ghost function Value(): Shared
      requires Valid()
      reads this, entries
    {
      Shared(entries[..count], pushWait, flush)
    }

    constructor (capacity: nat)
      requires capacity > 0
      ensures Valid() && this.capacity == capacity && Value() == Shared([], false, false) && fresh(entries)
    {
      this.capacity := capacity;
      entries := new int[capacity](_ => 0);
      count, pushWait, flush := 0, false, false;
    }

    /** The section of `dp_fifo_push` that starts at the loop test: the element is stored, or the push
        has to wait. */
    method PushSection(e: Elem) returns (stored: bool, signal: bool)
      requires Valid()
      modifies this, entries
      ensures Valid()
      ensures PushTop(old(Value()), capacity, e) == if stored then Stored(Value(), signal) else MustWait(Value())
    {
      if count == capacity {
        pushWait := true;
        return false, false;
      }
      entries[count] := e;
      count := count + 1;
      assert entries[..count] == old(entries[..count]) + [e];
      return true, count == 1;
    }

    /** The section that starts at the return from `SDL_CondWait`: a flush refuses the element. */
    method ResumeSection(e: Elem) returns (refused: bool, stored: bool, signal: bool)
      requires Valid()
      modifies this, entries
      ensures Valid()
      ensures PushAgain(old(Value()), capacity, e) ==
              if refused then Refused(Value()) else if stored then Stored(Value(), signal) else MustWait(Value())
    {
      pushWait := false;
      if flush {
        return true, false, true;
      }
      refused := false;
      stored, signal := PushSection(e);
    }

    /** `dp_fifo_array_shift`: in place, front out, the others move up. */
    static method ArrayShift(arr: array<Elem>, len: nat) returns (first: Elem)
      requires 0 < len <= arr.Length
      modifies arr
      ensures first == old(arr[0]) && arr[..len - 1] == old(arr[1..len])
    {
      first := arr[0];
      for i := 1 to len
        invariant forall j :: 0 <= j < i - 1 ==> arr[j] == old(arr[j + 1])
        invariant forall j :: i - 1 <= j < arr.Length ==> arr[j] == old(arr[j])
      {
        arr[i - 1] := arr[i];
      }
    }

    /** The section of `dp_fifo_shift` that starts at the loop test. */
    method ShiftSection() returns (got: bool, e: Elem, signal: bool)
      requires Valid()
      modifies this, entries
      ensures Valid() && ShiftTop(old(Value()), capacity) == if got then Got(Value(), e, signal) else Empty
      ensures !got ==> Value() == old(Value())
    {
      if count == 0 {
        return false, 0, false;
      }
      e := ArrayShift(entries, count);
      count := count - 1;
      assert entries[..count] == old(entries[..count])[1..];
      return true, e, count == capacity - 1;
    }

    /** The start of `dp_fifo_flush`; it waits when a push is waiting. */
    method FlushSection() returns (waits: bool)
      requires Valid()
      modifies this
      ensures Valid() && waits == old(Value()).pushWait && Value() == old(Value()).(flush := true)
    {
      flush := true;
      waits := pushWait;
    }

    /** The end of `dp_fifo_flush`: elements are destroyed from the newest to the oldest. */
    method DrainSection() returns (destroyed: seq<Elem>)
      requires Valid()
      modifies this
      ensures Valid() && Value() == FlushEnd(old(Value())) && destroyed == Reversed(old(Value()).queue)
    {
      destroyed := [];
      ghost var all := entries[..count];
      while count > 0
        invariant count <= |all| <= entries.Length && all == entries[..|all|]
        invariant |destroyed| == |all| - count && forall i :: 0 <= i < |destroyed| ==> destroyed[i] == all[|all| - 1 - i]
        invariant pushWait == old(pushWait)
      {
        count := count - 1;
        destroyed := destroyed + [entries[count]];
      }
      flush := false;
    }
  }

  // ----- The protocol -----

  /** A sleeping push remembers, for the proof only, whether a flush was under way when it fell asleep. */
  datatype Producer = PIdle | PAsleep(e: Elem, inFlush: bool) | PWoken(e: Elem)

  datatype Consumer = CIdle | ShiftAsleep | ShiftWoken | FlushAsleep | FlushWoken

  /** What happened so far; `removed` tells shifted elements from destroyed ones. */
  datatype Log = Log(offered: seq<Elem>, accepted: seq<Elem>, refused: seq<Elem>,
                     shifted: seq<Elem>, destroyed: seq<Elem>, removed: seq<(Elem, bool)>)

  datatype State = State(sh: Shared, p: Producer, c: Consumer, log: Log)

  datatype Event = Push(e: Elem) | PushResume | Shift | ShiftResume | Flush | FlushResume | SpuriousP | SpuriousC

  /** `SDL_CondSignal` by the producer: with two threads only the consumer can be waiting. */
  function WakeC(c: Consumer): Consumer {
    if c.ShiftAsleep? then ShiftWoken else if c.FlushAsleep? then FlushWoken else c
  }

  function WakeP(p: Producer): Producer {
    if p.PAsleep? then PWoken(p.e) else p
  }

  /** The effect of a push section on the whole system. */
  function AfterPush(s: State, r: PushResult, e: Elem): State {
    match r
    case Stored(sh, signal) =>
      State(sh, PIdle, if signal then WakeC(s.c) else s.c, s.log.(accepted := s.log.accepted + [e]))
    case MustWait(sh) => State(sh, PAsleep(e, sh.flush), s.c, s.log)
    case Refused(sh) => State(sh, PIdle, WakeC(s.c), s.log.(refused := s.log.refused + [e]))
  }

  function AfterShift(s: State, r: ShiftResult): State {
    match r
    case Empty => s.(c := ShiftAsleep)
    case Got(sh, e, signal) =>
      State(sh, if signal then WakeP(s.p) else s.p, CIdle,
            s.log.(shifted := s.log.shifted + [e], removed := s.log.removed + [(e, true)]))
  }

  function AfterFlush(s: State): State {
    State(FlushEnd(s.sh), s.p, CIdle,
          s.log.(destroyed := s.log.destroyed + Reversed(s.sh.queue), removed := s.log.removed + Marked(s.sh.queue)))
  }

  function Marked(s: seq<Elem>): seq<(Elem, bool)> {
    seq(|s|, i requires 0 <= i < |s| => (s[i], false))
  }

  function Next(s: State, capacity: nat, ev: Event): (r: State)
    requires Enabled(s, ev)
  {
    match ev
    case Push(e) =>
      AfterPush(s.(log := s.log.(offered := s.log.offered + [e])), PushTop(s.sh, capacity, e), e)
    case PushResume => AfterPush(s, PushAgain(s.sh, capacity, s.p.e), s.p.e)
    case Shift => AfterShift(s, ShiftTop(s.sh, capacity))
    case ShiftResume => AfterShift(s, ShiftTop(s.sh, capacity))
    case Flush =>
      var started := s.(sh := s.sh.(flush := true));
      if s.sh.pushWait then started.(p := WakeP(s.p), c := FlushAsleep) else AfterFlush(started)
    case FlushResume => AfterFlush(s)
    case SpuriousP => s.(p := WakeP(s.p))
    case SpuriousC => s.(c := WakeC(s.c))
  }

  predicate Enabled(s: State, ev: Event) {
    match ev
    case Push(_) => s.p.PIdle?
    case PushResume => s.p.PWoken?
    case Shift => s.c.CIdle?
    case ShiftResume => s.c.ShiftWoken?
    case Flush => s.c.CIdle?
    case FlushResume => s.c.FlushWoken?
    case SpuriousP => s.p.PAsleep?
    case SpuriousC => s.c.ShiftAsleep? || s.c.FlushAsleep?
  }

  const START := State(Shared([], false, false), PIdle, CIdle, Log([], [], [], [], [], []))

  predicate Runs(s: State, capacity: nat, events: seq<Event>, s': State)
    decreases |events|
  {
    if events == [] then s == s'
    else Enabled(s, events[0]) && Runs(Next(s, capacity, events[0]), capacity, events[1..], s')
  }

  // ----- What every run keeps -----

  function Elems(removed: seq<(Elem, bool)>): (r: seq<Elem>)
    ensures |r| == |removed| && forall i :: 0 <= i < |r| ==> r[i] == removed[i].0
  {
    seq(|removed|, i requires 0 <= i < |removed| => removed[i].0)
  }

  /** The elements removed by shift (or by flush), in order. */
  function Chosen(removed: seq<(Elem, bool)>, how: bool): seq<Elem> {
    if removed == [] then []
    else
      var last := |removed| - 1;
      Chosen(removed[..last], how) + if removed[last].1 == how then [removed[last].0] else []
  }

  function Waiting(p: Producer): multiset<Elem> {
    if p.PIdle? then multiset{} else multiset{p.e}
  }

  /** Order: the queue is what was accepted and not yet removed, in push order, and what shift returned
      is what it removed, in that order. */
  predicate InOrder(s: State) {
    && s.log.accepted == Elems(s.log.removed) + s.sh.queue
    && s.log.shifted == Chosen(s.log.removed, true)
    && |s.log.shifted| + |s.log.destroyed| == |s.log.removed|
  }

  /** Conservation: every element offered is in exactly one place. */
  predicate Conserved(s: State) {
    multiset(s.log.offered) == Placed(s.sh.queue, s.log) + Waiting(s.p)
  }

  /** Queued, shifted, destroyed or refused. */
  function Placed(queue: seq<Elem>, log: Log): multiset<Elem> {
    multiset(queue) + multiset(log.shifted) + multiset(log.destroyed) + multiset(log.refused)
  }

  /** The handshake. */
  predicate Handshake(s: State) {
    && s.sh.pushWait == !s.p.PIdle?
    && s.sh.flush == (s.c.FlushAsleep? || s.c.FlushWoken?)
    && (s.c.FlushAsleep? ==> s.p.PWoken?)
    && (s.p.PAsleep? && s.sh.flush ==> s.p.inFlush)
  }

  predicate Inv(s: State, capacity: nat) {
    && |s.sh.queue| <= capacity
    && InOrder(s) && Conserved(s) && Handshake(s)
    && (s.c.ShiftAsleep? ==> s.sh.queue == [])
  }

  lemma ChosenSnoc(removed: seq<(Elem, bool)>, e: Elem, kind: bool, how: bool)
    ensures Chosen(removed + [(e, kind)], how) == Chosen(removed, how) + if kind == how then [e] else []
  {
    assert (removed + [(e, kind)])[..|removed|] == removed;
  }

  lemma {:induction false} ChosenMarked(removed: seq<(Elem, bool)>, s: seq<Elem>)
    ensures Chosen(removed + Marked(s), true) == Chosen(removed, true)
    decreases |s|
  {
    if s == [] {
      assert removed + Marked(s) == removed;
    } else {
      var last := |s| - 1;
      ChosenMarked(removed, s[..last]);
      assert removed + Marked(s) == (removed + Marked(s[..last])) + [(s[last], false)];
      ChosenSnoc(removed + Marked(s[..last]), s[last], false, true);
    }
  }

  lemma ElemsMarked(removed: seq<(Elem, bool)>, s: seq<Elem>)
    ensures Elems(removed + Marked(s)) == Elems(removed) + s
  {
  }

  lemma ElementPlaced(queue: seq<Elem>, log: Log, e: Elem)
    ensures Placed(queue + [e], log.(accepted := log.accepted + [e])) == Placed(queue, log) + multiset{e}
    ensures Placed(queue, log.(refused := log.refused + [e])) == Placed(queue, log) + multiset{e}
  {
    assert multiset(queue + [e]) == multiset(queue) + multiset{e};
    assert multiset(log.refused + [e]) == multiset(log.refused) + multiset{e};
  }

  /** Everything but the handshake, which the sections of a push restore. */
  predicate Consistent(s: State, capacity: nat) {
    |s.sh.queue| <= capacity && InOrder(s) && Conserved(s) && (s.c.ShiftAsleep? ==> s.sh.queue == [])
  }

  /** Placing the element the producer holds. */
  lemma ConservePlaced(s: State, t: State, e: Elem)
    requires Conserved(s) && s.p == PWoken(e) && t.p.PIdle? && t.log.offered == s.log.offered
    requires Placed(t.sh.queue, t.log) == Placed(s.sh.queue, s.log) + multiset{e}
    ensures Conserved(t)
  {
  }

  lemma ConserveOffered(s: State, t: State, e: Elem)
    requires Conserved(s) && s.p.PIdle? && t.p == PWoken(e) && t.log.offered == s.log.offered + [e]
    requires Placed(t.sh.queue, t.log) == Placed(s.sh.queue, s.log)
    ensures Conserved(t)
  {
    assert multiset(t.log.offered) == multiset(s.log.offered) + multiset{e};
  }

  lemma ConserveSame(s: State, t: State)
    requires Conserved(s) && Waiting(t.p) == Waiting(s.p) && t.log.offered == s.log.offered
    requires Placed(t.sh.queue, t.log) == Placed(s.sh.queue, s.log)
    ensures Conserved(t)
  {
  }

  lemma StoreInOrder(s: State, t: State, e: Elem)
    requires InOrder(s) && t.sh.queue == s.sh.queue + [e] && t.log.accepted == s.log.accepted + [e]
    requires t.log.removed == s.log.removed && t.log.shifted == s.log.shifted && t.log.destroyed == s.log.destroyed
    ensures InOrder(t)
  {
  }

  lemma PushKeeps(s: State, capacity: nat, e: Elem)
    requires capacity > 0 && Consistent(s, capacity) && s.p == PWoken(e)
    ensures Consistent(AfterPush(s, PushTop(s.sh, capacity, e), e), capacity)
  {
    var t := AfterPush(s, PushTop(s.sh, capacity, e), e);
    ElementPlaced(s.sh.queue, s.log, e);
    if |s.sh.queue| == capacity {
      ConserveSame(s, t);
    } else {
      ConservePlaced(s, t, e);
      StoreInOrder(s, t, e);
    }
  }

  lemma RefusalKeeps(s: State, capacity: nat, e: Elem)
    requires Consistent(s, capacity) && s.p == PWoken(e)
    ensures Consistent(AfterPush(s, Refused(s.sh.(pushWait := false)), e), capacity)
  {
    ElementPlaced(s.sh.queue, s.log, e);
    ConservePlaced(s, AfterPush(s, Refused(s.sh.(pushWait := false)), e), e);
  }

  lemma PushStep(s: State, capacity: nat, e: Elem)
    requires capacity > 0 && Inv(s, capacity) && s.p.PIdle?
    ensures Inv(Next(s, capacity, Push(e)), capacity)
  {
    var t := s.(log := s.log.(offered := s.log.offered + [e]), p := PWoken(e));
    ConserveOffered(s, t, e);
    PushKeeps(t, capacity, e);
    PushHandshake(s, capacity, e);
  }

  lemma PushHandshake(s: State, capacity: nat, e: Elem)
    requires Handshake(s) && s.p.PIdle?
    ensures Handshake(Next(s, capacity, Push(e)))
  {
  }

  lemma ResumeStep(s: State, capacity: nat)
    requires capacity > 0 && Inv(s, capacity) && s.p.PWoken?
    ensures Inv(Next(s, capacity, PushResume), capacity)
  {
    ResumeConsistent(s, s.(sh := s.sh.(pushWait := false)), capacity, s.p.e);
    ResumeHandshake(s, capacity);
  }

  lemma ResumeConsistent(s: State, t: State, capacity: nat, e: Elem)
    requires capacity > 0 && Consistent(s, capacity) && s.p == PWoken(e) && t == s.(sh := s.sh.(pushWait := false))
    ensures Consistent(Next(s, capacity, PushResume), capacity)
  {
    ConserveSame(s, t);
    if s.sh.flush {
      assert Next(s, capacity, PushResume) == AfterPush(t, Refused(t.sh.(pushWait := false)), e);
      RefusalKeeps(t, capacity, e);
    } else {
      assert Next(s, capacity, PushResume) == AfterPush(t, PushTop(t.sh, capacity, e), e);
      PushKeeps(t, capacity, e);
    }
  }

  lemma ResumeHandshake(s: State, capacity: nat)
    requires Handshake(s) && s.p.PWoken?
    ensures Handshake(Next(s, capacity, PushResume))
  {
  }

  lemma ElementMoves(queue: seq<Elem>, log: Log)
    requires queue != []
    ensures Placed(queue[1..], log.(shifted := log.shifted + [queue[0]], removed := log.removed + [(queue[0], true)])) ==
            Placed(queue, log)
  {
    assert queue == [queue[0]] + queue[1..];
    assert multiset(log.shifted + [queue[0]]) == multiset(log.shifted) + multiset{queue[0]};
  }

  lemma ShiftInOrder(s: State, t: State, e: Elem)
    requires InOrder(s) && s.sh.queue == [e] + t.sh.queue && t.log.accepted == s.log.accepted
    requires t.log.removed == s.log.removed + [(e, true)] && t.log.shifted == s.log.shifted + [e]
    requires t.log.destroyed == s.log.destroyed
    ensures InOrder(t)
  {
    ChosenSnoc(s.log.removed, e, true, true);
    assert Elems(t.log.removed) == Elems(s.log.removed) + [e];
  }

  lemma ShiftKeeps(s: State, capacity: nat)
    requires Inv(s, capacity) && (s.c.CIdle? || s.c.ShiftWoken?)
    ensures Inv(AfterShift(s, ShiftTop(s.sh, capacity)), capacity)
  {
    if s.sh.queue != [] {
      var t := AfterShift(s, ShiftTop(s.sh, capacity));
      ElementMoves(s.sh.queue, s.log);
      ConserveSame(s, t);
      ShiftInOrder(s, t, s.sh.queue[0]);
    }
  }

  lemma FlushKeeps(s: State, capacity: nat)
    requires |s.sh.queue| <= capacity && InOrder(s) && Conserved(s)
    requires s.sh.pushWait == !s.p.PIdle?
    ensures Inv(AfterFlush(s), capacity)
  {
    ElemsMarked(s.log.removed, s.sh.queue);
    ChosenMarked(s.log.removed, s.sh.queue);
    QueueDestroyed(s.sh.queue, s.log, AfterFlush(s).log);
    ConserveSame(s, AfterFlush(s));
  }

  lemma QueueDestroyed(queue: seq<Elem>, log: Log, next: Log)
    requires next.destroyed == log.destroyed + Reversed(queue) && next.shifted == log.shifted && next.refused == log.refused
    ensures Placed([], next) == Placed(queue, log)
  {
    ReversedSame(queue);
    assert multiset(next.destroyed) == multiset(log.destroyed) + multiset(Reversed(queue));
  }

  /** One step. */
  lemma StepKeeps(s: State, capacity: nat, ev: Event)
    requires capacity > 0 && Inv(s, capacity) && Enabled(s, ev)
    ensures Inv(Next(s, capacity, ev), capacity)
  {
    match ev {
      case Push(e) => PushStep(s, capacity, e);
      case PushResume => ResumeStep(s, capacity);
      case Shift => ShiftKeeps(s, capacity);
      case ShiftResume => ShiftKeeps(s, capacity);
      case Flush => FlushStep(s, capacity);
      case FlushResume => FlushKeeps(s, capacity);
      case SpuriousP =>
      case SpuriousC =>
    }
  }

  lemma FlushStep(s: State, capacity: nat)
    requires Inv(s, capacity) && s.c.CIdle?
    ensures Inv(Next(s, capacity, Flush), capacity)
  {
    if !s.sh.pushWait {
      FlushKeeps(s.(sh := s.sh.(flush := true)), capacity);
    }
  }

  /** Order, conservation and the capacity in every reachable state. */
  lemma {:induction false} RunKeeps(s: State, capacity: nat, events: seq<Event>, s': State)
    requires capacity > 0 && Inv(s, capacity) && Runs(s, capacity, events, s')
    ensures Inv(s', capacity)
    decreases |events|
  {
    if events != [] {
      StepKeeps(s, capacity, events[0]);
      RunKeeps(Next(s, capacity, events[0]), capacity, events[1..], s');
    }
  }

  lemma {:induction false} ChosenAll(removed: seq<(Elem, bool)>)
    ensures |Chosen(removed, true)| <= |removed|
    ensures |Chosen(removed, true)| == |removed| ==> Chosen(removed, true) == Elems(removed)
    decreases |removed|
  {
    if removed != [] {
      var last := |removed| - 1;
      ChosenAll(removed[..last]);
      assert Elems(removed) == Elems(removed[..last]) + [removed[last].0];
    }
  }

  /** As long as nothing was destroyed, what was shifted and then what is queued is what was pushed. */
  lemma NothingDestroyed(s: State, capacity: nat)
    requires Inv(s, capacity) && s.log.destroyed == []
    ensures s.log.accepted == s.log.shifted + s.sh.queue
  {
    ChosenAll(s.log.removed);
  }

  /** A push is refused exactly when it comes back from its wait to find the flush flag set. */
  lemma RefusedIff(s: State, capacity: nat, ev: Event)
    requires Enabled(s, ev)
    ensures Next(s, capacity, ev).log.refused ==
            s.log.refused + if ev.PushResume? && s.sh.flush then [s.p.e] else []
  {
  }

  /** The element of the push that waits, if one does. */
  function WaitingElem(p: Producer): seq<Elem> {
    if p.PIdle? then [] else [p.e]
  }

  /** No flush has been under way. */
  predicate Unflushed(s: State) {
    && !s.sh.flush && !s.c.FlushAsleep? && !s.c.FlushWoken?
    && s.log.refused == [] && s.log.destroyed == []
    && s.log.offered == s.log.accepted + WaitingElem(s.p)
  }

  predicate HasNoFlush(events: seq<Event>) {
    forall i :: 0 <= i < |events| ==> !events[i].Flush?
  }

  lemma StepUnflushed(s: State, capacity: nat, ev: Event)
    requires Unflushed(s) && Enabled(s, ev) && !ev.Flush?
    ensures Unflushed(Next(s, capacity, ev))
  {
    RefusedIff(s, capacity, ev);
  }

  lemma {:induction false} RunUnflushed(s: State, capacity: nat, events: seq<Event>, s': State)
    requires Unflushed(s) && Runs(s, capacity, events, s') && HasNoFlush(events)
    ensures Unflushed(s')
    decreases |events|
  {
    if events != [] {
      StepUnflushed(s, capacity, events[0]);
      RunUnflushed(Next(s, capacity, events[0]), capacity, events[1..], s');
    }
  }

  /** Without a flush no element is refused or destroyed: what was shifted, then the queue, then the
      element of the push that waits is exactly what was offered, in order. */
  lemma WithoutFlushNothingIsLost(capacity: nat, events: seq<Event>, s: State)
    requires capacity > 0 && Runs(START, capacity, events, s) && HasNoFlush(events)
    ensures s.log.refused == [] && s.log.destroyed == []
    ensures s.log.offered == s.log.shifted + s.sh.queue + WaitingElem(s.p)
  {
    RunUnflushed(START, capacity, events, s);
    RunKeeps(START, capacity, events, s);
    NothingDestroyed(s, capacity);
  }

  /** A thread that does not sleep has exactly one kind of section to enter next: only a sleeping thread
      is held up. */
  lemma AwakeCanGo(s: State, e: Elem)
    ensures (exists ev :: Enabled(s, ev) && (ev == Push(e) || ev == PushResume)) <==> !s.p.PAsleep?
    ensures (exists ev :: Enabled(s, ev) && (ev == Shift || ev == ShiftResume || ev == FlushResume)) <==>
            !s.c.ShiftAsleep? && !s.c.FlushAsleep?
  {
    assert Enabled(s, Push(e)) || Enabled(s, PushResume) || s.p.PAsleep?;
    assert Enabled(s, Shift) || Enabled(s, ShiftResume) || Enabled(s, FlushResume) || s.c.ShiftAsleep? || s.c.FlushAsleep?;
  }

  // ----- Wakeups -----

  /** No thread sleeps on a condition that holds: a push only sleeps on a full queue, a shift on an
      empty one, a flush only with a push on its way. */
  predicate NoLostWakeup(s: State, capacity: nat) {
    && (s.p.PAsleep? ==> |s.sh.queue| == capacity)
    && (s.c.ShiftAsleep? ==> s.sh.queue == [])
    && (s.c.FlushAsleep? ==> s.p.PWoken?)
  }

  /** Both threads asleep, nobody to signal. */
  predicate Stuck(s: State) {
    s.p.PAsleep? && (s.c.ShiftAsleep? || s.c.FlushAsleep?)
  }

  /** The end of a flush, with a push that fell asleep while the flush was under way. */
  predicate LosesWakeup(s: State, ev: Event) {
    ev.FlushResume? && s.p.PAsleep?
  }

  /** The one step that loses a wakeup: `dp_fifo_flush` empties the queue without signalling, and a
      push went to sleep between its handshake and its end. */
  lemma WakeupIsLostIff(s: State, capacity: nat, ev: Event)
    requires capacity > 0 && Inv(s, capacity) && NoLostWakeup(s, capacity) && Enabled(s, ev)
    ensures NoLostWakeup(Next(s, capacity, ev), capacity) <==> !LosesWakeup(s, ev)
    ensures LosesWakeup(s, ev) ==> s.p.inFlush
  {
  }

  /** A push that finds the queue full while a flush is waiting to go on. */
  predicate IllTimed(s: State, capacity: nat, ev: Event) {
    ev.Push? && s.sh.flush && |s.sh.queue| == capacity
  }

  predicate WellTimed(s: State, capacity: nat, events: seq<Event>)
    decreases |events|
  {
    events != [] && Enabled(s, events[0]) ==>
      !IllTimed(s, capacity, events[0]) && WellTimed(Next(s, capacity, events[0]), capacity, events[1..])
  }

  predicate AwakeInFlush(s: State) {
    s.p.PAsleep? ==> !s.p.inFlush
  }

  /** Without such a push no wakeup is ever lost, and the two threads are never stuck together. */
  lemma {:induction false} WellTimedRunsNeverStick(s: State, capacity: nat, events: seq<Event>, s': State)
    requires capacity > 0 && Inv(s, capacity) && NoLostWakeup(s, capacity) && AwakeInFlush(s)
    requires Runs(s, capacity, events, s') && WellTimed(s, capacity, events)
    ensures NoLostWakeup(s', capacity) && !Stuck(s')
    decreases |events|
  {
    if events != [] {
      StepKeeps(s, capacity, events[0]);
      WakeupIsLostIff(s, capacity, events[0]);
      WellTimedRunsNeverStick(Next(s, capacity, events[0]), capacity, events[1..], s');
    }
  }

  /** From the empty FIFO: order, conservation, capacity and handshake in every reachable state. */
  lemma ReachableIsConsistent(capacity: nat, events: seq<Event>, s: State)
    requires capacity > 0 && Runs(START, capacity, events, s)
    ensures Inv(s, capacity)
  {
    RunKeeps(START, capacity, events, s);
  }

  lemma WellTimedNeverSticks(capacity: nat, events: seq<Event>, s: State)
    requires capacity > 0 && Runs(START, capacity, events, s) && WellTimed(START, capacity, events)
    ensures NoLostWakeup(s, capacity) && !Stuck(s)
  {
    WellTimedRunsNeverStick(START, capacity, events, s);
  }

  /** And every such push can lose one: if the flush goes on first and the consumer then shifts, both
      threads sleep with the queue empty. */
  lemma IllTimedPushCanStick(s: State, capacity: nat, e: Elem) returns (s': State)
    requires capacity > 0 && Inv(s, capacity) && Enabled(s, Push(e)) && IllTimed(s, capacity, Push(e))
    ensures Runs(s, capacity, [Push(e), FlushResume, Shift], s') && Stuck(s') && s'.sh.queue == []
  {
    var s1 := Next(s, capacity, Push(e));
    var s2 := Next(s1, capacity, FlushResume);
    s' := Next(s2, capacity, Shift);
    assert Runs(s2, capacity, [Shift], s') by {
      assert [Shift][1..] == [];
    }
    assert Runs(s1, capacity, [FlushResume, Shift], s') by {
      assert [FlushResume, Shift][1..] == [Shift];
    }
    assert [Push(e), FlushResume, Shift][1..] == [FlushResume, Shift];
  }

  /** It is reachable: with one slot, fill it, push again, flush, and let the refused producer push once
      more before the flush gets the lock back. */
  lemma StuckIsReachable() returns (s: State, events: seq<Event>)
    ensures Runs(START, 1, events, s) && Stuck(s) && s.sh.queue == []
  {
    var s1 := Next(START, 1, Push(1));
    var s2 := Next(s1, 1, Push(2));
    var s3 := Next(s2, 1, Flush);
    var s4 := Next(s3, 1, PushResume);
    assert s4.sh == Shared([1], false, true) && s4.p == PIdle && s4.c == FlushWoken;
    var tail := [Push(3), FlushResume, Shift];
    assert Inv(s4, 1) by {
      StepKeeps(START, 1, Push(1));
      StepKeeps(s1, 1, Push(2));
      StepKeeps(s2, 1, Flush);
      StepKeeps(s3, 1, PushResume);
    }
    s := IllTimedPushCanStick(s4, 1, 3);
    Cons(s3, 1, PushResume, tail, s);
    Cons(s2, 1, Flush, [PushResume] + tail, s);
    Cons(s1, 1, Push(2), [Flush] + ([PushResume] + tail), s);
    Cons(START, 1, Push(1), [Push(2)] + ([Flush] + ([PushResume] + tail)), s);
    events := [Push(1)] + ([Push(2)] + ([Flush] + ([PushResume] + tail)));
  }

  lemma Cons(s: State, capacity: nat, ev: Event, rest: seq<Event>, s': State)
    requires Enabled(s, ev) && Runs(Next(s, capacity, ev), capacity, rest, s')
    ensures Runs(s, capacity, [ev] + rest, s')
  {
    assert ([ev] + rest)[1..] == rest;
  }
}
