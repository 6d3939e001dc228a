/**
 * The multi-producer single-consumer ring of src/ld_aqueue.c.
 *
 * Each atomic operation is one step; a schedule says which producer (with the object it would
 * enqueue when idle) or whether the consumer moves next. Memory is sequentially consistent and
 * objects are non-null.
 */
module MpscRing {
  import opened Wrappers
  import opened Arithmetic

  type Obj = int

  /** `size_t` counters wrap here. */
  const WRAP: nat := 0x1_0000_0000_0000_0000

  /** A producer; the ticket of a producer is the unwrapped value the wrapped `head` stands for. */
  datatype Producer =
    | Idle
    | BackOff                                  // count was at least max, about to undo the increment
    | Reserved(obj: Obj)                       // holds a reservation, about to take a ticket
    | Ticket(obj: Obj, head: nat, k: nat)      // about to read its slot (the first assertion)
    | Checked(obj: Obj, head: nat, k: nat)     // about to exchange its slot (the second assertion)

  datatype Consumer = Waiting | Took(obj: Obj)

  /**
   * Shared memory, the threads, and history: `tickets[k]` is what the holder of ticket k stored,
   * if it has; `taken` counts the objects exchanged out and `given` lists them. `fault` records a
   * failed assertion.
   */
  datatype State = State(
    max: nat, count: nat, head: nat, tail: nat, buffer: seq<Option<Obj>>,
    producers: map<nat, Producer>, consumer: Consumer, fault: bool,
    tickets: seq<Option<Obj>>, taken: nat, given: seq<Obj>)

  datatype Event = Produce(tid: nat, obj: Obj) | Consume

  function Init(max: nat): State {
    State(max, 0, 0, 0, seq(max, _ => None), map[], Waiting, false, [], 0, [])
  }

  function ProducerOf(s: State, tid: nat): Producer {
    if tid in s.producers then s.producers[tid] else Idle
  }

  function Exec(s: State, e: Event): State
    requires s.max > 0 && |s.buffer| == s.max && s.tail < s.max
  {
    match e
    case Consume => ConsumerMove(s)
    case Produce(tid, obj) =>
      var (s', p) := ProducerMove(s, obj, ProducerOf(s, tid));
      s'.(producers := s.producers[tid := p])
  }

  function ProducerMove(s: State, obj: Obj, p: Producer): (State, Producer)
    requires s.max > 0 && |s.buffer| == s.max
  {
    match p
    case Idle => (s.(count := s.count + 1), if s.count >= s.max then BackOff else Reserved(obj))
    case BackOff => (s.(count := if s.count > 0 then s.count - 1 else WRAP - 1), Idle)
    case Reserved(o) =>
      (s.(head := (s.head + 1) % WRAP, tickets := s.tickets + [None]), Ticket(o, s.head, |s.tickets|))
    case Ticket(o, head, k) =>
      (s.(fault := s.fault || s.buffer[head % s.max] != None), Checked(o, head, k))
    case Checked(o, head, k) =>
      (s.(fault := s.fault || s.buffer[head % s.max] != None,
          buffer := s.buffer[head % s.max := Some(o)],
          tickets := if k < |s.tickets| then s.tickets[k := Some(o)] else s.tickets), Idle)
  }

  function ConsumerMove(s: State): State
    requires s.tail < |s.buffer|
  {
    match s.consumer
    case Waiting =>
      (match s.buffer[s.tail]
       case None => s
       case Some(o) => s.(buffer := s.buffer[s.tail := None], consumer := Took(o),
                          taken := s.taken + 1, given := s.given + [o]))
    case Took(_) =>
      s.(tail := if s.tail + 1 >= s.max then 0 else s.tail + 1,
         count := if s.count > 0 then s.count - 1 else WRAP - 1,
         fault := s.fault || s.count == 0, consumer := Waiting)
  }

  // The invariant

  ghost function InState(s: State, reserved: bool): set<nat> {
    set t | t in s.producers && (if reserved then s.producers[t].Reserved? else s.producers[t].BackOff?)
  }

  /** Objects whose removal has been counted. */
  function Released(s: State): int {
    if s.consumer.Waiting? then s.taken else s.taken - 1
  }

  /** The ticket counter has not wrapped, or wraps where the ring does. */
  predicate NoWrap(max: nat, tickets: nat)
    requires max > 0
  {
    tickets <= WRAP || WRAP % max == 0
  }

  ghost predicate ShapeInv(s: State) {
    && s.max > 0 && NoWrap(s.max, |s.tickets|) && |s.buffer| == s.max && s.tail < s.max && !s.fault
    && s.taken <= |s.tickets| && 0 <= Released(s) && s.tail == Released(s) % s.max
    && s.head == |s.tickets| % WRAP
  }

  /** `count` covers the reservations, the tickets not yet released and the producers backing off. */
  ghost predicate CountInv(s: State) {
    && s.count == |InState(s, true)| + |InState(s, false)| + |s.tickets| - Released(s)
    && |InState(s, true)| + |s.tickets| - Released(s) <= s.max
  }

  /** The window of max slots from the oldest untaken ticket mirrors the tickets. */
  ghost predicate RingInv(s: State)
    requires s.max > 0 && |s.buffer| == s.max
  {
    forall k: nat {:trigger Slot(k, s.max)} :: s.taken <= k < s.taken + s.max ==>
      s.buffer[Slot(k, s.max)] == if k < |s.tickets| then s.tickets[k] else None
  }

  ghost predicate GivenInv(s: State)
    requires s.taken <= |s.tickets|
  {
    && |s.given| == s.taken
    && (forall k :: 0 <= k < s.taken ==> s.tickets[k] == Some(s.given[k]))
    && (s.consumer.Took? ==> s.taken > 0 && s.given[s.taken - 1] == s.consumer.obj)
  }

  predicate HasTicket(p: Producer) {
    p.Ticket? || p.Checked?
  }

  /** Every ticket holder has an unstored ticket of its own. */
  ghost predicate HoldersInv(s: State) {
    && (forall t :: t in s.producers && HasTicket(s.producers[t]) ==>
          var k := s.producers[t].k;
          k < |s.tickets| && s.tickets[k] == None && s.producers[t].head == k % WRAP)
    && (forall t, u :: (t in s.producers && u in s.producers && t != u
                        && HasTicket(s.producers[t]) && HasTicket(s.producers[u])) ==>
          s.producers[t].k != s.producers[u].k)
  }

  /** A ticket nobody has stored at yet is still held. */
  ghost predicate HeldInv(s: State) {
    forall k :: 0 <= k < |s.tickets| && s.tickets[k] == None ==>
      exists t :: t in s.producers && HasTicket(s.producers[t]) && s.producers[t].k == k
  }

  ghost predicate Inv(s: State) {
    ShapeInv(s) && CountInv(s) && RingInv(s) && GivenInv(s) && HoldersInv(s) && HeldInv(s)
  }

  // Arithmetic of the ring

  function Slot(k: nat, max: nat): (r: nat)
    requires max > 0
    ensures r < max
  {
    k % max
  }

  /** Tickets less than max apart have different slots. */
  lemma SlotsDiffer(a: nat, b: nat, max: nat)
    requires max > 0 && a < b < a + max
    ensures Slot(a, max) != Slot(b, max)
  {
    var d := b / max - a / max;
    assert b - a == max * d + (b % max - a % max) by {
      assert max * d == max * (b / max) - max * (a / max);
    }
    MulBound(max, d);
  }

  /** Wrapping the ticket counter does not change the slot when max divides 2^64. */
  lemma WrapHarmless(k: nat, max: nat)
    requires max > 0 && NoWrap(max, k + 1)
    ensures (k % WRAP) % max == Slot(k, max)
  {
    if k < WRAP {
      return;
    }
    var c, q := WRAP / max, k / WRAP;
    assert WRAP == max * c;
    assert k == max * (c * q) + k % WRAP by {
      assert max * (c * q) == (max * c) * q;
    }
    AddMultiple(k % WRAP, max, c * q);
  }

  lemma WrapStep(k: nat)
    ensures (k % WRAP + 1) % WRAP == (k + 1) % WRAP
  {
  }

  lemma SlotStep(k: nat, max: nat)
    requires max > 0
    ensures Slot(k + 1, max) == if Slot(k, max) + 1 >= max then 0 else Slot(k, max) + 1
  {
    var r, q := k % max, k / max;
    if r + 1 < max {
      DivModUnique(k + 1, max, q, r + 1);
    } else {
      assert k + 1 == max * (q + 1) by {
        assert max * (q + 1) == max * q + max;
      }
      DivModUnique(k + 1, max, q + 1, 0);
    }
  }

  // Preservation

  predicate Counts(p: Producer, reserved: bool) {
    if reserved then p.Reserved? else p.BackOff?
  }

  /** Moving one producer changes each of the two counts by what that producer contributes. */
  lemma MoveCount(s: State, s': State, tid: nat, p: Producer, reserved: bool)
    requires s'.producers == s.producers[tid := p]
    ensures |InState(s', reserved)| == |InState(s, reserved)|
            - (if Counts(ProducerOf(s, tid), reserved) then 1 else 0) + (if Counts(p, reserved) then 1 else 0)
  {
    SwapMember(InState(s, reserved), InState(s', reserved), tid);
  }

  /** Two sets that differ at most in one element. */
  lemma SwapMember(a: set<nat>, b: set<nat>, x: nat)
    requires a - {x} == b - {x}
    ensures |b| == |a| - (if x in a then 1 else 0) + (if x in b then 1 else 0)
  {
    assert x in a ==> |a| == |a - {x}| + 1;
    assert x in b ==> |b| == |b - {x}| + 1;
    assert x !in a ==> a == a - {x};
    assert x !in b ==> b == b - {x};
  }

  lemma HeldStays(s: State, e: Event)
    requires Inv(s) && e.Produce?
    ensures HeldInv(Exec(s, e))
  {
    var s' := Exec(s, e);
    forall k | 0 <= k < |s'.tickets| && s'.tickets[k] == None
      ensures exists t :: t in s'.producers && HasTicket(s'.producers[t]) && s'.producers[t].k == k
    {
      if k == |s.tickets| {
        assert HasTicket(s'.producers[e.tid]);
      } else {
        var t :| t in s.producers && HasTicket(s.producers[t]) && s.producers[t].k == k;
        assert t in s'.producers && HasTicket(s'.producers[t]) && s'.producers[t].k == k;
      }
    }
  }

  lemma ProducerCounts(s: State, e: Event)
    requires Inv(s) && e.Produce?
    ensures CountInv(Exec(s, e)) && HeldInv(Exec(s, e))
  {
    HeldStays(s, e);
    var s' := Exec(s, e);
    var p := s'.producers[e.tid];
    MoveCount(s, s', e.tid, p, true);
    MoveCount(s, s', e.tid, p, false);
  }

  /** The slot of a held ticket is empty, and it is the slot the producer computes. */
  lemma HeldSlotEmpty(s: State, tid: nat)
    requires Inv(s) && tid in s.producers && HasTicket(s.producers[tid])
    ensures var p := s.producers[tid];
            && p.head % s.max == Slot(p.k, s.max) && s.buffer[Slot(p.k, s.max)] == None
            && s.taken <= p.k < s.taken + s.max
  {
    var p := s.producers[tid];
    WrapHarmless(p.k, s.max);
  }

  /** Storing at a held ticket changes that ticket's slot alone. */
  lemma StoreKeepsRing(s: State, tid: nat)
    requires Inv(s) && tid in s.producers && s.producers[tid].Checked?
    ensures RingInv(Exec(s, Produce(tid, 0)))
  {
    var p, s' := s.producers[tid], Exec(s, Produce(tid, 0));
    HeldSlotEmpty(s, tid);
    forall k: nat | s'.taken <= k < s'.taken + s'.max
      ensures s'.buffer[Slot(k, s'.max)] == if k < |s'.tickets| then s'.tickets[k] else None
    {
      assert s.buffer[Slot(k, s.max)] == if k < |s.tickets| then s.tickets[k] else None;
      if k < p.k { SlotsDiffer(k, p.k, s.max); } else if k > p.k { SlotsDiffer(p.k, k, s.max); }
    }
  }

  /** Reserving and backing off touch only `count`. */
  lemma ReserveKeeps(s: State, e: Event)
    requires Inv(s) && e.Produce? && (ProducerOf(s, e.tid).Idle? || ProducerOf(s, e.tid).BackOff?)
    ensures Inv(Exec(s, e))
  {
    ProducerCounts(s, e);
    assert HoldersInv(Exec(s, e));
  }

  lemma TakeTicketKeeps(s: State, e: Event)
    requires Inv(s) && e.Produce? && ProducerOf(s, e.tid).Reserved? && NoWrap(s.max, |s.tickets| + 1)
    ensures Inv(Exec(s, e))
  {
    ProducerCounts(s, e);
    TicketShape(s, e);
    var s' := Exec(s, e);
    assert RingInv(s');
    assert HoldersInv(s');
  }

  lemma TicketShape(s: State, e: Event)
    requires Inv(s) && e.Produce? && ProducerOf(s, e.tid).Reserved? && NoWrap(s.max, |s.tickets| + 1)
    ensures ShapeInv(Exec(s, e))
  {
    WrapStep(|s.tickets|);
  }

  lemma CheckSlotKeeps(s: State, e: Event)
    requires Inv(s) && e.Produce? && ProducerOf(s, e.tid).Ticket?
    ensures Inv(Exec(s, e))
  {
    ProducerCounts(s, e);
    HeldSlotEmpty(s, e.tid);
    assert HoldersInv(Exec(s, e));
  }

  lemma StoreKeeps(s: State, e: Event)
    requires Inv(s) && e.Produce? && ProducerOf(s, e.tid).Checked?
    ensures Inv(Exec(s, e))
  {
    ProducerCounts(s, e);
    HeldSlotEmpty(s, e.tid);
    StoreKeepsRing(s, e.tid);
    assert Exec(s, Produce(e.tid, 0)) == Exec(s, e);
    assert HoldersInv(Exec(s, e));
  }

  lemma ProducerKeeps(s: State, e: Event)
    requires Inv(s) && e.Produce? && NoWrap(s.max, |Exec(s, e).tickets|)
    ensures Inv(Exec(s, e))
  {
    match ProducerOf(s, e.tid) {
      case Idle => ReserveKeeps(s, e);
      case BackOff => ReserveKeeps(s, e);
      case Reserved(_) => TakeTicketKeeps(s, e);
      case Ticket(_, _, _) => CheckSlotKeeps(s, e);
      case Checked(_, _, _) => StoreKeeps(s, e);
    }
  }

  /** Emptying the oldest slot slides the mirrored window by one ticket. */
  lemma TakeKeepsRing(s: State)
    requires Inv(s) && s.consumer.Waiting? && s.buffer[s.tail].Some?
    ensures RingInv(Exec(s, Consume)) && s.taken < |s.tickets| && s.tickets[s.taken] == s.buffer[s.tail]
  {
    var s' := Exec(s, Consume);
    assert s.tail == Slot(s.taken, s.max);
    forall k: nat | s'.taken <= k < s'.taken + s'.max
      ensures s'.buffer[Slot(k, s'.max)] == if k < |s'.tickets| then s'.tickets[k] else None
    {
      if k == s.taken + s.max {
        AddMultiple(s.taken, s.max, 1);
      } else {
        assert s.buffer[Slot(k, s.max)] == if k < |s.tickets| then s.tickets[k] else None;
        SlotsDiffer(s.taken, k, s.max);
      }
    }
  }

  lemma ReleaseKeeps(s: State)
    requires Inv(s) && s.consumer.Took?
    ensures Inv(Exec(s, Consume))
  {
    var s' := Exec(s, Consume);
    assert InState(s', true) == InState(s, true) && InState(s', false) == InState(s, false);
    SlotStep(s.taken - 1, s.max);
    assert HeldInv(s');
  }

  lemma ConsumerKeeps(s: State)
    requires Inv(s)
    ensures Inv(Exec(s, Consume))
  {
    if s.consumer.Took? {
      ReleaseKeeps(s);
    } else if s.buffer[s.tail].Some? {
      var s' := Exec(s, Consume);
      assert InState(s', true) == InState(s, true) && InState(s', false) == InState(s, false);
      TakeKeepsRing(s);
      assert HeldInv(s');
    }
  }

  // Main results, over every schedule

  /** The state reached by a schedule. */
  function Run(max: nat, sched: seq<Event>): (s: State)
    requires max > 0
    ensures s.max == max && |s.buffer| == max && s.tail < max
  {
    if sched == [] then Init(max) else Exec(Run(max, sched[..|sched| - 1]), sched[|sched| - 1])
  }

  lemma {:induction false} InvHolds(max: nat, sched: seq<Event>)
    requires max > 0 && NoWrap(max, |Run(max, sched).tickets|)
    ensures Inv(Run(max, sched))
  {
    if sched == [] {
      assert InState(Init(max), true) == {} && InState(Init(max), false) == {};
    } else {
      var s, e := Run(max, sched[..|sched| - 1]), sched[|sched| - 1];
      TicketsGrow(s, e);
      InvHolds(max, sched[..|sched| - 1]);
      StepKeeps(s, e);
    }
  }

  lemma StepKeeps(s: State, e: Event)
    requires Inv(s) && NoWrap(s.max, |Exec(s, e).tickets|)
    ensures Inv(Exec(s, e))
  {
    if e.Produce? { ProducerKeeps(s, e); } else { ConsumerKeeps(s); }
  }

  lemma TicketsGrow(s: State, e: Event)
    requires s.max > 0 && |s.buffer| == s.max && s.tail < s.max
    ensures |s.tickets| <= |Exec(s, e).tickets|
  {
  }

  /** No assertion of the source ever fails, and at most max tickets are outstanding. */
  lemma {:induction false} AssertionsHold(max: nat, sched: seq<Event>)
    requires max > 0 && NoWrap(max, |Run(max, sched).tickets|)
    ensures var s := Run(max, sched);
            && !s.fault && s.taken <= |s.tickets| <= s.taken + max
            && (forall t :: t in s.producers && HasTicket(s.producers[t]) ==>
                  s.buffer[s.producers[t].head % max] == None)
  {
    InvHolds(max, sched);
    var s := Run(max, sched);
    forall t | t in s.producers && HasTicket(s.producers[t]) ensures s.buffer[s.producers[t].head % max] == None {
      HeldSlotEmpty(s, t);
    }
  }

  /** The consumer returns the stored objects in ticket order, each once and none skipped. */
  lemma {:induction false} InTicketOrder(max: nat, sched: seq<Event>)
    requires max > 0 && NoWrap(max, |Run(max, sched).tickets|)
    ensures var s := Run(max, sched);
            && |s.given| == s.taken <= |s.tickets|
            && (forall k :: 0 <= k < s.taken ==> s.tickets[k] == Some(s.given[k]))
            && (s.consumer.Took? ==> s.given != [] && s.given[|s.given| - 1] == s.consumer.obj)
  {
    InvHolds(max, sched);
  }

  // The count, which no wrap disturbs

  ghost function Holders(s: State): set<nat> {
    set t | t in s.producers && HasTicket(s.producers[t])
  }

  ghost function Occupied(buffer: seq<Option<Obj>>): set<nat> {
    set i: nat | i < |buffer| && buffer[i].Some?
  }

  /** Tickets are held, stored or taken; `count` covers reservations, back-offs and tickets not yet released. */
  ghost predicate Tally(s: State) {
    && s.count == |InState(s, true)| + |InState(s, false)| + |s.tickets| - Released(s)
    && s.taken + |Occupied(s.buffer)| + |Holders(s)| <= |s.tickets| && (s.consumer.Took? ==> s.taken > 0)
  }

  lemma MoveHolders(s: State, s': State, tid: nat, p: Producer)
    requires s'.producers == s.producers[tid := p]
    ensures |Holders(s')| == |Holders(s)|
            - (if HasTicket(ProducerOf(s, tid)) then 1 else 0) + (if HasTicket(p) then 1 else 0)
  {
    SwapMember(Holders(s), Holders(s'), tid);
  }

  lemma StoreOccupies(buffer: seq<Option<Obj>>, i: nat, o: Obj)
    requires i < |buffer|
    ensures |Occupied(buffer[i := Some(o)])| <= |Occupied(buffer)| + 1
  {
    assert Occupied(buffer[i := Some(o)]) == Occupied(buffer) + {i};
  }

  lemma ClearFrees(buffer: seq<Option<Obj>>, i: nat)
    requires i < |buffer| && buffer[i].Some?
    ensures |Occupied(buffer[i := None])| == |Occupied(buffer)| - 1
  {
    assert Occupied(buffer[i := None]) == Occupied(buffer) - {i} && i in Occupied(buffer);
  }

  lemma MemberCounts(s: State, tid: nat, reserved: bool)
    requires Counts(ProducerOf(s, tid), reserved)
    ensures |InState(s, reserved)| > 0
  {
    assert tid in InState(s, reserved);
  }

  lemma TallyProduces(s: State, e: Event)
    requires s.max > 0 && |s.buffer| == s.max && s.tail < s.max && Tally(s) && e.Produce?
    ensures Tally(Exec(s, e))
  {
    var s', q := Exec(s, e), ProducerOf(s, e.tid);
    var p := s'.producers[e.tid];
    MoveCount(s, s', e.tid, p, true);
    MoveCount(s, s', e.tid, p, false);
    MoveHolders(s, s', e.tid, p);
    if q.BackOff? { MemberCounts(s, e.tid, false); }
    if q.Checked? { StoreOccupies(s.buffer, q.head % s.max, q.obj); }
  }

  lemma TallyConsumes(s: State)
    requires s.max > 0 && |s.buffer| == s.max && s.tail < s.max && Tally(s)
    ensures Tally(Exec(s, Consume))
  {
    var s' := Exec(s, Consume);
    assert InState(s', true) == InState(s, true) && InState(s', false) == InState(s, false);
    assert Holders(s') == Holders(s);
    if s.consumer.Waiting? && s.buffer[s.tail].Some? { ClearFrees(s.buffer, s.tail); }
  }

  lemma {:induction false} TallyHolds(max: nat, sched: seq<Event>)
    requires max > 0
    ensures Tally(Run(max, sched))
  {
    if sched == [] {
      var s := Init(max);
      assert InState(s, true) == {} && InState(s, false) == {} && Holders(s) == {} && Occupied(s.buffer) == {};
    } else {
      var s, e := Run(max, sched[..|sched| - 1]), sched[|sched| - 1];
      TallyHolds(max, sched[..|sched| - 1]);
      if e.Produce? { TallyProduces(s, e); } else { TallyConsumes(s); }
    }
  }

  /** An enqueue backs off exactly when reservations, back-offs and unreleased tickets reach max. */
  lemma {:induction false} RejectsWhenFull(max: nat, sched: seq<Event>, e: Event)
    requires max > 0 && e.Produce? && ProducerOf(Run(max, sched), e.tid).Idle?
    ensures var s := Run(max, sched);
            Run(max, sched + [e]).producers[e.tid].BackOff? <==>
            |InState(s, true)| + |InState(s, false)| + |s.tickets| - Released(s) >= max
  {
    TallyHolds(max, sched);
    RunMore(max, sched, e);
  }

  lemma {:induction false} RunMore(max: nat, sched: seq<Event>, e: Event)
    requires max > 0
    ensures Run(max, sched + [e]) == Exec(Run(max, sched), e)
  {
    assert (sched + [e])[..|sched + [e]| - 1] == sched;
  }

  /** The consumer waits and no producer is between its ticket and its store. */
  ghost predicate AtRest(s: State) {
    s.consumer.Waiting? && forall t :: t in s.producers ==> !HasTicket(s.producers[t])
  }

  /** The next dequeue returns the oldest stored object, or null if everything stored was taken. */
  ghost predicate Drains(s: State)
    requires s.max > 0 && |s.buffer| == s.max && s.tail < s.max
  {
    var s' := Exec(s, Consume);
    && s.taken <= |s.tickets|
    && (if s.taken == |s.tickets| then s' == s
        else s.tickets[s.taken].Some? && s'.given == s.given + [s.tickets[s.taken].value])
  }

  /** Once the producers holding tickets have finished, nothing is stuck. */
  lemma {:induction false} NothingStuck(max: nat, sched: seq<Event>)
    requires max > 0 && NoWrap(max, |Run(max, sched).tickets|) && AtRest(Run(max, sched))
    ensures Drains(Run(max, sched))
  {
    InvHolds(max, sched);
    var s := Run(max, sched);
    assert s.tail == Slot(s.taken, max);
  }

  // What happens when the ticket counter wraps elsewhere

  /** n objects enqueued and dequeued one after the other. */
  ghost function Rounds(n: nat): seq<Event> {
    if n == 0 then [] else Enqueued(Rounds(n - 1), 1) + [Consume] + [Consume]
  }

  ghost function Enqueued(sched: seq<Event>, o: Obj): seq<Event> {
    sched + [Produce(0, o)] + [Produce(0, o)] + [Produce(0, o)] + [Produce(0, o)]
  }

  ghost predicate Quiet(s: State, n: nat) {
    && s.max > 0 && |s.buffer| == s.max && s.count == 0 && s.head == n % WRAP && s.tail == n % s.max
    && (forall i :: 0 <= i < s.max ==> s.buffer[i] == None)
    && s.producers.Keys <= {0} && ProducerOf(s, 0).Idle? && s.consumer.Waiting?
    && |s.tickets| == s.taken == |s.given| == n
  }

  /** The four steps of an undisturbed enqueue. */
  function Enqueue(s: State, o: Obj): State
    requires s.max > 0 && |s.buffer| == s.max && s.tail < s.max
  {
    var e := Produce(0, o);
    Exec(Exec(Exec(Exec(s, e), e), e), e)
  }

  lemma {:induction false} RunEnqueued(max: nat, sched: seq<Event>, o: Obj)
    requires max > 0
    ensures Run(max, Enqueued(sched, o)) == Enqueue(Run(max, sched), o)
  {
    var e := Produce(0, o);
    RunMore(max, sched, e);
    RunMore(max, sched + [e], e);
    RunMore(max, sched + [e] + [e], e);
    RunMore(max, sched + [e] + [e] + [e], e);
  }

  /** An enqueue stored its object in the slot head points to, whatever was there. */
  ghost predicate Stored(s: State, s': State, o: Obj)
    requires s.max > 0 && |s.buffer| == s.max
  {
    && s'.max == s.max && s'.count == s.count + 1 && s'.head == (s.head + 1) % WRAP && s'.tail == s.tail
    && s'.buffer == s.buffer[s.head % s.max := Some(o)] && s'.fault == (s.fault || s.buffer[s.head % s.max] != None)
    && s'.producers == s.producers[0 := Idle] && s'.consumer == s.consumer
    && s'.tickets == s.tickets + [Some(o)] && s'.taken == s.taken && s'.given == s.given
  }

  lemma EnqueueStores(s: State, o: Obj)
    requires s.max > 0 && |s.buffer| == s.max && s.tail < s.max && s.count < s.max && ProducerOf(s, 0).Idle?
    ensures Stored(s, Enqueue(s, o), o)
  {
  }

  lemma {:induction false} RunStores(max: nat, sched: seq<Event>, o: Obj)
    requires max > 0 && Run(max, sched).count < max && ProducerOf(Run(max, sched), 0).Idle?
    ensures Stored(Run(max, sched), Run(max, Enqueued(sched, o)), o)
  {
    EnqueueStores(Run(max, sched), o);
    RunEnqueued(max, sched, o);
  }

  /** An object waits where the consumer looks. */
  ghost predicate Loaded(s: State, n: nat) {
    && s.max > 0 && |s.buffer| == s.max && s.count == 1 && s.head == (n + 1) % WRAP && s.tail == n % s.max
    && s.buffer[s.tail].Some? && (forall i :: 0 <= i < s.max && i != s.tail ==> s.buffer[i] == None)
    && s.producers == map[0 := Idle] && s.consumer.Waiting? && |s.tickets| == s.taken + 1
    && s.taken == |s.given| == n
  }

  lemma StoredLoads(s: State, s': State, n: nat)
    requires Quiet(s, n) && n < WRAP && Stored(s, s', 1)
    ensures Loaded(s', n)
  {
    assert n % WRAP == n;
    WrapStep(n);
    var i := s.tail;
    assert s'.buffer == s.buffer[i := Some(1)];
  }

  lemma DequeueEmpties(s: State, n: nat)
    requires Loaded(s, n)
    ensures Quiet(Exec(Exec(s, Consume), Consume), n + 1)
  {
    SlotStep(n, s.max);
  }

  lemma {:induction false} AfterRounds(max: nat, n: nat)
    requires max > 0 && n <= WRAP
    ensures Quiet(Run(max, Rounds(n)), n)
  {
    if n > 0 {
      AfterRounds(max, n - 1);
      var sched := Enqueued(Rounds(n - 1), 1);
      RunStores(max, Rounds(n - 1), 1);
      StoredLoads(Run(max, Rounds(n - 1)), Run(max, sched), n - 1);
      DequeueEmpties(Run(max, sched), n - 1);
      RunMore(max, sched, Consume);
      RunMore(max, sched + [Consume], Consume);
    }
  }

  /** After 2^64 objects an object may be stored where the consumer does not look. */
  lemma {:induction false} WrapStrands(max: nat, n: nat)
    requires max > 0 && WRAP % max != 0 && n == WRAP
    ensures var s := Run(max, Enqueued(Rounds(n), 1)); AtRest(s) && !Drains(s)
  {
    AfterRounds(max, n);
    RunStores(max, Rounds(n), 1);
    StoredAside(Run(max, Rounds(n)), Run(max, Enqueued(Rounds(n), 1)), n);
  }

  lemma StoredAside(s: State, s': State, n: nat)
    requires Quiet(s, n) && n == WRAP && WRAP % s.max != 0 && Stored(s, s', 1)
    ensures AtRest(s') && |s'.buffer| == s'.max > s'.tail && !Drains(s')
  {
    assert n % WRAP == 0;
    SmallMod(0, s.max);
  }

  /** The ring never strands an object, however long it runs, exactly when its capacity divides 2^64. */
  lemma {:induction false} DrainsForever(max: nat)
    requires max > 0
    ensures (forall sched :: AtRest(Run(max, sched)) ==> Drains(Run(max, sched))) <==> WRAP % max == 0
  {
    if WRAP % max == 0 {
      forall sched | AtRest(Run(max, sched)) ensures Drains(Run(max, sched)) {
        NothingStuck(max, sched);
      }
    } else {
      WrapStrands(max, WRAP);
    }
  }

  // The assertions after a wrap

  /** k more objects enqueued one after the other. */
  ghost function EnqueuedTimes(sched: seq<Event>, o: Obj, k: nat): seq<Event> {
    if k == 0 then sched else Enqueued(EnqueuedTimes(sched, o, k - 1), o)
  }

  /** Ticket 2^64 - 1 is still in slot c - 1, and the j tickets after it went to the slots from 0 on. */
  ghost predicate Filling(s: State, c: nat, j: nat) {
    && 0 < c < s.max && c <= WRAP && |s.buffer| == s.max && s.tail < s.max && s.count == j + 1 && s.head == j < c
    && ProducerOf(s, 0).Idle? && s.buffer[c - 1].Some?
  }

  lemma FillingStarts(s: State, s': State, n: nat, c: nat)
    requires Quiet(s, n) && n + 1 == WRAP && c == WRAP % s.max != 0 && Stored(s, s', 1)
    ensures Filling(s', c, 0)
  {
    SlotStep(n, s.max);
    WrapStep(n);
    assert n % WRAP == n && n % s.max == c - 1;
  }

  lemma FillingStep(s: State, s': State, c: nat, j: nat)
    requires Filling(s, c, j) && Stored(s, s', 1)
    ensures if j + 1 < c then Filling(s', c, j + 1) else s'.fault
  {
    SmallMod(j, s.max);
  }

  lemma SmallMod(j: nat, m: nat)
    requires j < m
    ensures j % m == j
  {
  }

  lemma {:induction false} FillsUp(max: nat, sched: seq<Event>, c: nat, j: nat)
    requires max > 0 && Filling(Run(max, sched), c, 0) && j < c
    ensures Filling(Run(max, EnqueuedTimes(sched, 1, j)), c, j)
  {
    if j > 0 {
      var before := EnqueuedTimes(sched, 1, j - 1);
      FillsUp(max, sched, c, j - 1);
      RunStores(max, before, 1);
      FillingStep(Run(max, before), Run(max, Enqueued(before, 1)), c, j - 1);
    }
  }

  /** The ticket that comes back to slot c - 1 finds it occupied: an assertion fails. */
  lemma {:induction false} WrapFaults(max: nat, n: nat) returns (sched: seq<Event>)
    requires max > 0 && WRAP % max != 0 && n == WRAP - 1
    ensures Run(max, sched).fault
  {
    var c, before := WRAP % max, Enqueued(Rounds(n), 1);
    AfterRounds(max, n);
    RunStores(max, Rounds(n), 1);
    FillingStarts(Run(max, Rounds(n)), Run(max, before), n, c);
    FillsUp(max, before, c, c - 1);
    var last := EnqueuedTimes(before, 1, c - 1);
    sched := Enqueued(last, 1);
    RunStores(max, last, 1);
    FillingStep(Run(max, last), Run(max, sched), c, c - 1);
  }

  /** No assertion ever fails, however long the ring runs, exactly when its capacity divides 2^64. */
  lemma {:induction false} NeverFaults(max: nat)
    requires max > 0
    ensures (forall sched :: !Run(max, sched).fault) <==> WRAP % max == 0
  {
    if WRAP % max == 0 {
      forall sched ensures !Run(max, sched).fault {
        AssertionsHold(max, sched);
      }
    } else {
      var sched := WrapFaults(max, WRAP - 1);
    }
  }

  // The order after a wrap

  /** What the consumer got is what the tickets stored, in their order. */
  ghost predicate InOrder(s: State) {
    |s.given| <= |s.tickets| && forall k :: 0 <= k < |s.given| ==> s.tickets[k] == Some(s.given[k])
  }

  /** The consumer waits at slot c with n objects taken; ticket n is in slot 0 and j more behind it. */
  ghost predicate Skipped(s: State, n: nat, c: nat, j: nat) {
    && 0 < c < s.max < WRAP && |s.buffer| == s.max && s.tail == c && s.count == j + 1 && s.head == j + 1 <= c + 1
    && ProducerOf(s, 0).Idle? && s.consumer.Waiting? && |s.given| == n < |s.tickets| && s.tickets[n] == Some(1)
    && (j == c ==> s.buffer[c] == Some(2))
  }

  lemma SkippedStep(s: State, s': State, n: nat, c: nat, j: nat)
    requires Skipped(s, n, c, j) && j < c && Stored(s, s', 2)
    ensures Skipped(s', n, c, j + 1)
  {
    SmallMod(j + 1, s.max);
    SmallMod(j + 2, WRAP);
  }

  lemma {:induction false} Skips(max: nat, sched: seq<Event>, n: nat, c: nat, j: nat)
    requires max > 0 && Skipped(Run(max, sched), n, c, 0) && j <= c
    ensures Skipped(Run(max, EnqueuedTimes(sched, 2, j)), n, c, j)
  {
    if j > 0 {
      var before := EnqueuedTimes(sched, 2, j - 1);
      Skips(max, sched, n, c, j - 1);
      RunStores(max, before, 2);
      SkippedStep(Run(max, before), Run(max, Enqueued(before, 2)), n, c, j - 1);
    }
  }

  /** After 2^64 objects the consumer meets ticket 2^64 + c first. */
  lemma {:induction false} WrapReorders(max: nat, n: nat) returns (sched: seq<Event>)
    requires 0 < max < WRAP && WRAP % max != 0 && n == WRAP
    ensures !InOrder(Run(max, sched))
  {
    var c, before := WRAP % max, Enqueued(Rounds(n), 1);
    AfterRounds(max, n);
    RunStores(max, Rounds(n), 1);
    Skips(max, before, n, c, c);
    var all := EnqueuedTimes(before, 2, c);
    RunMore(max, all, Consume);
    sched := all + [Consume];
    var s := Run(max, sched);
    assert s.given[n] == 2 && s.tickets[n] == Some(1);
  }

  /** A ring with a size_t capacity hands objects out in ticket order for ever exactly when that divides 2^64. */
  lemma {:induction false} OrderedForever(max: nat)
    requires 0 < max < WRAP
    ensures (forall sched :: InOrder(Run(max, sched))) <==> WRAP % max == 0
  {
    if WRAP % max == 0 {
      forall sched ensures InOrder(Run(max, sched)) {
        InTicketOrder(max, sched);
      }
    } else {
      var sched := WrapReorders(max, WRAP);
    }
  }
}
