/**
 * The lock-free FIFO from the point of view of its callers: which call put a value in, which call took it out, and
 * what every call returns. A call is known by its place in the schedule, the step at which its thread, idle before,
 * started it.
 */
module LockFreeCalls {
  import opened Wrappers
  import opened Common
  import opened LockFreeQueue

  /** The call a thread is in, or was in last: its latest step at which it was idle. */
  ghost function Started(sched: seq<Event>, tid: nat): (r: Option<nat>)
    ensures r.Some? ==> r.value < |sched|
  {
    if sched == [] then None
    else
      var n := |sched| - 1;
      if sched[n].tid == tid && LocalOf(Run(sched[..n]), tid).Idle? then Some(n) else Started(sched[..n], tid)
  }

  lemma {:induction false} StartedIsLatest(sched: seq<Event>, tid: nat, k: nat)
    requires k < |sched|
    ensures Started(sched, tid) == Some(k) <==>
      && sched[k].tid == tid && LocalOf(Run(sched[..k]), tid).Idle?
      && forall m :: k < m < |sched| && sched[m].tid == tid ==> !LocalOf(Run(sched[..m]), tid).Idle?
  {
    var n := |sched| - 1;
    if k < n {
      StartedIsLatest(sched[..n], tid, k);
      assert sched[..n][..k] == sched[..k];
      assert forall m :: k < m < n ==> sched[..n][..m] == sched[..m] && sched[..n][m] == sched[m];
    }
  }

  ghost function CallOf(sched: seq<Event>, tid: nat): nat {
    if Started(sched, tid) == None then 0 else Started(sched, tid).value
  }

  /** The calls whose nodes were linked, in the order of the links. */
  ghost function Linked(sched: seq<Event>): seq<nat> {
    if sched == [] then []
    else
      var n := |sched| - 1;
      var before := sched[..n];
      Linked(before) + if |Run(sched).enq| > |Run(before).enq| then [CallOf(before, sched[n].tid)] else []
  }

  /** The calls that moved the head, in the order of the moves. */
  ghost function Removed(sched: seq<Event>): seq<nat> {
    if sched == [] then []
    else
      var n := |sched| - 1;
      var before := sched[..n];
      Removed(before) + if |Run(sched).deq| > |Run(before).deq| then [CallOf(before, sched[n].tid)] else []
  }

  // One step of the mover

  predicate Enqueuing(l: Local) {
    l.EnqReadTail? || l.EnqCasNext?
  }

  predicate Searching(l: Local) {
    l.DeqReadHead? || l.DeqReadTail? || l.DeqReadNext? || l.DeqCheckHead? || l.DeqHelpTail? || l.DeqCasHead?
  }

  predicate Returning(l: Local) {
    l.DeqReadValue? || l.FreeRead? || l.FreeCas? || l.FreeSwing? || l.DeqValue?
  }

  function NodeOf(l: Local): nat
    requires Enqueuing(l)
  {
    l.node
  }

  function RankOf(l: Local): nat
    requires Returning(l)
  {
    l.hr
  }

  ghost predicate Still(s: State, s': State) {
    s'.enq == s.enq && s'.deq == s.deq
  }

  ghost predicate StartStep(s: State, s': State, call: Call, l': Local) {
    Still(s, s') &&
    match call
    case Enqueue(v) => Enqueuing(l') && NodeOf(l') < |s'.nodes| && s'.nodes[NodeOf(l')].value == v
    case Dequeue => Searching(l')
  }

  lemma Starts(s: State, e: Event)
    requires LocalOf(s, e.tid).Idle?
    ensures StartStep(s, Exec(s, e), e.call, LocalOf(Exec(s, e), e.tid))
  {
  }

  /** The node is linked, with its value, or still to be linked. */
  ghost predicate EnqueueStep(s: State, s': State, l: Local, l': Local) {
    && Enqueuing(l) && NodeOf(l) < |s.nodes| && s'.deq == s.deq
    && if l'.EnqCasTail? then s'.enq == s.enq + [s.nodes[NodeOf(l)].value]
       else && Enqueuing(l') && NodeOf(l') == NodeOf(l) && s'.enq == s.enq
            && NodeOf(l) < |s'.nodes| && s'.nodes[NodeOf(l)].value == s.nodes[NodeOf(l)].value
  }

  lemma Enqueues(s: State, e: Event)
    requires Inv(s) && Enqueuing(LocalOf(s, e.tid))
    ensures EnqueueStep(s, Exec(s, e), LocalOf(s, e.tid), LocalOf(Exec(s, e), e.tid))
  {
    assert LocalInv(s, LocalOf(s, e.tid));
  }

  /** The head is moved, or still to be moved. */
  ghost predicate SearchStep(s: State, s': State, l: Local, l': Local) {
    && Searching(l) && s'.enq == s.enq
    && if l'.DeqReadValue? then |s'.deq| == |s.deq| + 1 && RankOf(l') == |s.deq|
       else (Searching(l') || l'.DeqNull?) && s'.deq == s.deq
  }

  lemma Searches(s: State, e: Event)
    requires Inv(s) && Searching(LocalOf(s, e.tid))
    ensures SearchStep(s, Exec(s, e), LocalOf(s, e.tid), LocalOf(Exec(s, e), e.tid))
  {
    var l := LocalOf(s, e.tid);
    assert LocalInv(s, l);
    if l.DeqCasHead? { DequeueLinearizes(s, e); }
  }

  /** The call is over or goes on its way to its end. */
  ghost predicate ReturnStep(s: State, s': State, l: Local, l': Local) {
    && Still(s, s')
    && if l.DeqValue? || l.DeqNull? || l.EnqCasTail? then l'.Idle?
       else Returning(l) && Returning(l') && RankOf(l') == RankOf(l)
  }

  lemma Returns(s: State, e: Event)
    requires Inv(s)
    requires var l := LocalOf(s, e.tid); Returning(l) || l.EnqCasTail? || l.DeqNull?
    ensures ReturnStep(s, Exec(s, e), LocalOf(s, e.tid), LocalOf(Exec(s, e), e.tid))
  {
    assert LocalInv(s, LocalOf(s, e.tid));
  }

  lemma ValuesStay(s: State, e: Event, x: nat)
    requires x < |s.nodes|
    ensures x < |Exec(s, e).nodes| && Exec(s, e).nodes[x].value == s.nodes[x].value
  {
  }

  // Every thread is where its call put it

  /** Where thread tid stands, its call has come: an enqueue holds its own value until it has linked it once. */
  ghost predicate InCall(sched: seq<Event>, tid: nat) {
    var s, l, c := Run(sched), LocalOf(Run(sched), tid), Started(sched, tid);
    if c == None then l.Idle?
    else
      sched[c.value].tid == tid &&
      match sched[c.value].call
      case Enqueue(v) =>
        if Enqueuing(l) then NodeOf(l) < |s.nodes| && s.nodes[NodeOf(l)].value == v && c.value !in Linked(sched)
        else (l.EnqCasTail? || l.Idle?) && c.value in Linked(sched)
      case Dequeue =>
        if Returning(l) then RankOf(l) < |Removed(sched)| && Removed(sched)[RankOf(l)] == c.value
        else (Searching(l) || l.DeqNull? ==> c.value !in Removed(sched)) && (Searching(l) || l.DeqNull? || l.Idle?)
  }

  /** The calls linked and removed so far are distinct, and their values are those of the histories. */
  ghost predicate Histories(sched: seq<Event>) {
    var s, linked, removed := Run(sched), Linked(sched), Removed(sched);
    && |linked| == |s.enq| && |removed| == |s.deq| && Distinct(linked) && Distinct(removed)
    && (forall i :: 0 <= i < |linked| ==> linked[i] < |sched| && sched[linked[i]].call == Enqueue(s.enq[i]))
    && (forall i :: 0 <= i < |removed| ==> removed[i] < |sched| && sched[removed[i]].call == Dequeue)
  }

  /** The last step of a schedule: `linked` or `removed` is the mover's call if the step is a link or moves the head. */
  ghost predicate LastStep(sched: seq<Event>, before: seq<Event>, e: Event, linked: seq<nat>, removed: seq<nat>) {
    && sched == before + [e]
    && Linked(sched) == Linked(before) + linked && Removed(sched) == Removed(before) + removed
    && linked == (if |Run(sched).enq| > |Run(before).enq| then [CallOf(before, e.tid)] else [])
    && removed == (if |Run(sched).deq| > |Run(before).deq| then [CallOf(before, e.tid)] else [])
  }

  lemma {:induction false} Splits(sched: seq<Event>) returns (before: seq<Event>, e: Event, linked: seq<nat>,
                                                              removed: seq<nat>)
    requires sched != []
    ensures before == sched[..|sched| - 1] && e == sched[|sched| - 1] && LastStep(sched, before, e, linked, removed)
    ensures Run(sched) == Exec(Run(before), e)
  {
    before, e := sched[..|sched| - 1], sched[|sched| - 1];
    linked := if |Run(sched).enq| > |Run(before).enq| then [CallOf(before, e.tid)] else [];
    removed := if |Run(sched).deq| > |Run(before).deq| then [CallOf(before, e.tid)] else [];
  }

  lemma {:induction false} StartStays(sched: seq<Event>, before: seq<Event>, e: Event, tid: nat)
    requires sched == before + [e]
    ensures Started(sched, tid) ==
      if e.tid == tid && LocalOf(Run(before), tid).Idle? then Some(|before|) else Started(before, tid)
    ensures forall k :: 0 <= k < |before| ==> sched[k] == before[k]
  {
    assert sched[..|sched| - 1] == before;
  }

  lemma {:induction false} OthersInCall(sched: seq<Event>, before: seq<Event>, e: Event, linked: seq<nat>,
                                        removed: seq<nat>, tid: nat)
    requires LastStep(sched, before, e, linked, removed) && tid != e.tid && Run(sched) == Exec(Run(before), e)
    requires InCall(before, tid) && InCall(before, e.tid)
    ensures InCall(sched, tid)
  {
    StartStays(sched, before, e, tid);
    OnlyInCall(sched, before, e, linked, removed);
    var s, l := Run(before), LocalOf(Run(before), tid);
    assert LocalOf(Run(sched), tid) == l;
    if Enqueuing(l) && Started(before, tid).Some? {
      if sched[Started(before, tid).value].call.Enqueue? { ValuesStay(s, e, NodeOf(l)); }
    }
  }

  /** Only a thread in a call of its own links or moves the head. */
  lemma {:induction false} OnlyInCall(sched: seq<Event>, before: seq<Event>, e: Event, linked: seq<nat>,
                                      removed: seq<nat>)
    requires LastStep(sched, before, e, linked, removed) && InCall(before, e.tid) && Run(sched) == Exec(Run(before), e)
    ensures linked + removed != [] ==>
      Started(before, e.tid).Some? && before[Started(before, e.tid).value].tid == e.tid
  {
    if LocalOf(Run(before), e.tid).Idle? { Starts(Run(before), e); }
  }

  lemma {:induction false} MoverStarts(sched: seq<Event>, before: seq<Event>, e: Event, linked: seq<nat>,
                                       removed: seq<nat>)
    requires LastStep(sched, before, e, linked, removed) && InCall(before, e.tid) && Histories(before)
    requires LocalOf(Run(before), e.tid).Idle?
    requires StartStep(Run(before), Run(sched), e.call, LocalOf(Run(sched), e.tid))
    ensures InCall(sched, e.tid) && Histories(sched)
  {
    StartStays(sched, before, e, e.tid);
  }

  lemma {:induction false} MoverEnqueues(sched: seq<Event>, before: seq<Event>, e: Event, linked: seq<nat>,
                                         removed: seq<nat>)
    requires LastStep(sched, before, e, linked, removed) && InCall(before, e.tid) && Histories(before)
    requires EnqueueStep(Run(before), Run(sched), LocalOf(Run(before), e.tid), LocalOf(Run(sched), e.tid))
    ensures InCall(sched, e.tid) && Histories(sched)
  {
    StartStays(sched, before, e, e.tid);
  }

  lemma {:induction false} MoverSearches(sched: seq<Event>, before: seq<Event>, e: Event, linked: seq<nat>,
                                         removed: seq<nat>)
    requires LastStep(sched, before, e, linked, removed) && InCall(before, e.tid) && Histories(before)
    requires SearchStep(Run(before), Run(sched), LocalOf(Run(before), e.tid), LocalOf(Run(sched), e.tid))
    ensures InCall(sched, e.tid) && Histories(sched)
  {
    StartStays(sched, before, e, e.tid);
  }

  lemma {:induction false} MoverReturns(sched: seq<Event>, before: seq<Event>, e: Event, linked: seq<nat>,
                                        removed: seq<nat>)
    requires LastStep(sched, before, e, linked, removed) && InCall(before, e.tid) && Histories(before)
    requires ReturnStep(Run(before), Run(sched), LocalOf(Run(before), e.tid), LocalOf(Run(sched), e.tid))
    ensures InCall(sched, e.tid) && Histories(sched)
  {
    StartStays(sched, before, e, e.tid);
  }

  lemma {:induction false} MoverInCall(sched: seq<Event>, before: seq<Event>, e: Event, linked: seq<nat>,
                                       removed: seq<nat>)
    requires LastStep(sched, before, e, linked, removed) && InCall(before, e.tid) && Histories(before)
    requires Run(sched) == Exec(Run(before), e)
    ensures InCall(sched, e.tid) && Histories(sched)
  {
    InvHolds(before);
    var l := LocalOf(Run(before), e.tid);
    if l.Idle? {
      Starts(Run(before), e);
      MoverStarts(sched, before, e, linked, removed);
    } else if Enqueuing(l) {
      Enqueues(Run(before), e);
      MoverEnqueues(sched, before, e, linked, removed);
    } else if Searching(l) {
      Searches(Run(before), e);
      MoverSearches(sched, before, e, linked, removed);
    } else {
      Returns(Run(before), e);
      MoverReturns(sched, before, e, linked, removed);
    }
  }

  /** At every moment of every schedule. */
  lemma {:induction false} CallsHold(sched: seq<Event>, tid: nat)
    ensures Histories(sched) && InCall(sched, tid)
  {
    if sched != [] {
      var before, e, linked, removed := Splits(sched);
      CallsHold(before, e.tid);
      CallsHold(before, tid);
      MoverInCall(sched, before, e, linked, removed);
      if tid != e.tid { OthersInCall(sched, before, e, linked, removed, tid); }
    }
  }

  // Main results

  ghost predicate ByCalls(sched: seq<Event>, calls: seq<nat>, values: seq<Value>) {
    && |calls| == |values| && Distinct(calls)
    && forall i :: 0 <= i < |calls| ==> calls[i] < |sched| && sched[calls[i]].call == Enqueue(values[i])
  }

  /**
   * First in, first out: the values taken out and those still there are the values of the enqueue calls that have
   * linked their nodes, in the order of the links, each call once; as many dequeue calls have taken the first of them.
   */
  lemma {:induction false} Fifo(sched: seq<Event>)
    ensures ByCalls(sched, Linked(sched), Run(sched).deq + Queue(Run(sched)))
    ensures |Removed(sched)| == |Run(sched).deq| && Distinct(Removed(sched))
    ensures forall i :: 0 <= i < |Removed(sched)| ==>
      Removed(sched)[i] < |sched| && sched[Removed(sched)[i]].call == Dequeue
  {
    CallsHold(sched, 0);
    DequeuedArePrefix(sched);
  }

  /**
   * Linearization: the queue changes only when a thread in an enqueue that has not linked yet links its node, which
   * appends the value of that call, and when a thread in a dequeue moves the head, which takes out the front value.
   */
  lemma {:induction false} Linearizes(sched: seq<Event>, e: Event)
    ensures LinearStep(sched, sched + [e], e)
  {
    var after := sched + [e];
    assert after[..|after| - 1] == sched;
    var before, e', linked, removed := Splits(after);
    CallsHold(sched, e.tid);
    QueueChanges(sched, e);
    ChangesByCalls(after, sched, e, linked, removed);
  }

  ghost predicate LinearStep(sched: seq<Event>, after: seq<Event>, e: Event) {
    var s, s', c := Run(sched), Run(after), Started(sched, e.tid);
    if Linked(after) != Linked(sched) then
      && c.Some? && c.value < |sched| && sched[c.value].tid == e.tid && sched[c.value].call.Enqueue?
      && c.value !in Linked(sched) && Linked(after) == Linked(sched) + [c.value]
      && Queue(s') == Queue(s) + [sched[c.value].call.value] && Removed(after) == Removed(sched)
    else if Removed(after) != Removed(sched) then
      && c.Some? && c.value < |sched| && sched[c.value].tid == e.tid && sched[c.value].call.Dequeue?
      && c.value !in Removed(sched) && Removed(after) == Removed(sched) + [c.value]
      && Queue(s) != [] && Queue(s') == Queue(s)[1..] && s'.deq == s.deq + [Queue(s)[0]]
    else Queue(s') == Queue(s)
  }

  lemma {:induction false} ChangesByCalls(after: seq<Event>, sched: seq<Event>, e: Event, linked: seq<nat>,
                                          removed: seq<nat>)
    requires LastStep(after, sched, e, linked, removed) && InCall(sched, e.tid)
    requires QueueStep(Run(sched), Run(after), LocalOf(Run(sched), e.tid), LocalOf(Run(after), e.tid))
    ensures LinearStep(sched, after, e)
  {
    Longer(Linked(sched), linked);
    Longer(Removed(sched), removed);
  }

  lemma Longer(a: seq<nat>, b: seq<nat>)
    ensures a + b == a <==> b == []
  {
    if b != [] { assert |a + b| > |a|; } else { assert a + b == a; }
  }

  /**
   * A call ends only after it has done its work: an enqueue has linked its value, once, a dequeue returns the value
   * its own move of the head took out, or null without having taken out anything.
   */
  lemma {:induction false} CallEnds(sched: seq<Event>, e: Event)
    requires !LocalOf(Run(sched), e.tid).Idle? && LocalOf(Run(sched + [e]), e.tid).Idle?
    ensures var l, c := LocalOf(Run(sched), e.tid), Started(sched, e.tid);
      && c.Some? && sched[c.value].tid == e.tid
      && (sched[c.value].call.Enqueue? ==> c.value in Linked(sched))
      && (sched[c.value].call.Dequeue? ==>
            if l.DeqNull? then c.value !in Removed(sched)
            else && l.DeqValue? && l.hr < |Run(sched).deq| && l.value == Run(sched).deq[l.hr]
                 && l.hr < |Removed(sched)| && Removed(sched)[l.hr] == c.value)
  {
    assert (sched + [e])[..|sched + [e]| - 1] == sched;
    CallsHold(sched, e.tid);
    InvHolds(sched);
    var s, l := Run(sched), LocalOf(Run(sched), e.tid);
    if Enqueuing(l) {
      Enqueues(s, e);
    } else if Searching(l) {
      Searches(s, e);
    } else if Returning(l) {
      Returns(s, e);
      if l.DeqValue? { ReturnsRemoved(sched, e.tid); }
    }
  }

  // Helping

  /** Whoever swings the tail or the end of the free chain leaves it behind the node it saw, by itself or by another. */
  lemma {:induction false} SwingsMove(sched: seq<Event>, e: Event)
    ensures var s', l := Run(sched + [e]), LocalOf(Run(sched), e.tid);
      && (l.EnqCasTail? || l.DeqHelpTail? ==> l.rank < s'.t) && (l.FreeSwing? ==> l.fr < s'.f)
  {
    assert (sched + [e])[..|sched + [e]| - 1] == sched;
    InvHolds(sched);
    var s, l := Run(sched), LocalOf(Run(sched), e.tid);
    if l.EnqCasTail? || l.DeqHelpTail? {
      TailSwings(s, e);
    } else if l.FreeSwing? {
      FreeSwings(s, e);
    }
  }

  lemma TailSwings(s: State, e: Event)
    requires Inv(s)
    requires var l := LocalOf(s, e.tid); l.EnqCasTail? || l.DeqHelpTail?
    ensures LocalOf(s, e.tid).rank < Exec(s, e).t
  {
    var l := LocalOf(s, e.tid);
    assert LocalInv(s, l);
    assert l.rank == s.t ==> s.tail == l.tail;
  }

  lemma FreeSwings(s: State, e: Event)
    requires Inv(s) && LocalOf(s, e.tid).FreeSwing?
    ensures LocalOf(s, e.tid).fr < Exec(s, e).f
  {
    var l := LocalOf(s, e.tid);
    assert LocalInv(s, l);
    assert l.fr == s.f ==> s.moveFree == l.freed;
  }

  /** The tail is behind only while the thread that linked the last node is about to swing it. */
  ghost predicate TailHeld(s: State) {
    s.t + 1 < |s.chain| ==> exists i :: i in s.threads && s.threads[i].EnqCasTail? && s.threads[i].rank == s.t
  }

  /** So is the end of the free chain. */
  ghost predicate FreeHeld(s: State) {
    s.f + 1 < |s.frees| ==> exists i :: i in s.threads && s.threads[i].FreeSwing? && s.threads[i].fr == s.f
  }

  lemma {:induction false} LagsAreHeld(sched: seq<Event>)
    ensures TailHeld(Run(sched)) && FreeHeld(Run(sched))
  {
    if sched != [] {
      var before, e := sched[..|sched| - 1], sched[|sched| - 1];
      LagsAreHeld(before);
      InvHolds(before);
      TailStaysHeld(Run(before), e);
      FreeStaysHeld(Run(before), e);
    }
  }

  /** What a step of the thread at l does to the tail. */
  ghost predicate TailStep(s: State, s': State, l: Local, l': Local) {
    && s.t <= s'.t && |s.chain| <= s.t + 2 && (l.EnqCasTail? ==> l.rank < s'.t)
    && (|s'.chain| != |s.chain| ==> s.t + 1 == |s.chain| && l'.EnqCasTail? && l'.rank == s'.t)
  }

  lemma TailMoves(s: State, e: Event)
    requires Inv(s)
    ensures TailStep(s, Exec(s, e), LocalOf(s, e.tid), LocalOf(Exec(s, e), e.tid))
  {
    var l := LocalOf(s, e.tid);
    if l.EnqCasNext? {
      TailLeft(s, e);
    } else if l.EnqCasTail? {
      TailSwings(s, e);
    }
  }

  lemma TailLeft(s: State, e: Event)
    requires Inv(s) && LocalOf(s, e.tid).EnqCasNext?
    ensures TailStep(s, Exec(s, e), LocalOf(s, e.tid), LocalOf(Exec(s, e), e.tid))
  {
    var l := LocalOf(s, e.tid);
    assert LocalInv(s, l);
    assert s.nodes[s.chain[l.rank]] == s.nodes[l.tail];
  }

  lemma {:induction false} TailStaysHeld(s: State, e: Event)
    requires Inv(s) && TailHeld(s)
    ensures TailHeld(Exec(s, e))
  {
    TailMoves(s, e);
    TailHeldAfter(s, Exec(s, e), e.tid, LocalOf(s, e.tid), LocalOf(Exec(s, e), e.tid));
  }

  lemma {:induction false} TailHeldAfter(s: State, s': State, tid: nat, l: Local, l': Local)
    requires TailHeld(s) && TailStep(s, s', l, l') && l == LocalOf(s, tid) && s'.threads == s.threads[tid := l']
    ensures TailHeld(s')
  {
    if s'.t + 1 < |s'.chain| {
      if |s'.chain| != |s.chain| {
        assert tid in s'.threads && s'.threads[tid].EnqCasTail?;
      } else {
        var i :| i in s.threads && s.threads[i].EnqCasTail? && s.threads[i].rank == s.t;
        assert i in s'.threads && s'.threads[i] == s.threads[i];
      }
    }
  }

  ghost predicate FreeStep(s: State, s': State, l: Local, l': Local) {
    && s.f <= s'.f && |s.frees| <= s.f + 2 && (l.FreeSwing? ==> l.fr < s'.f)
    && (|s'.frees| != |s.frees| ==> s.f + 1 == |s.frees| && l'.FreeSwing? && l'.fr == s'.f)
  }

  lemma FreeMoves(s: State, e: Event)
    requires Inv(s)
    ensures FreeStep(s, Exec(s, e), LocalOf(s, e.tid), LocalOf(Exec(s, e), e.tid))
  {
    var l := LocalOf(s, e.tid);
    if l.FreeCas? {
      FreeLeft(s, e);
    } else if l.FreeSwing? {
      FreeSwings(s, e);
    }
  }

  lemma FreeLeft(s: State, e: Event)
    requires Inv(s) && LocalOf(s, e.tid).FreeCas?
    ensures FreeStep(s, Exec(s, e), LocalOf(s, e.tid), LocalOf(Exec(s, e), e.tid))
  {
    var l := LocalOf(s, e.tid);
    assert LocalInv(s, l);
    assert s.nodes[s.frees[l.fr]] == s.nodes[l.freed];
  }

  lemma {:induction false} FreeStaysHeld(s: State, e: Event)
    requires Inv(s) && FreeHeld(s)
    ensures FreeHeld(Exec(s, e))
  {
    FreeMoves(s, e);
    FreeHeldAfter(s, Exec(s, e), e.tid, LocalOf(s, e.tid), LocalOf(Exec(s, e), e.tid));
  }

  lemma {:induction false} FreeHeldAfter(s: State, s': State, tid: nat, l: Local, l': Local)
    requires FreeHeld(s) && FreeStep(s, s', l, l') && l == LocalOf(s, tid) && s'.threads == s.threads[tid := l']
    ensures FreeHeld(s')
  {
    if s'.f + 1 < |s'.frees| {
      if |s'.frees| != |s.frees| {
        assert tid in s'.threads && s'.threads[tid].FreeSwing?;
      } else {
        var i :| i in s.threads && s.threads[i].FreeSwing? && s.threads[i].fr == s.f;
        assert i in s'.threads && s'.threads[i] == s.threads[i];
      }
    }
  }
}
