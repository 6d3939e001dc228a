/**
 * The multi-producer ring from the point of view of its callers: which call took a ticket and what it stored. A call
 * is known by its place in the schedule, the step at which its producer, idle before, started it. All of this holds
 * in runs of any length and for any capacity.
 */
module MpscCalls {
  import opened Wrappers
  import opened Common
  import opened MpscRing

  /** The call a producer is in, or was in last: its latest step at which it was idle. */
  ghost function Started(max: nat, sched: seq<Event>, tid: nat): (r: Option<nat>)
    requires max > 0
    ensures r.Some? ==> r.value < |sched|
  {
    if sched == [] then None
    else
      var n := |sched| - 1;
      if sched[n].Produce? && sched[n].tid == tid && ProducerOf(Run(max, sched[..n]), tid).Idle? then Some(n)
      else Started(max, sched[..n], tid)
  }

  ghost function CallOf(max: nat, sched: seq<Event>, e: Event): nat
    requires max > 0
  {
    if e.Consume? || Started(max, sched, e.tid) == None then 0 else Started(max, sched, e.tid).value
  }

  /** The calls that took tickets, by ticket. */
  ghost function Drawn(max: nat, sched: seq<Event>): seq<nat>
    requires max > 0
  {
    if sched == [] then []
    else
      var n := |sched| - 1;
      var before := sched[..n];
      Drawn(max, before)
      + if |Run(max, sched).tickets| > |Run(max, before).tickets| then [CallOf(max, before, sched[n])] else []
  }

  /** Where a producer stands, its call has come: it carries the object of the call, and stores it at its ticket. */
  ghost predicate InCall(max: nat, sched: seq<Event>, tid: nat)
    requires max > 0
  {
    var s, c, drawn := Run(max, sched), Started(max, sched, tid), Drawn(max, sched);
    var p := ProducerOf(s, tid);
    if c == None then p.Idle?
    else
      && sched[c.value].Produce? && sched[c.value].tid == tid
      && match p
         case Idle => true
         case BackOff => c.value !in drawn
         case Reserved(o) => o == sched[c.value].obj && c.value !in drawn
         case Ticket(o, _, k) => o == sched[c.value].obj && Holds(s, drawn, k, c.value)
         case Checked(o, _, k) => o == sched[c.value].obj && Holds(s, drawn, k, c.value)
  }

  ghost predicate Holds(s: State, drawn: seq<nat>, k: nat, c: nat) {
    k < |drawn| == |s.tickets| && drawn[k] == c && s.tickets[k] == None
  }

  /** Every ticket is drawn by a call of its own, and stores its object unless the call still holds the ticket. */
  ghost predicate Histories(max: nat, sched: seq<Event>)
    requires max > 0
  {
    var s, drawn := Run(max, sched), Drawn(max, sched);
    && |drawn| == |s.tickets| && Distinct(drawn)
    && forall k :: 0 <= k < |drawn| ==> StoredBy(s, sched, drawn[k], k)
  }

  ghost predicate StoredBy(s: State, sched: seq<Event>, c: nat, k: nat)
    requires k < |s.tickets|
  {
    && c < |sched| && sched[c].Produce?
    && if s.tickets[k] == None then var p := ProducerOf(s, sched[c].tid); HasTicket(p) && p.k == k
       else s.tickets[k] == Some(sched[c].obj)
  }

  // The last step of a schedule

  ghost predicate LastStep(max: nat, sched: seq<Event>, before: seq<Event>, e: Event, drawn: seq<nat>)
    requires max > 0
  {
    && sched == before + [e] && Run(max, sched) == Exec(Run(max, before), e)
    && Drawn(max, sched) == Drawn(max, before) + drawn
    && drawn == if |Run(max, sched).tickets| > |Run(max, before).tickets| then [CallOf(max, before, e)] else []
  }

  lemma {:induction false} StartStays(max: nat, sched: seq<Event>, before: seq<Event>, e: Event, tid: nat)
    requires max > 0 && sched == before + [e]
    ensures Started(max, sched, tid) ==
      if e.Produce? && e.tid == tid && ProducerOf(Run(max, before), tid).Idle? then Some(|before|)
      else Started(max, before, tid)
    ensures forall k :: 0 <= k < |before| ==> sched[k] == before[k]
  {
    assert sched[..|sched| - 1] == before;
  }

  lemma {:induction false} ConsumerMoves(max: nat, sched: seq<Event>, before: seq<Event>, drawn: seq<nat>, tid: nat)
    requires max > 0 && LastStep(max, sched, before, Consume, drawn)
    requires InCall(max, before, tid) && Histories(max, before)
    ensures InCall(max, sched, tid) && Histories(max, sched)
  {
    StartStays(max, sched, before, Consume, tid);
    assert Drawn(max, sched) == Drawn(max, before);
    assert forall k :: 0 <= k < |Drawn(max, before)| ==> StoredBy(Run(max, before), before, Drawn(max, before)[k], k);
  }

  lemma {:induction false} OthersInCall(max: nat, sched: seq<Event>, before: seq<Event>, e: Event, drawn: seq<nat>,
                                        tid: nat)
    requires max > 0 && LastStep(max, sched, before, e, drawn) && e.Produce? && tid != e.tid
    requires InCall(max, before, tid) && InCall(max, before, e.tid) && Histories(max, before)
    ensures InCall(max, sched, tid)
  {
    StartStays(max, sched, before, e, tid);
    var s, s', p := Run(max, before), Run(max, sched), ProducerOf(Run(max, before), tid);
    assert ProducerOf(s', tid) == p;
    var q := ProducerOf(s, e.tid);
    if q.Checked? && HasTicket(p) { assert Drawn(max, before)[q.k] != Drawn(max, before)[p.k]; }
  }

  lemma {:induction false} MoverInCall(max: nat, sched: seq<Event>, before: seq<Event>, e: Event, drawn: seq<nat>)
    requires max > 0 && LastStep(max, sched, before, e, drawn) && e.Produce?
    requires InCall(max, before, e.tid) && Histories(max, before)
    ensures InCall(max, sched, e.tid)
  {
    StartStays(max, sched, before, e, e.tid);
    assert ProducerOf(Run(max, sched), e.tid) == Run(max, sched).producers[e.tid];
  }

  lemma {:induction false} MoverStores(max: nat, sched: seq<Event>, before: seq<Event>, e: Event, drawn: seq<nat>)
    requires max > 0 && LastStep(max, sched, before, e, drawn) && e.Produce?
    requires InCall(max, before, e.tid) && Histories(max, before)
    ensures Histories(max, sched)
  {
    StartStays(max, sched, before, e, e.tid);
    var s, s', all := Run(max, before), Run(max, sched), Drawn(max, before);
    var p := ProducerOf(s, e.tid);
    forall k | 0 <= k < |Drawn(max, sched)| ensures StoredBy(s', sched, Drawn(max, sched)[k], k) {
      if k < |all| { assert StoredBy(s, before, all[k], k); }
    }
  }

  lemma {:induction false} CallsHold(max: nat, sched: seq<Event>, tid: nat)
    requires max > 0
    ensures Histories(max, sched) && InCall(max, sched, tid)
  {
    if sched != [] {
      var before, e := sched[..|sched| - 1], sched[|sched| - 1];
      var drawn := if |Run(max, sched).tickets| > |Run(max, before).tickets| then [CallOf(max, before, e)] else [];
      assert LastStep(max, sched, before, e, drawn);
      CallsHold(max, before, tid);
      if e.Consume? {
        ConsumerMoves(max, sched, before, drawn, tid);
      } else {
        CallsHold(max, before, e.tid);
        MoverStores(max, sched, before, e, drawn);
        if tid == e.tid { MoverInCall(max, sched, before, e, drawn); }
        else { OthersInCall(max, sched, before, e, drawn, tid); }
      }
    }
  }

  // Main results, over every run

  /** A ticket holds the object of the call that took it, once stored; each call takes at most one. */
  lemma {:induction false} TicketsHoldObjects(max: nat, sched: seq<Event>)
    requires max > 0
    ensures var s, drawn := Run(max, sched), Drawn(max, sched);
      && |drawn| == |s.tickets| && Distinct(drawn)
      && forall k :: 0 <= k < |drawn| ==>
           && drawn[k] < |sched| && sched[drawn[k]].Produce?
           && (s.tickets[k].Some? ==> s.tickets[k].value == sched[drawn[k]].obj)
  {
    CallsHold(max, sched, 0);
    var s, drawn := Run(max, sched), Drawn(max, sched);
    forall k | 0 <= k < |drawn|
      ensures drawn[k] < |sched| && sched[drawn[k]].Produce?
      ensures s.tickets[k].Some? ==> s.tickets[k].value == sched[drawn[k]].obj
    {
      assert StoredBy(s, sched, drawn[k], k);
    }
  }

  /**
   * An enqueue ends by backing off, without a ticket, or by storing its object at its ticket and in the slot the
   * ticket counter led it to.
   */
  lemma {:induction false} CallEnds(max: nat, sched: seq<Event>, e: Event)
    requires max > 0 && e.Produce?
    requires !ProducerOf(Run(max, sched), e.tid).Idle? && ProducerOf(Run(max, sched + [e]), e.tid).Idle?
    ensures var s', p := Run(max, sched + [e]), ProducerOf(Run(max, sched), e.tid);
      var c, drawn := Started(max, sched, e.tid), Drawn(max, sched);
      && c.Some? && sched[c.value].Produce? && sched[c.value].tid == e.tid
      && if p.BackOff? then c.value !in drawn
         else && p.Checked? && p.k < |drawn| && drawn[p.k] == c.value && p.k < |s'.tickets|
              && s'.tickets[p.k] == Some(sched[c.value].obj) && s'.buffer[p.head % max] == Some(sched[c.value].obj)
  {
    CallsHold(max, sched, e.tid);
    RunMore(max, sched, e);
  }

  /** The consumer gets the objects of the calls in the order in which they took their tickets. */
  lemma {:induction false} GivenByCalls(max: nat, sched: seq<Event>)
    requires max > 0 && NoWrap(max, |Run(max, sched).tickets|)
    ensures var s, drawn := Run(max, sched), Drawn(max, sched);
      |s.given| <= |drawn| && forall k :: 0 <= k < |s.given| ==>
        drawn[k] < |sched| && sched[drawn[k]].Produce? && s.given[k] == sched[drawn[k]].obj
  {
    TicketsHoldObjects(max, sched);
    InTicketOrder(max, sched);
  }
}
