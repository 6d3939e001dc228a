/** The hierarchical state machine of src/ld_statemachine.c. */
module StateMachine {
  import opened Wrappers

  datatype Event = Event(kind: int, data: int)

  /** A transition; `guard` names a condition, `hasAction` says whether there is an action to run. */
  datatype Transition = Transition(kind: int, guard: Option<nat>, next: Option<nat>, hasAction: bool)

  datatype StateDef = StateDef(
    parent: Option<nat>, entry: Option<nat>, transitions: seq<Transition>, hasEntry: bool, hasExit: bool)

  /**
   * The state graph with the callbacks: `holds` evaluates guards and `fails` is a non-zero result
   * of an entry action. The two rank lists certify that parent and entry chains end.
   */
  datatype Machine = Machine(
    states: seq<StateDef>, error: Option<nat>,
    holds: (nat, Event) -> bool, fails: (nat, Event) -> bool,
    parentRank: seq<nat>, entryRank: seq<nat>)
  {
    ghost predicate Valid() {
      && |parentRank| == |states| == |entryRank|
      && (error.Some? ==> error.value < |states|)
      && forall i :: 0 <= i < |states| ==>
           && (states[i].parent.Some? ==>
                 states[i].parent.value < |states| && parentRank[states[i].parent.value] < parentRank[i])
           && (states[i].entry.Some? ==>
                 states[i].entry.value < |states| && entryRank[states[i].entry.value] < entryRank[i])
           && (forall t :: 0 <= t < |states[i].transitions| && states[i].transitions[t].next.Some? ==>
                 states[i].transitions[t].next.value < |states|)
    }
  }

  datatype Action = Exit(state: nat) | Run(from: nat, index: nat, to: nat) | Enter(state: nat)

  datatype Outcome = InvalidState | NoChange | Loop | Final | Ok

  predicate Enabled(m: Machine, t: Transition, e: Event) {
    t.kind == e.kind && (t.guard == None || m.holds(t.guard.value, e))
  }

  /** The first enabled transition of a state. */
  ghost predicate IsFirstEnabled(m: Machine, s: nat, e: Event, i: nat)
    requires s < |m.states|
  {
    var ts := m.states[s].transitions;
    && i < |ts| && Enabled(m, ts[i], e)
    && forall k :: 0 <= k < i ==> !Enabled(m, ts[k], e)
  }

  ghost predicate NoneEnabled(m: Machine, s: nat, e: Event)
    requires s < |m.states|
  {
    forall k :: 0 <= k < |m.states[s].transitions| ==> !Enabled(m, m.states[s].transitions[k], e)
  }

  /** getTransition: a search from the front. */
  method GetTransition(m: Machine, s: nat, e: Event) returns (r: Option<nat>)
    requires s < |m.states|
    ensures r.Some? ==> IsFirstEnabled(m, s, e, r.value)
    ensures r == None ==> NoneEnabled(m, s, e)
  {
    var ts := m.states[s].transitions;
    for i := 0 to |ts|
      invariant forall k :: 0 <= k < i ==> !Enabled(m, ts[k], e)
    {
      if ts[i].kind == e.kind {
        if ts[i].guard == None {
          return Some(i);
        } else if m.holds(ts[i].guard.value, e) {
          return Some(i);
        }
      }
    }
    r := None;
  }

  /** The k-th ancestor of a state. */
  ghost function Up(m: Machine, s: nat, k: nat): (r: Option<nat>)
    requires m.Valid() && s < |m.states|
    ensures r.Some? ==> r.value < |m.states|
    decreases k
  {
    if k == 0 then Some(s)
    else if m.states[s].parent == None then None
    else Up(m, m.states[s].parent.value, k - 1)
  }

  /** The state that handles an event on behalf of s: the nearest ancestor with an enabled transition. */
  ghost predicate Handles(m: Machine, s: nat, e: Event, k: nat, i: nat)
    requires m.Valid() && s < |m.states|
  {
    && Up(m, s, k).Some? && IsFirstEnabled(m, Up(m, s, k).value, e, i)
    && forall j: nat :: j < k && Up(m, s, j).Some? ==> NoneEnabled(m, Up(m, s, j).value, e)
  }

  ghost predicate Unhandled(m: Machine, s: nat, e: Event)
    requires m.Valid() && s < |m.states|
  {
    forall k: nat :: Up(m, s, k).Some? ==> NoneEnabled(m, Up(m, s, k).value, e)
  }

  /** The handler and its transition are determined by state and event. */
  lemma HandlerIsUnique(m: Machine, s: nat, e: Event, k: nat, i: nat, k': nat, i': nat)
    requires m.Valid() && s < |m.states| && Handles(m, s, e, k, i) && Handles(m, s, e, k', i')
    ensures k == k' && i == i' && !Unhandled(m, s, e)
  {
    NotNearer(m, s, e, k, i, k', i');
    NotNearer(m, s, e, k', i', k, i);
  }

  lemma NotNearer(m: Machine, s: nat, e: Event, k: nat, i: nat, k': nat, i': nat)
    requires m.Valid() && s < |m.states| && Handles(m, s, e, k, i) && Handles(m, s, e, k', i')
    ensures k' <= k
  {
  }

  /** A state's entry state, its entry state, and so on to a state that has none. */
  ghost function Resolve(m: Machine, s: nat): (r: nat)
    requires m.Valid() && s < |m.states|
    ensures r < |m.states| && m.states[r].entry == None
    decreases m.entryRank[s]
  {
    if m.states[s].entry == None then s else Resolve(m, m.states[s].entry.value)
  }

  method StepDown(m: Machine, s0: nat) returns (s: nat)
    requires m.Valid() && s0 < |m.states|
    ensures s == Resolve(m, s0)
  {
    s := s0;
    while m.states[s].entry.Some?
      invariant s < |m.states| && Resolve(m, s) == Resolve(m, s0)
      decreases m.entryRank[s]
    {
      s := m.states[s].entry.value;
    }
  }

  lemma {:induction false} UpStep(m: Machine, s: nat, k: nat)
    requires m.Valid() && s < |m.states| && Up(m, s, k).Some?
    ensures Up(m, s, k + 1) == m.states[Up(m, s, k).value].parent
    decreases k
  {
    if k > 0 {
      UpStep(m, m.states[s].parent.value, k - 1);
    }
  }

  lemma {:induction false} UpPast(m: Machine, s: nat, k: nat, j: nat)
    requires m.Valid() && s < |m.states| && k <= j && Up(m, s, k) == None
    ensures Up(m, s, j) == None
    decreases k
  {
    if k > 0 && m.states[s].parent.Some? {
      UpPast(m, m.states[s].parent.value, k - 1, j - 1);
    }
  }

  /** The loop over parents finds the nearest ancestor with an enabled transition, or that there is none. */
  method FindHandler(m: Machine, s: nat, e: Event) returns (at: Option<(nat, nat)>, ghost k: nat)
    requires m.Valid() && s < |m.states|
    ensures at.Some? ==> Handles(m, s, e, k, at.value.1) && Up(m, s, k) == Some(at.value.0)
    ensures at == None ==> Unhandled(m, s, e)
  {
    var state := s;
    k := 0;
    while true
      invariant Up(m, s, k) == Some(state)
      invariant forall j: nat :: j < k && Up(m, s, j).Some? ==> NoneEnabled(m, Up(m, s, j).value, e)
      decreases m.parentRank[state]
    {
      var t := GetTransition(m, state, e);
      if t.Some? {
        return Some((state, t.value)), k;
      }
      UpStep(m, s, k);
      if m.states[state].parent == None {
        forall j: nat | Up(m, s, j).Some? ensures NoneEnabled(m, Up(m, s, j).value, e) {
          if j > k {
            UpPast(m, s, k + 1, j);
          }
        }
        return None, k;
      }
      state, k := m.states[state].parent.value, k + 1;
    }
  }

  /** What a normal transition does: from, target, its actions. */
  ghost function Actions(m: Machine, from: nat, handler: nat, i: nat, target: nat): seq<Action>
    requires from < |m.states| && target < |m.states| && handler < |m.states| && i < |m.states[handler].transitions|
  {
    (if target != from && m.states[from].hasExit then [Exit(from)] else [])
    + (if m.states[handler].transitions[i].hasAction then [Run(handler, i, target)] else [])
    + (if target != from && m.states[target].hasEntry then [Enter(target)] else [])
  }

  class Fsm {
    const m: Machine
    var current: Option<nat>
    var previous: Option<nat>
    /** The actions run so far. */
    var log: seq<Action>

    ghost predicate Valid()
      reads this
    {
      m.Valid() && (current.Some? ==> current.value < |m.states|)
    }

    constructor (m: Machine, initial: Option<nat>)
      requires m.Valid() && (initial.Some? ==> initial.value < |m.states|)
      ensures Valid() && this.m == m && current == initial && previous == None && log == []
    {
      this.m, current, previous, log := m, initial, None, [];
    }

    method GoToErrorState()
      requires Valid()
      modifies this
      ensures Valid() && previous == old(current) && current == m.error
      ensures log == old(log)
              + (if m.error.Some? && m.states[m.error.value].hasEntry then [Enter(m.error.value)] else [])
    {
      previous, current := current, m.error;
      if current.Some? && m.states[current.value].hasEntry {
        log := log + [Enter(current.value)];
      }
    }

    /**
     * stateM_handleEvent. A failing entry action leaves the state unchanged although the exit and
     * transition actions have run.
     */
    method HandleEvent(e: Event) returns (r: Outcome)
      requires Valid()
      modifies this
      ensures Valid() && Handled(m, old(current), old(previous), old(log), e, r, current, previous, log)
    {
      if current == None {
        GoToErrorState();
        return InvalidState;
      }
      var from := current.value;
      if |m.states[from].transitions| == 0 {
        return NoChange;
      }
      var at;
      ghost var k;
      at, k := FindHandler(m, from, e);
      if at == None {
        return NoChange;
      }
      var (handler, i) := at.value;
      var t := m.states[handler].transitions[i];
      if t.next == None {
        GoToErrorState();
        return InvalidState;
      }
      var target := StepDown(m, t.next.value);
      r := Take(from, handler, i, target, e);
      assert Fired(m, from, old(previous), old(log), e, k, i, r, current, previous, log);
    }

    /** Runs the actions of a transition and moves to its target unless the entry action fails. */
    method Take(from: nat, handler: nat, i: nat, target: nat, e: Event) returns (r: Outcome)
      requires Valid() && current == Some(from) && target < |m.states|
      requires handler < |m.states| && i < |m.states[handler].transitions|
      modifies this
      ensures Valid() && Took(m, from, old(previous), old(log), e, handler, i, target, r, current, previous, log)
    {
      ghost var log0 := log;
      if target != from && m.states[from].hasExit {
        log := log + [Exit(from)];
      }
      if m.states[handler].transitions[i].hasAction {
        log := log + [Run(handler, i, target)];
      }
      if target != from && m.states[target].hasEntry {
        log := log + [Enter(target)];
        assert log == log0 + Actions(m, from, handler, i, target);
        if m.fails(target, e) {
          return NoChange;
        }
      }
      assert log == log0 + Actions(m, from, handler, i, target);
      previous, current := current, Some(target);
      r := if current == previous then Loop
           else if current == m.error then InvalidState
           else if |m.states[target].transitions| == 0 then Final
           else Ok;
    }
  }

  /** The error branch: the error state becomes current and its entry action runs. */
  ghost predicate WentToError(m: Machine, c: Option<nat>, log: seq<Action>, r: Outcome,
                              c': Option<nat>, p': Option<nat>, log': seq<Action>)
    requires m.Valid()
  {
    && r == InvalidState && c' == m.error && p' == c
    && log' == log + (if m.error.Some? && m.states[m.error.value].hasEntry then [Enter(m.error.value)] else [])
  }

  /** A transition to `target` was taken, or its entry action refused it. */
  ghost predicate Took(m: Machine, from: nat, p: Option<nat>, log: seq<Action>, e: Event, handler: nat, i: nat,
                       target: nat,
                       r: Outcome, c': Option<nat>, p': Option<nat>, log': seq<Action>)
    requires from < |m.states| && target < |m.states| && handler < |m.states| && i < |m.states[handler].transitions|
  {
    && log' == log + Actions(m, from, handler, i, target)
    && if target != from && m.states[target].hasEntry && m.fails(target, e) then
         r == NoChange && c' == Some(from) && p' == p
       else
         && c' == Some(target) && p' == Some(from)
         && r == (if target == from then Loop else if Some(target) == m.error then InvalidState
                  else if |m.states[target].transitions| == 0 then Final else Ok)
  }

  /** The effect of one event, in terms of the nearest enabled ancestor and entry resolution. */
  ghost predicate Handled(m: Machine, c: Option<nat>, p: Option<nat>, log: seq<Action>, e: Event,
                          r: Outcome, c': Option<nat>, p': Option<nat>, log': seq<Action>)
    requires m.Valid() && (c.Some? ==> c.value < |m.states|)
  {
    if c == None then WentToError(m, c, log, r, c', p', log')
    else if |m.states[c.value].transitions| == 0 || Unhandled(m, c.value, e) then
      r == NoChange && c' == c && p' == p && log' == log
    else
      exists k, i :: Handles(m, c.value, e, k, i) && Fired(m, c.value, p, log, e, k, i, r, c', p', log')
  }

  ghost predicate Fired(m: Machine, from: nat, p: Option<nat>, log: seq<Action>, e: Event, k: nat, i: nat,
                        r: Outcome, c': Option<nat>, p': Option<nat>, log': seq<Action>)
    requires m.Valid() && from < |m.states| && Handles(m, from, e, k, i)
  {
    var handler := Up(m, from, k).value;
    var next := m.states[handler].transitions[i].next;
    if next == None then WentToError(m, Some(from), log, r, c', p', log')
    else Took(m, from, p, log, e, handler, i, Resolve(m, next.value), r, c', p', log')
  }

  /**
   * The nearest ancestor with an enabled transition fires it, provided the current state has transitions of its
   * own; if it has none, its ancestors are not asked and nothing happens.
   */
  lemma AncestorsAsked(m: Machine, c: nat, p: Option<nat>, log: seq<Action>, e: Event, k: nat, i: nat,
                       r: Outcome, c': Option<nat>, p': Option<nat>, log': seq<Action>)
    requires m.Valid() && c < |m.states| && Handles(m, c, e, k, i)
    requires Handled(m, Some(c), p, log, e, r, c', p', log')
    ensures |m.states[c].transitions| > 0 ==> Fired(m, c, p, log, e, k, i, r, c', p', log')
    ensures |m.states[c].transitions| == 0 ==> r == NoChange && c' == Some(c) && p' == p && log' == log
  {
    if |m.states[c].transitions| > 0 {
      HandlerIsUnique(m, c, e, k, i, k, i);
      var k', i' :| Handles(m, c, e, k', i') && Fired(m, c, p, log, e, k', i', r, c', p', log');
      HandlerIsUnique(m, c, e, k, i, k', i');
    }
  }

  /** The new entries of the log when a transition leads to another state: exit first, entry last, nothing twice. */
  ghost predicate RunInOrder(m: Machine, from: nat, handler: nat, i: nat, target: nat, ran: seq<Action>)
    requires from < |m.states| && target < |m.states| && handler < |m.states| && i < |m.states[handler].transitions|
  {
    var run := Run(handler, i, target);
    && (Exit(from) in ran <==> m.states[from].hasExit) && (Exit(from) in ran ==> ran[0] == Exit(from))
    && (Enter(target) in ran <==> m.states[target].hasEntry)
    && (Enter(target) in ran ==> ran[|ran| - 1] == Enter(target))
    && (run in ran <==> m.states[handler].transitions[i].hasAction)
    && forall a :: 0 <= a < |ran| ==>
         ran[a] in [Exit(from), run, Enter(target)] && forall b :: 0 <= b < a ==> ran[b] != ran[a]
  }

  /** One event of a state with transitions of its own runs exactly the actions it should, each once and in order. */
  lemma {:induction false} ActionsRun(m: Machine, c: nat, p: Option<nat>, log: seq<Action>, e: Event, k: nat, i: nat,
                                      r: Outcome, c': Option<nat>, p': Option<nat>, log': seq<Action>)
    requires m.Valid() && c < |m.states| && |m.states[c].transitions| > 0 && Handles(m, c, e, k, i)
    requires Handled(m, Some(c), p, log, e, r, c', p', log')
    ensures log <= log'
    ensures var handler, ran := Up(m, c, k).value, log'[|log|..];
      var t := m.states[handler].transitions[i];
      if t.next == None then
        ran == if m.error.Some? && m.states[m.error.value].hasEntry then [Enter(m.error.value)] else []
      else
        var target := Resolve(m, t.next.value);
        if target == c then ran == if t.hasAction then [Run(handler, i, target)] else []
        else RunInOrder(m, c, handler, i, target, ran)
  {
    AncestorsAsked(m, c, p, log, e, k, i, r, c', p', log');
    var handler, ran := Up(m, c, k).value, log'[|log|..];
    var next := m.states[handler].transitions[i].next;
    if next.Some? {
      var target := Resolve(m, next.value);
      assert ran == Actions(m, c, handler, i, target);
      if target != c { ActionsInOrder(m, c, handler, i, target); }
    }
  }

  lemma ActionsInOrder(m: Machine, from: nat, handler: nat, i: nat, target: nat)
    requires from < |m.states| && target < |m.states| && handler < |m.states| && i < |m.states[handler].transitions|
    requires target != from
    ensures RunInOrder(m, from, handler, i, target, Actions(m, from, handler, i, target))
  {
    var exit := if m.states[from].hasExit then [Exit(from)] else [];
    var run := if m.states[handler].transitions[i].hasAction then [Run(handler, i, target)] else [];
    var enter := if m.states[target].hasEntry then [Enter(target)] else [];
    assert Actions(m, from, handler, i, target) == exit + run + enter;
  }

  /** The k-th state in a chain of entry states. */
  ghost function Down(m: Machine, s: nat, k: nat): (r: Option<nat>)
    requires m.Valid() && s < |m.states|
    ensures r.Some? ==> r.value < |m.states|
    decreases k
  {
    if k == 0 then Some(s)
    else if m.states[s].entry == None then None
    else Down(m, m.states[s].entry.value, k - 1)
  }

  ghost predicate Below(m: Machine, s: nat, r: nat)
    requires m.Valid() && s < |m.states|
  {
    exists k: nat :: Down(m, s, k) == Some(r)
  }

  /** A state resolves to the one end of its chain of entry states. */
  lemma {:induction false} ResolvesToEnd(m: Machine, s: nat, r: nat)
    requires m.Valid() && s < |m.states| && r < |m.states|
    ensures Resolve(m, s) == r <==> m.states[r].entry == None && Below(m, s, r)
    decreases m.entryRank[s]
  {
    assert Down(m, s, 0) == Some(s);
    if m.states[s].entry.Some? {
      var next := m.states[s].entry.value;
      ResolvesToEnd(m, next, r);
      if m.states[r].entry == None && Below(m, s, r) {
        var k: nat :| Down(m, s, k) == Some(r);
        assert Down(m, next, k - 1) == Some(r);
      } else if Below(m, next, r) {
        var k: nat :| Down(m, next, k) == Some(r);
        assert Down(m, s, k + 1) == Some(r);
      }
    }
  }

  /** State 0 is a child of state 1, which goes to state 2 on event 1; `own` is what state 0 has itself. */
  function ChildOf(own: seq<Transition>): Machine {
    var up := Transition(1, None, Some(2), false);
    var child := StateDef(Some(1), None, own, false, false);
    var parent := StateDef(None, None, [up], false, false);
    Machine([child, parent, StateDef(None, None, [], false, false)], None,
            (_, _) => true, (_, _) => false, [1, 0, 0], [0, 0, 0])
  }

  lemma ParentHandles(own: seq<Transition>, e: Event)
    requires e.kind == 1 && forall k :: 0 <= k < |own| ==> own[k].kind != 1 && own[k].next == None
    ensures ChildOf(own).Valid() && Handles(ChildOf(own), 0, e, 1, 0)
  {
    var m := ChildOf(own);
    assert m.states[1].transitions[0].kind == 1;
    assert Up(m, 0, 0) == Some(0) && Up(m, 1, 0) == Some(1) == Up(m, 0, 1);
    assert IsFirstEnabled(m, 1, e, 0);
  }

  /** The parent handles the event for a child with a transition for another event, not for one without any. */
  method ChildIgnores(e: Event) returns (with: Outcome, there: Option<nat>, without: Outcome, here: Option<nat>)
    requires e.kind == 1
    ensures with == Final && there == Some(2)
    ensures without == NoChange && here == Some(0)
  {
    var other := [Transition(2, None, None, false)];
    ParentHandles(other, e);
    ParentHandles([], e);
    var a := new Fsm(ChildOf(other), Some(0));
    var b := new Fsm(ChildOf([]), Some(0));
    with := a.HandleEvent(e);
    without := b.HandleEvent(e);
    there, here := a.current, b.current;
    AncestorsAsked(a.m, 0, None, [], e, 1, 0, with, a.current, a.previous, a.log);
    assert Resolve(a.m, 2) == 2;
  }

  /** The result of an event tells where the machine is. */
  lemma {:induction false} ResultTells(m: Machine, c: Option<nat>, p: Option<nat>, log: seq<Action>, e: Event,
                                       r: Outcome, c': Option<nat>, p': Option<nat>, log': seq<Action>)
    requires m.Valid() && (c.Some? ==> c.value < |m.states|) && Handled(m, c, p, log, e, r, c', p', log')
    ensures r == NoChange ==> c' == c && p' == p
    ensures r == Loop ==> c' == c == p' && c.Some?
    ensures r == InvalidState ==> c' == m.error && p' == c
    ensures r == Final || r == Ok ==> c' != c && c' != m.error && c'.Some? && p' == c && c'.value < |m.states|
    ensures r == Final || r == Ok ==> (r == Final <==> |m.states[c'.value].transitions| == 0)
  {
  }

  // Runs

  /** A run of the machine: current states before each event and after the last. */
  ghost predicate IsRun(m: Machine, es: seq<Event>, cs: seq<Option<nat>>, ps: seq<Option<nat>>,
                        logs: seq<seq<Action>>, rs: seq<Outcome>)
    requires m.Valid()
  {
    && |cs| == |ps| == |logs| == |es| + 1 && |rs| == |es|
    && (forall i :: 0 <= i < |cs| ==> cs[i].Some? ==> cs[i].value < |m.states|)
    && forall i {:trigger rs[i]} :: 0 <= i < |es| ==>
         Handled(m, cs[i], ps[i], logs[i], es[i], rs[i], cs[i + 1], ps[i + 1], logs[i + 1])
  }

  ghost predicate Settled(m: Machine, initial: Option<nat>, c: Option<nat>)
    requires m.Valid() && (c.Some? ==> c.value < |m.states|)
  {
    c == initial || c == m.error || (c.Some? && m.states[c.value].entry == None)
  }

  /** One event keeps the current state settled. */
  lemma StepSettles(m: Machine, initial: Option<nat>, c: Option<nat>, p: Option<nat>, log: seq<Action>, e: Event,
                    r: Outcome, c': Option<nat>, p': Option<nat>, log': seq<Action>)
    requires m.Valid() && (c.Some? ==> c.value < |m.states|) && (c'.Some? ==> c'.value < |m.states|)
    requires Handled(m, c, p, log, e, r, c', p', log') && Settled(m, initial, c)
    ensures Settled(m, initial, c')
  {
  }

  /** On a normal transition exit and entry actions run only if the resolved state differs. */
  lemma ActionsOnChangeOnly(m: Machine, from: nat, p: Option<nat>, log: seq<Action>, e: Event, handler: nat, i: nat,
                            target: nat, r: Outcome, c': Option<nat>, p': Option<nat>, log': seq<Action>)
    requires from < |m.states| && target < |m.states| && handler < |m.states| && i < |m.states[handler].transitions|
    requires Took(m, from, p, log, e, handler, i, target, r, c', p', log')
    ensures log <= log' && |log'| <= |log| + 3
    ensures r == Loop <==> target == from
    ensures forall a :: a in log'[|log|..] && !a.Run? ==> target != from && (a == Exit(from) || a == Enter(target))
    ensures c' == Some(from) ==> r == Loop || r == NoChange
  {
    assert log'[|log|..] == Actions(m, from, handler, i, target);
  }

  /**
   * Over every run the current state is the initial state, the error state or a state without an
   * entry state.
   */
  lemma {:induction false} RunSettled(m: Machine, es: seq<Event>, cs: seq<Option<nat>>, ps: seq<Option<nat>>,
                                      logs: seq<seq<Action>>, rs: seq<Outcome>, i: nat)
    requires m.Valid() && IsRun(m, es, cs, ps, logs, rs) && i <= |es|
    ensures Settled(m, cs[0], cs[i])
    decreases i
  {
    if i > 0 {
      RunSettled(m, es, cs, ps, logs, rs, i - 1);
      assert rs[i - 1] == rs[i - 1];
      StepSettles(m, cs[0], cs[i - 1], ps[i - 1], logs[i - 1], es[i - 1], rs[i - 1], cs[i], ps[i], logs[i]);
    }
  }

  /** Feeding a machine any events is a run, along which the current state stays settled. */
  method Drive(m: Machine, initial: Option<nat>, es: seq<Event>)
    returns (cs: seq<Option<nat>>, ps: seq<Option<nat>>, logs: seq<seq<Action>>, rs: seq<Outcome>)
    requires m.Valid() && (initial.Some? ==> initial.value < |m.states|)
    ensures IsRun(m, es, cs, ps, logs, rs) && cs[0] == initial
    ensures forall i :: 0 <= i < |cs| ==> Settled(m, initial, cs[i])
  {
    var fsm := new Fsm(m, initial);
    cs, ps, logs, rs := [fsm.current], [fsm.previous], [fsm.log], [];
    for i := 0 to |es|
      invariant fsm.Valid() && fsm.m == m && cs != [] && cs[0] == initial
      invariant IsRun(m, es[..i], cs, ps, logs, rs)
      invariant cs[i] == fsm.current && ps[i] == fsm.previous && logs[i] == fsm.log
    {
      var r := fsm.HandleEvent(es[i]);
      RunGrows(m, es[..i], cs, ps, logs, rs, es[i], r, fsm.current, fsm.previous, fsm.log);
      assert es[..i + 1] == es[..i] + [es[i]];
      cs, ps, logs, rs := cs + [fsm.current], ps + [fsm.previous], logs + [fsm.log], rs + [r];
    }
    assert es[..|es|] == es;
    forall i | 0 <= i < |cs| ensures Settled(m, initial, cs[i]) {
      RunSettled(m, es, cs, ps, logs, rs, i);
    }
  }

  lemma RunGrows(m: Machine, es: seq<Event>, cs: seq<Option<nat>>, ps: seq<Option<nat>>, logs: seq<seq<Action>>,
                 rs: seq<Outcome>, e: Event, r: Outcome, c: Option<nat>, p: Option<nat>, log: seq<Action>)
    requires m.Valid() && IsRun(m, es, cs, ps, logs, rs) && (c.Some? ==> c.value < |m.states|)
    requires var n := |es|; Handled(m, cs[n], ps[n], logs[n], e, r, c, p, log)
    ensures IsRun(m, es + [e], cs + [c], ps + [p], logs + [log], rs + [r])
  {
    var es', cs', ps', logs', rs' := es + [e], cs + [c], ps + [p], logs + [log], rs + [r];
    forall i | 0 <= i < |es'|
      ensures Handled(m, cs'[i], ps'[i], logs'[i], es'[i], rs'[i], cs'[i + 1], ps'[i + 1], logs'[i + 1])
    {
      if i < |es| {
        assert rs[i] == rs'[i];
      }
    }
  }
}
