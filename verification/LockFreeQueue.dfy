/**
 * The lock-free FIFO of src/ld_mqueue.c: a Michael-Scott queue whose dequeuers help a lagging
 * tail, with retired nodes handed to a free chain.
 *
 * Each atomic read or compare-and-swap is one step. A schedule names, step by step, the thread
 * that moves (and the call it starts when idle), so the reachable states are the states Run(sched)
 * for all schedules. Memory is sequentially consistent and nodes are never reused.
 */
module LockFreeQueue {
  import opened Wrappers
  import opened Common

  type Value = int

  datatype Node = Node(value: Value, next: Option<nat>, nextfree: Option<nat>)

  /**
   * Where a thread stands. A pointer read from the shared state comes with its rank, the position
   * of that node in the chain it was read from; ranks are history, the code sees only pointers.
   * `start` and `at` are the clock at the start of a call and at the read of a null `next`.
   */
  datatype Local =
    | Idle
    | EnqReadTail(node: nat)
    | EnqCasNext(node: nat, tail: nat, rank: nat)
    | EnqCasTail(node: nat, tail: nat, rank: nat)
    | DeqReadHead(start: nat)
    | DeqReadTail(start: nat, head: nat, hr: nat)
    | DeqReadNext(start: nat, head: nat, hr: nat, tail: nat, tr: nat)
    | DeqCheckHead(start: nat, head: nat, hr: nat, tail: nat, tr: nat, next: Option<nat>, at: nat)
    | DeqHelpTail(start: nat, tail: nat, rank: nat, nextNode: nat)
    | DeqCasHead(start: nat, head: nat, hr: nat, next: Option<nat>)
    | DeqReadValue(head: nat, hr: nat, nextNode: nat)
    | FreeRead(value: Value, head: nat, hr: nat)
    | FreeCas(value: Value, head: nat, hr: nat, freed: nat, fr: nat)
    | FreeSwing(value: Value, head: nat, hr: nat, freed: nat, fr: nat)
    | DeqValue(value: Value, hr: nat)
    | DeqNull(start: nat, at: nat)

  /**
   * Shared memory, the threads, and history: `chain` lists the nodes ever linked, `h` and `t` are
   * the ranks of head and tail in it, `frees` lists the free chain with the ranks `retired` its
   * nodes had and `f` the rank of move_free; `enq` and `deq` list the values in the order of the
   * successful swaps of a next pointer and of head. `fault` records a null dereference.
   */
  datatype State = State(
    nodes: seq<Node>, head: nat, tail: nat, moveFree: nat,
    threads: map<nat, Local>, fault: bool, clock: nat,
    chain: seq<nat>, h: nat, t: nat, enq: seq<Value>, deq: seq<Value>,
    frees: seq<nat>, retired: seq<nat>, f: nat)

  datatype Call = Enqueue(value: Value) | Dequeue
  datatype Event = Event(tid: nat, call: Call)

  function Init(): State {
    State([Node(0, None, None), Node(0, None, None)], 0, 0, 1, map[], false, 0,
          [0], 0, 0, [], [], [1], [], 0)
  }

  function LocalOf(s: State, tid: nat): Local {
    if tid in s.threads then s.threads[tid] else Idle
  }

  /** One atomic step of the thread named by the event. */
  function Exec(s: State, e: Event): State {
    var (s', l) := Move(s, e.call, LocalOf(s, e.tid));
    s'.(threads := s.threads[e.tid := l], clock := s.clock + 1)
  }

  function Move(s: State, call: Call, l: Local): (State, Local) {
    match l
    case Idle =>
      (match call
       case Enqueue(v) => (s.(nodes := s.nodes + [Node(v, None, None)]), EnqReadTail(|s.nodes|))
       case Dequeue => (s, DeqReadHead(s.clock)))
    case EnqReadTail(node) => (s, EnqCasNext(node, s.tail, s.t))
    case EnqCasNext(node, tail, rank) =>
      if tail >= |s.nodes| then (s.(fault := true), Idle)
      else if s.nodes[tail].next == None then (LinkNode(s, node, tail), EnqCasTail(node, tail, rank))
      else (s, EnqReadTail(node))
    case EnqCasTail(node, tail, rank) => (SwingTail(s, tail, node), Idle)
    case DeqReadHead(start) => (s, DeqReadTail(start, s.head, s.h))
    case DeqReadTail(start, head, hr) => (s, DeqReadNext(start, head, hr, s.tail, s.t))
    case DeqReadNext(start, head, hr, tail, tr) =>
      if head >= |s.nodes| then (s.(fault := true), Idle)
      else (s, DeqCheckHead(start, head, hr, tail, tr, s.nodes[head].next, s.clock))
    case DeqCheckHead(start, head, hr, tail, tr, next, at) =>
      if head != s.head then (s, DeqReadHead(start))
      else if head != tail then (s, DeqCasHead(start, head, hr, next))
      else if next == None then (s, DeqNull(start, at))
      else (s, DeqHelpTail(start, tail, tr, next.value))
    case DeqHelpTail(start, tail, rank, nextNode) => (SwingTail(s, tail, nextNode), DeqReadHead(start))
    case DeqCasHead(start, head, hr, next) =>
      if s.head != head then (s, DeqReadHead(start))
      else if next == None || next.value >= |s.nodes| then (s.(fault := true), Idle)
      else (s.(head := next.value, h := s.h + 1, deq := s.deq + [s.nodes[next.value].value]),
            DeqReadValue(head, hr, next.value))
    case DeqReadValue(head, hr, nextNode) =>
      if nextNode >= |s.nodes| then (s.(fault := true), Idle)
      else (s, FreeRead(s.nodes[nextNode].value, head, hr))
    case FreeRead(value, head, hr) => (s, FreeCas(value, head, hr, s.moveFree, s.f))
    case FreeCas(value, head, hr, freed, fr) =>
      if freed >= |s.nodes| then (s.(fault := true), Idle)
      else if s.nodes[freed].nextfree == None
      then (LinkFree(s, head, hr, freed), FreeSwing(value, head, hr, freed, fr))
      else (s, FreeRead(value, head, hr))
    case FreeSwing(value, head, hr, freed, fr) => (SwingFree(s, freed, head), DeqValue(value, hr))
    case DeqValue(_, _) => (s, Idle)
    case DeqNull(_, _) => (s, Idle)
  }

  /** Successful swap of tail->next from null to the new node. */
  function LinkNode(s: State, node: nat, tail: nat): State
    requires tail < |s.nodes|
  {
    s.(nodes := s.nodes[tail := s.nodes[tail].(next := Some(node))],
       chain := s.chain + [node],
       enq := s.enq + [if node < |s.nodes| then s.nodes[node].value else 0])
  }

  /** Compare-and-swap of the shared tail. */
  function SwingTail(s: State, expected: nat, node: nat): State {
    if s.tail == expected then s.(tail := node, t := s.t + 1) else s
  }

  /** Successful swap of freed->nextfree from null to the retired node. */
  function LinkFree(s: State, node: nat, rank: nat, freed: nat): State
    requires freed < |s.nodes|
  {
    s.(nodes := s.nodes[freed := s.nodes[freed].(nextfree := Some(node))],
       frees := s.frees + [node], retired := s.retired + [rank])
  }

  function SwingFree(s: State, expected: nat, node: nat): State {
    if s.moveFree == expected then s.(moveFree := node, f := s.f + 1) else s
  }

  /** The state reached by a schedule. */
  function Run(sched: seq<Event>): State {
    if sched == [] then Init() else Exec(Run(sched[..|sched| - 1]), sched[|sched| - 1])
  }

  /** The abstract queue: values linked and not yet dequeued. */
  function Queue(s: State): seq<Value> {
    if s.h <= |s.enq| then s.enq[s.h..] else []
  }

  // The invariant

  /** The linked nodes form one list; head and tail point into it, tail at most one node behind. */
  ghost predicate ListInv(s: State) {
    && |s.chain| > 0 && Distinct(s.chain)
    && s.h <= s.t < |s.chain| <= s.t + 2
    && s.head == s.chain[s.h] && s.tail == s.chain[s.t]
    && (forall i :: 0 <= i < |s.chain| ==> s.chain[i] < |s.nodes|)
    && (forall i {:trigger s.nodes[s.chain[i]]} :: 0 <= i < |s.chain| ==>
          s.nodes[s.chain[i]].next == if i + 1 < |s.chain| then Some(s.chain[i + 1]) else None)
    && (forall x: nat :: x < |s.nodes| && x !in s.chain ==> s.nodes[x].next == None)
  }

  /** The list holds the values enqueued, of which those before the head are the values dequeued. */
  ghost predicate ValueInv(s: State)
    requires ListInv(s)
  {
    && |s.chain| == |s.enq| + 1
    && (forall i {:trigger s.nodes[s.chain[i]]} :: 0 < i < |s.chain| ==> s.nodes[s.chain[i]].value == s.enq[i - 1])
    && s.deq == s.enq[..s.h]
  }

  ghost predicate ChainInv(s: State) {
    ListInv(s) && ValueInv(s)
  }

  /** The free chain holds only nodes that head has passed, each once. */
  ghost predicate FreeInv(s: State) {
    && |s.frees| == |s.retired| + 1 && Distinct(s.retired)
    && s.f < |s.frees| <= s.f + 2 && s.moveFree == s.frees[s.f]
    && s.h < |s.chain|
    && (forall i {:trigger s.retired[i]} :: 0 <= i < |s.retired| ==>
          s.retired[i] < s.h && s.frees[i + 1] == s.chain[s.retired[i]])
    && s.frees[0] !in s.chain
    && (forall i :: 0 <= i < |s.frees| ==> s.frees[i] < |s.nodes|)
    && (forall i {:trigger s.nodes[s.frees[i]]} :: 0 <= i < |s.frees| ==>
          s.nodes[s.frees[i]].nextfree == if i + 1 < |s.frees| then Some(s.frees[i + 1]) else None)
    && (forall x: nat :: x < |s.nodes| && x !in s.frees ==> s.nodes[x].nextfree == None)
  }

  /** The node a thread has allocated and not linked yet. */
  function OwnNode(l: Local): Option<nat> {
    match l
    case EnqReadTail(node) => Some(node)
    case EnqCasNext(node, _, _) => Some(node)
    case _ => None
  }

  /** The rank of the node a thread has retired and not linked to the free chain yet. */
  function OwnRank(l: Local): Option<nat> {
    match l
    case DeqReadValue(_, hr, _) => Some(hr)
    case FreeRead(_, _, hr) => Some(hr)
    case FreeCas(_, _, hr, _, _) => Some(hr)
    case _ => None
  }

  ghost predicate At(q: seq<nat>, rank: nat, x: nat) {
    rank < |q| && q[rank] == x
  }

  /** What a thread may rely on, whatever the others do. */
  ghost predicate LocalInv(s: State, l: Local) {
    && (OwnNode(l).Some? ==>
          && OwnNode(l).value < |s.nodes| && OwnNode(l).value !in s.chain
          && |s.frees| > 0 && OwnNode(l).value != s.frees[0])
    && (OwnRank(l).Some? ==> OwnRank(l).value < s.h && OwnRank(l).value !in s.retired)
    && match l
       case Idle => true
       case EnqReadTail(_) => true
       case EnqCasNext(_, tail, rank) => rank <= s.t && At(s.chain, rank, tail)
       case EnqCasTail(node, tail, rank) =>
         rank <= s.t && At(s.chain, rank, tail) && At(s.chain, rank + 1, node)
       case DeqReadHead(start) => start < s.clock
       case DeqReadTail(start, head, hr) => start < s.clock && hr <= s.h && At(s.chain, hr, head)
       case DeqReadNext(start, head, hr, tail, tr) =>
         && start < s.clock && hr <= s.h && At(s.chain, hr, head)
         && tr <= s.t && At(s.chain, tr, tail) && (hr == s.h ==> hr <= tr)
       case DeqCheckHead(start, head, hr, tail, tr, next, at) =>
         && start < at < s.clock && hr <= s.h && At(s.chain, hr, head)
         && tr <= s.t && At(s.chain, tr, tail) && (hr == s.h ==> hr <= tr)
         && (hr < tr ==> next.Some?)
         && (next.Some? ==> At(s.chain, hr + 1, next.value))
       case DeqHelpTail(start, tail, rank, nextNode) =>
         && start < s.clock && rank <= s.t && At(s.chain, rank, tail) && At(s.chain, rank + 1, nextNode)
       case DeqCasHead(start, head, hr, next) =>
         && start < s.clock && hr <= s.h && hr < s.t && At(s.chain, hr, head)
         && next.Some? && At(s.chain, hr + 1, next.value)
       case DeqReadValue(head, hr, nextNode) => At(s.chain, hr, head) && At(s.chain, hr + 1, nextNode)
       case FreeRead(value, head, hr) => At(s.chain, hr, head) && hr < |s.deq| && s.deq[hr] == value
       case FreeCas(value, head, hr, freed, fr) =>
         && At(s.chain, hr, head) && hr < |s.deq| && s.deq[hr] == value
         && fr <= s.f && At(s.frees, fr, freed)
       case FreeSwing(value, head, hr, freed, fr) =>
         && hr < |s.deq| && s.deq[hr] == value
         && fr <= s.f && At(s.frees, fr, freed) && At(s.frees, fr + 1, head)
       case DeqValue(value, hr) => hr < |s.deq| && s.deq[hr] == value
       case DeqNull(start, at) => start < at < s.clock
  }

  ghost predicate Exclusive(a: Local, b: Local) {
    && (OwnNode(a).Some? ==> OwnNode(a) != OwnNode(b))
    && (OwnRank(a).Some? ==> OwnRank(a) != OwnRank(b))
  }

  ghost predicate ThreadsInv(s: State) {
    && (forall i :: i in s.threads ==> LocalInv(s, s.threads[i]))
    && (forall i, j :: i in s.threads && j in s.threads && i != j ==> Exclusive(s.threads[i], s.threads[j]))
  }

  ghost predicate Inv(s: State) {
    !s.fault && ChainInv(s) && FreeInv(s) && ThreadsInv(s)
  }

  // Preservation

  /** What any step may do to the state, as far as another thread can tell. */
  ghost predicate Grows(s: State, s': State) {
    && |s.nodes| <= |s'.nodes| && s.chain <= s'.chain && s.frees <= s'.frees && |s.frees| > 0
    && s.h <= s'.h && s.t <= s'.t && s.f <= s'.f && s.clock < s'.clock
    && s.deq <= s'.deq && s.retired <= s'.retired
  }

  /** A thread's facts survive a step that leaves what it owns alone. */
  lemma LocalStable(s: State, s': State, l: Local)
    requires LocalInv(s, l) && Grows(s, s')
    requires OwnNode(l).Some? ==> OwnNode(l).value !in s'.chain
    requires OwnRank(l).Some? ==> OwnRank(l).value !in s'.retired
    ensures LocalInv(s', l)
  {
  }

  /** A step that keeps what the mover owns, or gives it something nobody has, keeps the threads. */
  lemma ThreadsStable(s: State, e: Event, l': Local)
    requires Inv(s)
    requires var s' := Exec(s, e); s'.threads == s.threads[e.tid := l'] && Grows(s, s') && LocalInv(s', l')
    requires forall i :: i in s.threads && i != e.tid ==>
               && Exclusive(l', s.threads[i]) && Exclusive(s.threads[i], l')
               && (OwnNode(s.threads[i]).Some? ==> OwnNode(s.threads[i]).value !in Exec(s, e).chain)
               && (OwnRank(s.threads[i]).Some? ==> OwnRank(s.threads[i]).value !in Exec(s, e).retired)
    ensures ThreadsInv(Exec(s, e))
  {
    var s' := Exec(s, e);
    forall i | i in s'.threads ensures LocalInv(s', s'.threads[i]) {
      if i != e.tid {
        LocalStable(s, s', s.threads[i]);
      }
    }
  }

  lemma AllocKeeps(s: State, e: Event)
    requires Inv(s) && LocalOf(s, e.tid).Idle? && e.call.Enqueue?
    ensures Inv(Exec(s, e))
  {
    ThreadsStable(s, e, EnqReadTail(|s.nodes|));
  }

  /** Steps that only read, or whose swap fails. */
  lemma ReadKeeps(s: State, e: Event, l': Local)
    requires Inv(s)
    requires Exec(s, e) == s.(threads := s.threads[e.tid := l'], clock := s.clock + 1)
    requires LocalInv(Exec(s, e), l')
    requires OwnNode(l') == OwnNode(LocalOf(s, e.tid)) && OwnRank(l') == OwnRank(LocalOf(s, e.tid))
    ensures Inv(Exec(s, e))
  {
    ThreadsStable(s, e, l');
  }

  lemma LinkNodeList(s: State, node: nat, tail: nat)
    requires ListInv(s) && tail < |s.nodes| && tail == s.chain[|s.chain| - 1] && s.t == |s.chain| - 1
    requires node < |s.nodes| && node !in s.chain
    ensures ListInv(LinkNode(s, node, tail))
  {
    var s' := LinkNode(s, node, tail);
    assert forall i :: 0 <= i < |s.chain| ==> s'.chain[i] == s.chain[i];
    assert forall i :: 0 <= i < |s.chain| - 1 ==> s.chain[i] != tail;
    assert s'.chain[|s.chain|] == node;
    assert forall x: nat :: x < |s.nodes| && x != tail ==> s'.nodes[x] == s.nodes[x];
  }

  lemma LinkNodeValues(s: State, node: nat, tail: nat)
    requires ChainInv(s) && tail < |s.nodes| && node < |s.nodes| && ListInv(LinkNode(s, node, tail))
    ensures ValueInv(LinkNode(s, node, tail))
  {
    var s' := LinkNode(s, node, tail);
    forall i | 0 < i < |s'.chain| ensures s'.nodes[s'.chain[i]].value == s'.enq[i - 1] {
      if i < |s.chain| {
        assert s'.chain[i] == s.chain[i] && s.nodes[s.chain[i]].value == s.enq[i - 1];
      }
    }
  }

  lemma LinkNodeFree(s: State, node: nat, tail: nat)
    requires FreeInv(s) && tail < |s.nodes| && node != s.frees[0]
    ensures FreeInv(LinkNode(s, node, tail))
  {
  }

  /** The swap of tail->next succeeds only at the last node of the chain, with the tail on it. */
  lemma LinkNodeKeeps(s: State, e: Event)
    requires Inv(s) && LocalOf(s, e.tid).EnqCasNext?
    requires s.nodes[LocalOf(s, e.tid).tail].next == None
    ensures Inv(Exec(s, e))
  {
    var EnqCasNext(node, tail, rank) := LocalOf(s, e.tid);
    assert rank == |s.chain| - 1 == s.t;
    LinkNodeList(s, node, tail);
    LinkNodeValues(s, node, tail);
    LinkNodeFree(s, node, tail);
    Resumes(LinkNode(s, node, tail), Exec(s, e));
    ThreadsStable(s, e, EnqCasTail(node, tail, rank));
  }

  /** A successful swing of the tail moves it to the next node of the chain. */
  lemma SwingTailChain(s: State, tail: nat, rank: nat, node: nat)
    requires ChainInv(s) && FreeInv(s) && rank <= s.t && At(s.chain, rank, tail) && At(s.chain, rank + 1, node)
    ensures ChainInv(SwingTail(s, tail, node)) && FreeInv(SwingTail(s, tail, node))
  {
    if s.tail == tail {
      assert rank == s.t;
    }
  }

  lemma SwingTailKeeps(s: State, e: Event, l': Local, tail: nat, rank: nat, node: nat)
    requires Inv(s) && rank <= s.t && At(s.chain, rank, tail) && At(s.chain, rank + 1, node)
    requires Exec(s, e) == SwingTail(s, tail, node).(threads := s.threads[e.tid := l'], clock := s.clock + 1)
    requires LocalInv(Exec(s, e), l') && OwnNode(l') == None && OwnRank(l') == None
    ensures Inv(Exec(s, e))
  {
    SwingTailChain(s, tail, rank, node);
    ThreadsStable(s, e, l');
  }

  /** Head moves one node on, never past the tail, and the mover owns the node it left. */
  lemma CasHeadKeeps(s: State, e: Event)
    requires Inv(s) && LocalOf(s, e.tid).DeqCasHead? && LocalOf(s, e.tid).head == s.head
    ensures Inv(Exec(s, e))
  {
    var DeqCasHead(start, head, hr, next) := LocalOf(s, e.tid);
    var s' := s.(head := next.value, h := s.h + 1, deq := s.deq + [s.nodes[next.value].value]);
    assert hr == s.h;
    CasHeadChain(s, next.value, s');
    Resumes(s', Exec(s, e));
    ThreadsStable(s, e, DeqReadValue(head, hr, next.value));
  }

  /** The lists do not depend on threads and clock. */
  lemma Resumes(s: State, s': State)
    requires ChainInv(s) && FreeInv(s) && s' == s.(threads := s'.threads, clock := s'.clock)
    ensures ChainInv(s') && FreeInv(s')
  {
  }

  lemma CasHeadChain(s: State, node: nat, s': State)
    requires ChainInv(s) && FreeInv(s) && s.h < s.t && node == s.chain[s.h + 1]
    requires s' == s.(head := node, h := s.h + 1, deq := s.deq + [s.nodes[node].value])
    ensures ChainInv(s') && FreeInv(s')
  {
    assert s'.deq == s.enq[..s.h] + [s.enq[s.h]] == s.enq[..s.h + 1];
  }

  lemma LinkFreeChain(s: State, rank: nat, freed: nat)
    requires ChainInv(s) && FreeInv(s) && freed == s.frees[|s.frees| - 1]
    requires rank < s.h
    ensures ChainInv(LinkFree(s, s.chain[rank], rank, freed))
  {
  }

  lemma LinkFreeFrees(s: State, rank: nat, freed: nat)
    requires ChainInv(s) && FreeInv(s) && freed == s.frees[|s.frees| - 1] && s.f == |s.frees| - 1
    requires rank < s.h && rank !in s.retired
    ensures FreeInv(LinkFree(s, s.chain[rank], rank, freed))
  {
    var head := s.chain[rank];
    var s' := LinkFree(s, head, rank, freed);
    FreesDistinct(s);
    NotFreed(s, rank);
    assert forall i :: 0 <= i < |s.frees| ==> s'.frees[i] == s.frees[i];
    assert forall i :: 0 <= i < |s.retired| ==> s'.retired[i] == s.retired[i];
    assert head in s'.frees;
  }

  lemma LinkFreeKeeps(s: State, e: Event)
    requires Inv(s) && LocalOf(s, e.tid).FreeCas?
    requires s.nodes[LocalOf(s, e.tid).freed].nextfree == None
    ensures Inv(Exec(s, e))
  {
    var FreeCas(value, head, hr, freed, fr) := LocalOf(s, e.tid);
    assert fr == |s.frees| - 1 == s.f;
    LinkFreeChain(s, hr, freed);
    LinkFreeFrees(s, hr, freed);
    LinkFreeThreads(s, e);
  }

  lemma LinkFreeThreads(s: State, e: Event)
    requires Inv(s) && LocalOf(s, e.tid).FreeCas?
    requires s.nodes[LocalOf(s, e.tid).freed].nextfree == None
    ensures ThreadsInv(Exec(s, e))
  {
    var FreeCas(value, head, hr, freed, fr) := LocalOf(s, e.tid);
    assert fr == |s.frees| - 1 == s.f;
    ThreadsStable(s, e, FreeSwing(value, head, hr, freed, fr));
  }

  lemma FreesDistinct(s: State)
    requires ChainInv(s) && FreeInv(s)
    ensures Distinct(s.frees)
  {
    forall i, j | 0 <= i < j < |s.frees| ensures s.frees[i] != s.frees[j] {
      assert s.frees[j] == s.chain[s.retired[j - 1]];
      if i > 0 {
        assert s.frees[i] == s.chain[s.retired[i - 1]];
      }
    }
  }

  lemma NotFreed(s: State, rank: nat)
    requires ChainInv(s) && FreeInv(s) && rank < |s.chain| && rank !in s.retired
    ensures s.chain[rank] !in s.frees
  {
    forall i | 0 <= i < |s.frees| ensures s.frees[i] != s.chain[rank] {
      if i > 0 {
        assert s.frees[i] == s.chain[s.retired[i - 1]];
      }
    }
  }

  lemma SwingFreeKeeps(s: State, e: Event)
    requires Inv(s) && LocalOf(s, e.tid).FreeSwing?
    ensures Inv(Exec(s, e))
  {
    var FreeSwing(value, head, hr, freed, fr) := LocalOf(s, e.tid);
    FreesDistinct(s);
    if s.moveFree == freed {
      assert fr == s.f;
    }
    ThreadsStable(s, e, DeqValue(value, hr));
  }

  /** A head that is still current when checked was current throughout, so its tail is not behind it. */
  lemma CheckedHeadKeeps(s: State, e: Event)
    requires Inv(s) && LocalOf(s, e.tid).DeqCheckHead? && LocalOf(s, e.tid).head == s.head
    ensures Inv(Exec(s, e))
  {
    var DeqCheckHead(start, head, hr, tail, tr, next, at) := LocalOf(s, e.tid);
    if head != tail {
      assert hr == s.h <= tr;
      ReadKeeps(s, e, DeqCasHead(start, head, hr, next));
    } else {
      AtTailKeeps(s, e);
    }
  }

  /** Head and tail were read at the same node: the queue is empty, or the tail lags and is helped on. */
  lemma AtTailKeeps(s: State, e: Event)
    requires Inv(s) && LocalOf(s, e.tid).DeqCheckHead? && LocalOf(s, e.tid).head == s.head
    requires LocalOf(s, e.tid).head == LocalOf(s, e.tid).tail
    ensures Inv(Exec(s, e))
  {
    var DeqCheckHead(start, head, hr, tail, tr, next, at) := LocalOf(s, e.tid);
    if next == None {
      ReadKeeps(s, e, DeqNull(start, at));
    } else {
      assert hr == s.h == tr;
      ReadKeeps(s, e, DeqHelpTail(start, tail, tr, next.value));
    }
  }

  lemma CheckHeadKeeps(s: State, e: Event)
    requires Inv(s) && LocalOf(s, e.tid).DeqCheckHead?
    ensures Inv(Exec(s, e))
  {
    if LocalOf(s, e.tid).head == s.head {
      CheckedHeadKeeps(s, e);
    } else {
      ReadKeeps(s, e, DeqReadHead(LocalOf(s, e.tid).start));
    }
  }

  lemma StartKeeps(s: State, e: Event)
    requires Inv(s)
    requires var l := LocalOf(s, e.tid); l.Idle? || l.EnqReadTail?
    ensures Inv(Exec(s, e))
  {
    match LocalOf(s, e.tid) {
      case Idle =>
        if e.call.Enqueue? { AllocKeeps(s, e); } else { ReadKeeps(s, e, DeqReadHead(s.clock)); }
      case EnqReadTail(node) => ReadKeeps(s, e, EnqCasNext(node, s.tail, s.t));
    }
  }

  lemma TryLinkKeeps(s: State, e: Event)
    requires Inv(s) && LocalOf(s, e.tid).EnqCasNext?
    ensures Inv(Exec(s, e))
  {
    var EnqCasNext(node, tail, _) := LocalOf(s, e.tid);
    if s.nodes[tail].next == None { LinkNodeKeeps(s, e); } else { ReadKeeps(s, e, EnqReadTail(node)); }
  }

  lemma EnqueueSwapsKeep(s: State, e: Event)
    requires Inv(s)
    requires var l := LocalOf(s, e.tid); l.EnqCasNext? || l.EnqCasTail?
    ensures Inv(Exec(s, e))
  {
    match LocalOf(s, e.tid) {
      case EnqCasNext(_, _, _) => TryLinkKeeps(s, e);
      case EnqCasTail(node, tail, rank) => SwingTailKeeps(s, e, Idle, tail, rank, node);
    }
  }

  lemma ReadEndsKeeps(s: State, e: Event)
    requires Inv(s)
    requires var l := LocalOf(s, e.tid); l.DeqReadHead? || l.DeqReadTail?
    ensures Inv(Exec(s, e))
  {
    match LocalOf(s, e.tid) {
      case DeqReadHead(start) => ReadKeeps(s, e, DeqReadTail(start, s.head, s.h));
      case DeqReadTail(start, head, hr) => ReadKeeps(s, e, DeqReadNext(start, head, hr, s.tail, s.t));
    }
  }

  lemma ReadNextKeeps(s: State, e: Event)
    requires Inv(s) && LocalOf(s, e.tid).DeqReadNext?
    ensures Inv(Exec(s, e))
  {
    var DeqReadNext(start, head, hr, tail, tr) := LocalOf(s, e.tid);
    assert head == s.chain[hr] && s.nodes[s.chain[hr]] == s.nodes[head];
    ReadKeeps(s, e, DeqCheckHead(start, head, hr, tail, tr, s.nodes[head].next, s.clock));
  }

  lemma ReadValueKeeps(s: State, e: Event)
    requires Inv(s) && LocalOf(s, e.tid).DeqReadValue?
    ensures Inv(Exec(s, e))
  {
    var DeqReadValue(head, hr, node) := LocalOf(s, e.tid);
    assert node == s.chain[hr + 1] && s.nodes[s.chain[hr + 1]].value == s.enq[hr] == s.deq[hr];
    ReadKeeps(s, e, FreeRead(s.nodes[node].value, head, hr));
  }

  lemma DequeueSwapsKeep(s: State, e: Event)
    requires Inv(s)
    requires var l := LocalOf(s, e.tid); l.DeqHelpTail? || l.DeqCasHead?
    ensures Inv(Exec(s, e))
  {
    match LocalOf(s, e.tid) {
      case DeqHelpTail(start, tail, rank, node) => SwingTailKeeps(s, e, DeqReadHead(start), tail, rank, node);
      case DeqCasHead(_, head, _, _) => if s.head == head { CasHeadKeeps(s, e); } else { CasHeadFails(s, e); }
    }
  }

  lemma CasHeadFails(s: State, e: Event)
    requires Inv(s) && LocalOf(s, e.tid).DeqCasHead? && LocalOf(s, e.tid).head != s.head
    ensures Inv(Exec(s, e))
  {
    ReadKeeps(s, e, DeqReadHead(LocalOf(s, e.tid).start));
  }

  lemma LinkFreeFails(s: State, e: Event)
    requires Inv(s) && LocalOf(s, e.tid).FreeCas? && s.nodes[LocalOf(s, e.tid).freed].nextfree != None
    ensures Inv(Exec(s, e))
  {
    var FreeCas(value, head, hr, _, _) := LocalOf(s, e.tid);
    ReadKeeps(s, e, FreeRead(value, head, hr));
  }

  lemma RecycleKeeps(s: State, e: Event)
    requires Inv(s)
    requires var l := LocalOf(s, e.tid); l.FreeRead? || l.FreeCas? || l.FreeSwing?
    ensures Inv(Exec(s, e))
  {
    match LocalOf(s, e.tid) {
      case FreeRead(value, head, hr) => ReadKeeps(s, e, FreeCas(value, head, hr, s.moveFree, s.f));
      case FreeCas(_, _, _, freed, _) =>
        if s.nodes[freed].nextfree == None { LinkFreeKeeps(s, e); } else { LinkFreeFails(s, e); }
      case FreeSwing(_, _, _, _, _) => SwingFreeKeeps(s, e);
    }
  }

  /** Every step of every thread keeps the invariant. */
  lemma StepKeeps(s: State, e: Event)
    requires Inv(s)
    ensures Inv(Exec(s, e))
  {
    var l := LocalOf(s, e.tid);
    if l.Idle? || l.EnqReadTail? {
      StartKeeps(s, e);
    } else if l.EnqCasNext? || l.EnqCasTail? {
      EnqueueSwapsKeep(s, e);
    } else if l.DeqReadHead? || l.DeqReadTail? {
      ReadEndsKeeps(s, e);
    } else if l.DeqReadNext? {
      ReadNextKeeps(s, e);
    } else if l.DeqReadValue? {
      ReadValueKeeps(s, e);
    } else if l.DeqCheckHead? {
      CheckHeadKeeps(s, e);
    } else if l.DeqHelpTail? || l.DeqCasHead? {
      DequeueSwapsKeep(s, e);
    } else if l.FreeRead? || l.FreeCas? || l.FreeSwing? {
      RecycleKeeps(s, e);
    } else {
      ReadKeeps(s, e, Idle);
    }
  }

  lemma {:induction false} InvHolds(sched: seq<Event>)
    ensures Inv(Run(sched)) && Run(sched).clock == |sched|
  {
    if sched != [] {
      InvHolds(sched[..|sched| - 1]);
      StepKeeps(Run(sched[..|sched| - 1]), sched[|sched| - 1]);
    }
  }

  // Main results, over every schedule

  /** First in, first out: the values dequeued are a prefix of the values enqueued. */
  lemma {:induction false} DequeuedArePrefix(sched: seq<Event>)
    ensures Run(sched).deq <= Run(sched).enq
    ensures Run(sched).deq + Queue(Run(sched)) == Run(sched).enq
  {
    InvHolds(sched);
  }

  /** The tail is never behind the head and at most one node short of the end; nothing null is followed. */
  lemma {:induction false} TailFollows(sched: seq<Event>)
    ensures var s := Run(sched);
            && !s.fault && s.h <= s.t < |s.chain| <= s.t + 2
            && s.head == s.chain[s.h] && s.tail == s.chain[s.t]
            && s.tail < |s.nodes|
            && (s.t + 1 < |s.chain| <==> s.nodes[s.tail].next.Some?)
  {
    InvHolds(sched);
    var s := Run(sched);
    assert s.nodes[s.chain[s.t]] == s.nodes[s.tail];
  }

  /**
   * The abstract queue changes only at a successful swap of a next pointer, which appends the value of the mover's
   * node, and at a successful swap of head, which removes the front value; that value is the one the mover goes on to
   * return.
   */
  ghost predicate QueueStep(s: State, s': State, l: Local, l': Local) {
    if l.EnqCasNext? && l'.EnqCasTail? then
      && l.node < |s.nodes| && s'.enq == s.enq + [s.nodes[l.node].value] && s'.deq == s.deq
      && Queue(s') == Queue(s) + [s.nodes[l.node].value]
    else if l.DeqCasHead? && l'.DeqReadValue? then
      && Queue(s) != [] && Queue(s') == Queue(s)[1..] && s'.deq == s.deq + [Queue(s)[0]]
      && s'.enq == s.enq && l'.hr == |s.deq|
    else
      Queue(s') == Queue(s) && s'.enq == s.enq && s'.deq == s.deq
  }

  lemma {:induction false} QueueChanges(sched: seq<Event>, e: Event)
    ensures var s, s' := Run(sched), Run(sched + [e]); QueueStep(s, s', LocalOf(s, e.tid), LocalOf(s', e.tid))
  {
    InvHolds(sched);
    assert (sched + [e])[..|sched + [e]| - 1] == sched;
    var s, l := Run(sched), LocalOf(Run(sched), e.tid);
    if l.EnqCasNext? {
      EnqueueLinearizes(s, e);
    } else if l.DeqCasHead? {
      DequeueLinearizes(s, e);
    } else {
      OthersStutter(s, e);
    }
  }

  lemma OthersStutter(s: State, e: Event)
    requires var l := LocalOf(s, e.tid); !l.EnqCasNext? && !l.DeqCasHead?
    ensures var s' := Exec(s, e); s'.enq == s.enq && s'.h == s.h && s'.deq == s.deq
  {
  }

  lemma EnqueueLinearizes(s: State, e: Event)
    requires Inv(s) && LocalOf(s, e.tid).EnqCasNext?
    ensures QueueStep(s, Exec(s, e), LocalOf(s, e.tid), LocalOf(Exec(s, e), e.tid))
  {
  }

  lemma DequeueLinearizes(s: State, e: Event)
    requires Inv(s) && LocalOf(s, e.tid).DeqCasHead?
    ensures QueueStep(s, Exec(s, e), LocalOf(s, e.tid), LocalOf(Exec(s, e), e.tid))
  {
    var l := LocalOf(s, e.tid);
    if s.head == l.head {
      assert l.hr == s.h;
      assert s.nodes[s.chain[s.h + 1]].value == s.enq[s.h];
    }
  }

  /** A dequeue that returns a value returns the one removed by its own swap of head. */
  lemma {:induction false} ReturnsRemoved(sched: seq<Event>, tid: nat)
    requires LocalOf(Run(sched), tid).DeqValue?
    ensures var s, l := Run(sched), LocalOf(Run(sched), tid); l.hr < |s.deq| && l.value == s.deq[l.hr]
  {
    InvHolds(sched);
  }

  /** A null `next` is read only when the queue is empty. */
  lemma NullReadMeansEmpty(s: State, e: Event)
    requires Inv(s) && LocalOf(s, e.tid).DeqReadNext? && Exec(s, e).threads[e.tid].next == None
    ensures Queue(s) == []
  {
    var l := LocalOf(s, e.tid);
    assert s.nodes[s.chain[l.hr]] == s.nodes[l.head];
  }

  ghost predicate HasReadNull(l: Local) {
    l.DeqNull? || (l.DeqCheckHead? && l.next == None)
  }

  /** A thread comes to have read null by reading it now, or had read it before. */
  lemma NullComesFrom(s: State, e: Event, tid: nat)
    requires HasReadNull(LocalOf(Exec(s, e), tid))
    ensures var l, l' := LocalOf(s, tid), LocalOf(Exec(s, e), tid);
            || (HasReadNull(l) && l.start == l'.start && l.at == l'.at)
            || (tid == e.tid && l.DeqReadNext? && l'.DeqCheckHead? && l'.at == s.clock)
  {
  }

  lemma {:induction false} NullReadDuringCall(sched: seq<Event>, tid: nat)
    requires HasReadNull(LocalOf(Run(sched), tid))
    ensures var l := LocalOf(Run(sched), tid); l.start < l.at < |sched|
  {
    InvHolds(sched);
    assert LocalInv(Run(sched), LocalOf(Run(sched), tid));
  }

  /** Where a thread has read null, the queue was empty at that read, which the call covers. */
  lemma {:induction false} NullWasEmpty(sched: seq<Event>, tid: nat)
    requires HasReadNull(LocalOf(Run(sched), tid))
    ensures var l := LocalOf(Run(sched), tid);
            l.start < l.at < |sched| && Queue(Run(sched[..l.at])) == []
  {
    NullReadDuringCall(sched, tid);
    var before, e := sched[..|sched| - 1], sched[|sched| - 1];
    var l := LocalOf(Run(sched), tid);
    InvHolds(before);
    NullComesFrom(Run(before), e, tid);
    if HasReadNull(LocalOf(Run(before), tid)) && LocalOf(Run(before), tid).at == l.at {
      NullWasEmpty(before, tid);
      assert before[..l.at] == sched[..l.at];
    } else {
      NullReadMeansEmpty(Run(before), e);
      assert sched[..l.at] == before;
    }
  }

  /**
   * Reclamation: a node on the free chain is a node the head has passed, it is there once, and no
   * thread is about to put it there again.
   */
  lemma {:induction false} FreeChainIsRetired(sched: seq<Event>)
    ensures var s := Run(sched);
            && s.h < |s.chain| && Distinct(s.frees)
            && (forall i :: 0 < i < |s.frees| ==> s.frees[i] in s.chain[..s.h] && s.frees[i] !in s.chain[s.h..])
            && (forall tid :: tid in s.threads && s.threads[tid].FreeCas? ==> s.threads[tid].head !in s.frees)
  {
    InvHolds(sched);
    var s := Run(sched);
    FreesDistinct(s);
    forall i | 0 < i < |s.frees|
      ensures s.frees[i] in s.chain[..s.h] && s.frees[i] !in s.chain[s.h..]
    {
      var r := s.retired[i - 1];
      assert s.frees[i] == s.chain[..s.h][r];
      assert forall j :: s.h <= j < |s.chain| ==> s.chain[j] != s.chain[r];
    }
    forall tid | tid in s.threads && s.threads[tid].FreeCas? ensures s.threads[tid].head !in s.frees {
      NotFreed(s, s.threads[tid].hr);
    }
  }
}
