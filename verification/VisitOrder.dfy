/**
 * The order in which the scheduler of src/ld_drr.c leaves its list: what a call does to it in terms of the list it
 * started from, how often each user was visited, and who was given a fragment.
 */
module VisitOrder {
  import opened Common
  import opened Arithmetic
  import opened RoundRobin
  import opened LowDeficits

  /** After v visits a user's deficit and grant are what it started with and v packet sizes. */
  ghost predicate Visited(start: nat, pkt: nat, v: nat, dc: nat, grant: nat) {
    dc + grant == start + pkt * v
  }

  lemma VisitedOnceMore(start: nat, pkt: nat, v: nat, dc: nat, grant: nat, dc': nat, got: nat)
    requires Visited(start, pkt, v, dc, grant) && dc' + got == dc + pkt
    ensures Visited(start, pkt, v + 1, dc', grant + got)
  {
    assert pkt * (v + 1) == pkt * v + pkt;
  }

  ghost predicate Whole(grant: nat, pkt: nat)
    requires pkt > 0
  {
    grant % pkt == 0
  }

  lemma WholeSum(grant: nat, got: nat, pkt: nat)
    requires pkt > 0 && Whole(grant, pkt)
    ensures Whole(grant + got, pkt) <==> Whole(got, pkt)
  {
    AddMultiple(got, pkt, grant / pkt);
    assert grant == pkt * (grant / pkt);
  }

  ghost predicate Fitting(l: seq<nat>, start: seq<nat>, req: seq<nat>, dc: seq<nat>, alloc: seq<nat>) {
    |req| == |dc| == |alloc| == |start| && Distinct(l) && forall j :: 0 <= j < |l| ==> l[j] < |req|
  }

  /**
   * After k rounds over the list l and one more visit of its first p users, of which those that have all they asked
   * for are left out. A user with a fragment was visited and is still the next.
   */
  ghost predicate InTurn(l: seq<nat>, start: seq<nat>, pkt: nat, items: seq<nat>, req: seq<nat>, dc: seq<nat>,
                         alloc: seq<nat>, k: nat, p: nat)
    requires pkt > 0 && Fitting(l, start, req, dc, alloc)
  {
    && p <= |l| && items == Asking(l[p..] + l[..p], req)
    && forall j :: 0 <= j < |l| && req[l[j]] > 0 ==>
         var u := l[j];
         && (Whole(alloc[u], pkt) || j == p)
         && Visited(start[u], pkt, k + if j < p || !Whole(alloc[u], pkt) then 1 else 0, dc[u], alloc[u])
  }

  /** Users that have all they asked for have no deficit any more, and those that did not ask keep theirs. */
  ghost predicate Settled(orig: seq<nat>, start: seq<nat>, req: seq<nat>, dc: seq<nat>) {
    && |orig| == |req| == |dc| == |start|
    && forall i :: 0 <= i < |req| && req[i] == 0 ==> dc[i] == if orig[i] > 0 then 0 else start[i]
  }

  /** The list a call leaves follows from the list after its first loop, the visits and who has a fragment. */
  ghost predicate Ordered(l: seq<nat>, start: seq<nat>, pkt: nat, items: seq<nat>, req: seq<nat>, dc: seq<nat>,
                          alloc: seq<nat>)
    requires pkt > 0
  {
    && Fitting(l, start, req, dc, alloc)
    && exists k: nat, p: nat :: InTurn(l, start, pkt, items, req, dc, alloc, k, p)
  }

  // Lists of users that still ask

  lemma {:induction false} AskingJoins(a: seq<nat>, b: seq<nat>, req: seq<nat>)
    ensures Asking(a + b, req) == Asking(a, req) + Asking(b, req)
  {
    if a == [] {
      assert a + b == b;
    } else {
      assert (a + b)[1..] == a[1..] + b;
      AskingJoins(a[1..], b, req);
    }
  }

  lemma {:induction false} AskingMembers(l: seq<nat>, req: seq<nat>, u: nat)
    ensures u in Asking(l, req) <==> u in l && u < |req| && req[u] > 0
  {
    if l != [] {
      AskingMembers(l[1..], req, u);
      assert u in l <==> u == l[0] || u in l[1..];
    }
  }

  /** The list depends on who still asks only. */
  lemma {:induction false} AskingSame(l: seq<nat>, req: seq<nat>, req': seq<nat>)
    requires |req| == |req'| && forall i :: 0 <= i < |req| ==> (req[i] > 0 <==> req'[i] > 0)
    ensures Asking(l, req') == Asking(l, req)
  {
    if l != [] { AskingSame(l[1..], req, req'); }
  }

  /** From place p on: the first user that still asks. */
  lemma {:induction false} FirstAsking(l: seq<nat>, req: seq<nat>, p: nat) returns (q: nat)
    requires p <= |l| && forall j :: 0 <= j < |l| ==> l[j] < |req|
    ensures p <= q <= |l| && forall j :: p <= j < q ==> req[l[j]] == 0
    ensures q < |l| ==> req[l[q]] > 0 && |Asking(l[p..], req)| > 0 && Asking(l[p..], req)[0] == l[q]
    ensures Asking(l[p..], req) == Asking(l[q..], req) && Asking(l[p..q], req) == []
    decreases |l| - p
  {
    if p == |l| || req[l[p]] > 0 {
      q := p;
    } else {
      assert l[p..][1..] == l[p + 1..];
      q := FirstAsking(l, req, p + 1);
      assert l[p..q] == [l[p]] + l[p + 1..q];
      assert l[p..q][1..] == l[p + 1..q];
    }
  }

  /** Of those before it in the round each had a visit more. */
  function Rounds(k: nat, p: nat, j: nat): nat {
    k + if j < p then 1 else 0
  }

  /** The user that is due next, and the count of rounds at its turn. */
  lemma {:induction false} DueNext(l: seq<nat>, req: seq<nat>, k: nat, p: nat) returns (k': nat, q: nat)
    requires p <= |l| && (forall j :: 0 <= j < |l| ==> l[j] < |req|) && Asking(l[p..] + l[..p], req) != []
    ensures q < |l| && req[l[q]] > 0 && Queue(l, req, q) == Asking(l[p..] + l[..p], req)
    ensures forall j :: 0 <= j < |l| && req[l[j]] > 0 ==> Rounds(k', q, j) == Rounds(k, p, j)
  {
    AskingJoins(l[p..], l[..p], req);
    q := FirstAsking(l, req, p);
    k' := k;
    if q < |l| {
      assert l[..q] == l[..p] + l[p..q];
      AskingJoins(l[..p], l[p..q], req);
    } else {
      k' := k + 1;
      q := FirstAsking(l, req, 0);
      assert l[0..q] == l[..q] && l[0..] == l;
      WrappedQueue(l, req, p, q);
    }
  }

  lemma {:induction false} WrappedQueue(l: seq<nat>, req: seq<nat>, p: nat, q: nat)
    requires p <= |l| && q <= |l| && Asking(l[p..], req) == [] && Asking(l[..q], req) == []
    requires Asking(l[q..], req) == Asking(l[0..], req)
    ensures Queue(l, req, q) == Asking(l[p..], req) + Asking(l[..p], req)
  {
    assert l[0..] == l == l[..p] + l[p..];
    AskingJoins(l[..p], l[p..], req);
  }

  // A visit

  /** As long as there is something to grant nobody has a fragment. */
  ghost predicate AllWhole(l: seq<nat>, req: seq<nat>, alloc: seq<nat>, pkt: nat)
    requires pkt > 0
  {
    forall j :: 0 <= j < |l| && l[j] < |req| && l[j] < |alloc| && req[l[j]] > 0 ==> Whole(alloc[l[j]], pkt)
  }

  /** The first user of the list got some bytes; it goes to the back unless it has a fragment or all it asked for. */
  ghost predicate Given(items: seq<nat>, req: seq<nat>, dc: seq<nat>, alloc: seq<nat>, pkt: nat, got: nat, left: nat,
                        frag: bool, items': seq<nat>, req': seq<nat>, dc': seq<nat>, alloc': seq<nat>)
    requires pkt > 0
  {
    && |items| > 0 && |req| == |dc| == |alloc| && items[0] < |req| && got <= req[items[0]]
    && var h := items[0]; var ask := req[h] - got;
    && items' == Requeued(items, ask, frag) && req' == req[h := ask] && alloc' == alloc[h := alloc[h] + got]
    && dc' == dc[h := if ask == 0 then 0 else left] && left + got == dc[h] + pkt
    && (ask > 0 ==> (frag <==> !Whole(got, pkt)))
  }

  lemma {:induction false} VisitsNext(l: seq<nat>, start: seq<nat>, pkt: nat, items: seq<nat>, req: seq<nat>,
                                      dc: seq<nat>, alloc: seq<nat>, k: nat, p: nat, got: nat, left: nat, frag: bool,
                                      items': seq<nat>, req': seq<nat>, dc': seq<nat>, alloc': seq<nat>)
    requires pkt > 0 && Fitting(l, start, req, dc, alloc) && InTurn(l, start, pkt, items, req, dc, alloc, k, p)
    requires AllWhole(l, req, alloc, pkt)
    requires Given(items, req, dc, alloc, pkt, got, left, frag, items', req', dc', alloc')
    ensures Fitting(l, start, req', dc', alloc') && Ordered(l, start, pkt, items', req', dc', alloc')
    ensures !frag ==> AllWhole(l, req', alloc', pkt)
  {
    var k', q := DueNext(l, req, k, p);
    QueueNext(l, req, q, req[l[q]] - got);
    assert items[0] == l[q];
    WholeSum(alloc[l[q]], got, pkt);
    if frag && req'[l[q]] > 0 {
      Stays(l, start, pkt, items, req, dc, alloc, k, p, k', q, got, left, items', req', dc', alloc');
    } else {
      Goes(l, start, pkt, items, req, dc, alloc, k, p, k', q, got, left, frag, items', req', dc', alloc');
    }
  }

  lemma {:induction false} Stays(l: seq<nat>, start: seq<nat>, pkt: nat, items: seq<nat>, req: seq<nat>, dc: seq<nat>,
                                 alloc: seq<nat>, k: nat, p: nat, k': nat, q: nat, got: nat, left: nat,
                                 items': seq<nat>, req': seq<nat>, dc': seq<nat>, alloc': seq<nat>)
    requires pkt > 0 && Fitting(l, start, req, dc, alloc) && InTurn(l, start, pkt, items, req, dc, alloc, k, p)
    requires AllWhole(l, req, alloc, pkt) && q < |l| && |items| > 0 && l[q] == items[0] && Queue(l, req, q) == items
    requires Given(items, req, dc, alloc, pkt, got, left, true, items', req', dc', alloc') && req'[l[q]] > 0
    requires forall j :: 0 <= j < |l| && req[l[j]] > 0 ==> Rounds(k', q, j) == Rounds(k, p, j)
    requires !Whole(alloc'[l[q]], pkt)
    ensures Fitting(l, start, req', dc', alloc') && InTurn(l, start, pkt, items', req', dc', alloc', k', q)
  {
    AskingSame(l[q..] + l[..q], req, req');
    AskingJoins(l[q..], l[..q], req);
    forall j | 0 <= j < |l| && req'[l[j]] > 0
      ensures (Whole(alloc'[l[j]], pkt) || j == q)
      ensures Visited(start[l[j]], pkt, k' + if j < q || !Whole(alloc'[l[j]], pkt) then 1 else 0,
                      dc'[l[j]], alloc'[l[j]])
    {
      assert Rounds(k', q, j) == Rounds(k, p, j);
      if j == q { VisitedOnceMore(start[l[j]], pkt, k', dc[l[j]], alloc[l[j]], left, got); }
    }
  }

  lemma {:induction false} Goes(l: seq<nat>, start: seq<nat>, pkt: nat, items: seq<nat>, req: seq<nat>, dc: seq<nat>,
                                alloc: seq<nat>, k: nat, p: nat, k': nat, q: nat, got: nat, left: nat, frag: bool,
                                items': seq<nat>, req': seq<nat>, dc': seq<nat>, alloc': seq<nat>)
    requires pkt > 0 && Fitting(l, start, req, dc, alloc) && InTurn(l, start, pkt, items, req, dc, alloc, k, p)
    requires AllWhole(l, req, alloc, pkt) && q < |l| && |items| > 0 && l[q] == items[0]
    requires Queue(l, req', q + 1) == items'
    requires Given(items, req, dc, alloc, pkt, got, left, frag, items', req', dc', alloc') && req[l[q]] > 0
    requires forall j :: 0 <= j < |l| && req[l[j]] > 0 ==> Rounds(k', q, j) == Rounds(k, p, j)
    requires req'[l[q]] > 0 ==> Whole(alloc'[l[q]], pkt)
    ensures Fitting(l, start, req', dc', alloc') && InTurn(l, start, pkt, items', req', dc', alloc', k', q + 1)
  {
    AskingJoins(l[q + 1..], l[..q + 1], req');
    forall j | 0 <= j < |l| && req'[l[j]] > 0
      ensures Whole(alloc'[l[j]], pkt)
      ensures Visited(start[l[j]], pkt, k' + if j < q + 1 then 1 else 0, dc'[l[j]], alloc'[l[j]])
    {
      assert Rounds(k', q, j) == Rounds(k, p, j);
      if j == q { VisitedOnceMore(start[l[j]], pkt, k', dc[l[j]], alloc[l[j]], left, got); }
    }
  }

  // What the order says

  /** At the start everybody is due in the order of the list. */
  lemma {:induction false} OrderedAtStart(l: seq<nat>, pkt: nat, req: seq<nat>, dc: seq<nat>, alloc: seq<nat>)
    requires pkt > 0 && ExactlyAsking(l, req) && |dc| == |req| == |alloc|
    requires forall i :: 0 <= i < |alloc| ==> alloc[i] == 0
    ensures Ordered(l, dc, pkt, l, req, dc, alloc) && AllWhole(l, req, alloc, pkt)
  {
    forall j | 0 <= j < |l| ensures l[j] < |req| && req[l[j]] > 0 { assert l[j] in l; }
    WholeRotation(l, req);
    assert InTurn(l, dc, pkt, l, req, dc, alloc, 0, 0);
  }

  lemma WholeRotation(l: seq<nat>, req: seq<nat>)
    requires forall k :: 0 <= k < |l| ==> l[k] < |req| && req[l[k]] > 0
    ensures Asking(l[0..] + l[..0], req) == l
  {
    assert l[0..] + l[..0] == l;
    AskingAll(l, req);
  }

  /** A user with a fragment that still asks is first. */
  lemma {:induction false} FragmentFirst(l: seq<nat>, start: seq<nat>, pkt: nat, items: seq<nat>, req: seq<nat>,
                                         dc: seq<nat>, alloc: seq<nat>, u: nat)
    requires pkt > 0 && Ordered(l, start, pkt, items, req, dc, alloc)
    requires u in l && u < |req| && req[u] > 0 && alloc[u] % pkt != 0
    ensures |items| > 0 && items[0] == u
  {
    var k: nat, p: nat :| InTurn(l, start, pkt, items, req, dc, alloc, k, p);
    var j :| 0 <= j < |l| && l[j] == u;
    assert j == p;
    HeadAsks(l, p, req);
  }

  lemma {:induction false} HeadAsks(l: seq<nat>, p: nat, req: seq<nat>)
    requires p < |l| && l[p] < |req| && req[l[p]] > 0
    ensures |Asking(l[p..] + l[..p], req)| > 0 && Asking(l[p..] + l[..p], req)[0] == l[p]
  {
    assert (l[p..] + l[..p])[0] == l[p];
  }
}
