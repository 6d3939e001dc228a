/** The deficit round robin scheduler of src/ld_drr.c. A user is known by its SAC, the index of its entity. */
module Drr {
  import opened Wrappers
  import opened Common
  import opened Sums
  import opened RoundRobin
  import opened LowDeficits
  import opened VisitOrder
  import opened RingList
  import opened Arithmetic

  /** At the end of a call: grants of two users that still ask differ by at most a packet. */
  ghost predicate Even(l: seq<nat>, alloc: seq<nat>, pkt: nat) {
    forall a, b :: 0 <= a < |l| && 0 <= b < |l| && l[a] < |alloc| && l[b] < |alloc| ==> alloc[l[a]] <= alloc[l[b]] + pkt
  }

  /** While a call goes on: grants rise along the list, by at most a packet in all. */
  ghost predicate Rising(l: seq<nat>, alloc: seq<nat>, pkt: nat) {
    && (forall k :: 0 <= k < |l| ==> l[k] < |alloc|)
    && (forall a, b :: 0 <= a < b < |l| ==> alloc[l[a]] <= alloc[l[b]])
    && (forall a :: 0 <= a < |l| ==> alloc[l[a]] <= alloc[l[0]] + pkt)
  }

  lemma RisingIsEven(l: seq<nat>, alloc: seq<nat>, pkt: nat)
    requires Rising(l, alloc, pkt)
    ensures Even(l, alloc, pkt)
  {
    forall a, b | 0 <= a < |l| && 0 <= b < |l| ensures alloc[l[a]] <= alloc[l[b]] + pkt {
      assert alloc[l[0]] <= alloc[l[b]] by { if b > 0 { assert alloc[l[0]] <= alloc[l[b]]; } }
    }
  }

  /** The first user got a whole packet and went to the back. */
  lemma RisingServed(l: seq<nat>, alloc: seq<nat>, pkt: nat, grants: seq<nat>)
    requires Rising(l, alloc, pkt) && |l| > 0 && Distinct(l) && grants == alloc[l[0] := alloc[l[0]] + pkt]
    ensures Rising(l[1..] + [l[0]], grants, pkt)
  {
    var m := l[1..] + [l[0]];
    forall a, b | 0 <= a < b < |m| ensures grants[m[a]] <= grants[m[b]] {
      assert m[a] == l[a + 1] && alloc[l[a + 1]] <= alloc[l[0]] + pkt;
      if b < |l| - 1 { assert m[b] == l[b + 1] && alloc[l[a + 1]] <= alloc[l[b + 1]]; }
    }
    forall a | 0 <= a < |m| ensures grants[m[a]] <= grants[m[0]] + pkt {
      if |l| > 1 { assert alloc[l[0]] <= alloc[l[1]]; }
    }
  }

  /** The first user is done with and leaves. */
  lemma RisingLeft(l: seq<nat>, alloc: seq<nat>, pkt: nat, grants: seq<nat>)
    requires Rising(l, alloc, pkt) && |l| > 0 && Distinct(l)
    requires |grants| == |alloc| && forall i :: 0 <= i < |alloc| && i != l[0] ==> grants[i] == alloc[i]
    ensures Rising(l[1..], grants, pkt)
  {
    var m := l[1..];
    forall a, b | 0 <= a < b < |m| ensures grants[m[a]] <= grants[m[b]] {
      assert alloc[l[a + 1]] <= alloc[l[b + 1]];
    }
    forall a | 0 <= a < |m| ensures grants[m[a]] <= grants[m[0]] + pkt {
      assert alloc[l[a + 1]] <= alloc[l[0]] + pkt && alloc[l[0]] <= alloc[l[1]];
    }
  }

  /** The first user got the last bytes, less than a packet, and stays in front. */
  lemma EvenAtLast(l: seq<nat>, alloc: seq<nat>, pkt: nat, grants: seq<nat>, got: nat)
    requires Rising(l, alloc, pkt) && |l| > 0 && Distinct(l) && got <= pkt && grants == alloc[l[0] := alloc[l[0]] + got]
    ensures Even(l, grants, pkt)
  {
    forall a, b | 0 <= a < |l| && 0 <= b < |l| ensures grants[l[a]] <= grants[l[b]] + pkt {
      assert alloc[l[a]] <= alloc[l[0]] + pkt && (b > 0 ==> alloc[l[0]] <= alloc[l[b]]);
    }
  }

  lemma {:induction false} Pigeonhole(l: seq<nat>, n: nat)
    requires Distinct(l) && forall k :: 0 <= k < |l| ==> l[k] < n
    ensures |l| <= n
  {
    if l != [] {
      assert l[0] < n;
      if n - 1 in l {
        var k :| 0 <= k < |l| && l[k] == n - 1;
        var m := l[..k] + l[k + 1..];
        assert forall j :: 0 <= j < |m| ==> m[j] == l[if j < k then j else j + 1];
        Pigeonhole(m, n - 1);
      } else {
        Pigeonhole(l, n - 1);
      }
    }
  }

  /** The list never fills up while a user is missing from it. */
  lemma RoomForOne(l: seq<nat>, n: nat, i: nat)
    requires Distinct(l) && (forall k :: 0 <= k < |l| ==> l[k] < n) && i < n && i !in l
    ensures |l| < n
  {
    Pigeonhole(l + [i], n);
  }

  /**
   * Deficit and what was granted since the user became active add up to the quanta of its visits, each of which
   * is one of the given packet sizes.
   */
  ghost predicate Account(dc: nat, granted: nat, quanta: seq<nat>, sizes: set<nat>) {
    dc + granted == Sum(quanta) && forall k :: 0 <= k < |quanta| ==> quanta[k] in sizes
  }

  /** With one packet size in all calls: deficit plus grants is that size times the number of visits. */
  lemma FixedPacket(dc: nat, granted: nat, quanta: seq<nat>, pkt: nat)
    requires Account(dc, granted, quanta, {pkt})
    ensures dc + granted == pkt * |quanta|
  {
    SumOfEqual(quanta, pkt);
  }

  /**
   * One visit: something is granted, and as much as the packet size, the deficit and the budget allow. Grants
   * are whole packets but for the end of a request or of the budget, which makes a fragment. A budget that
   * covers the request does not bound the grant.
   */
  ghost predicate Served(dc0: nat, req0: nat, w0: nat, pkt: nat, wmin: nat, got: nat, dc: nat, req: nat, w: nat,
                         frag: bool)
    requires pkt > 0
  {
    && 0 < got <= w0 && w == w0 - got && req + got == req0 && dc + got == dc0 + pkt
    && (req == 0 || dc < pkt || (w <= wmin && w < pkt))
    && (req > 0 ==> (frag <==> got % pkt != 0))
    && (frag ==> w == 0)
    && (dc0 < pkt ==> got <= pkt && (req > 0 && !frag ==> got == pkt))
    && (w0 >= req0 ==> got == Gets(dc0 + pkt, req0, w0, pkt, wmin))
  }

  /** What every turn of the inner loop keeps; `got` of the visit's grant is given. */
  ghost predicate Visiting(dc0: nat, req0: nat, w0: nat, pkt: nat, wmin: nat, got: nat, dc: nat, req: nat, w: nat,
                           frag: bool)
    requires pkt > 0
  {
    && got + w == w0 && req + got == req0 && dc + got == dc0 + pkt && (got == 0 ==> !frag)
    && (req > 0 ==> (frag <==> got % pkt != 0))
    && (frag ==> w == 0)
    && (dc0 < pkt && got > 0 ==> got <= pkt && (req > 0 && !frag ==> got == pkt))
    && (w0 >= req0 ==> got + Gets(dc, req, w, pkt, wmin) == Gets(dc0 + pkt, req0, w0, pkt, wmin))
  }

  lemma {:induction false} VisitTurn(dc0: nat, req0: nat, w0: nat, pkt: nat, wmin: nat, got: nat, dc: nat, req: nat,
                                     w: nat, frag: bool, g: nat, part: bool)
    requires pkt > 0 && req > 0 && dc >= pkt && (w >= pkt || w > wmin) && w0 > wmin
    requires Visiting(dc0, req0, w0, pkt, wmin, got, dc, req, w, frag)
    requires 0 < g == Least(Least(pkt, w), req) && (part <==> w < pkt && req >= w)
    ensures Visiting(dc0, req0, w0, pkt, wmin, got + g, dc - g, req - g, w - g, part)
  {
    if w >= req { GetsStep(dc, req, w, pkt, wmin); }
    if part { PartPacket(got, pkt, w); } else if g == pkt { WholePacket(got, pkt); }
  }

  lemma {:induction false} VisitEnds(dc0: nat, req0: nat, w0: nat, pkt: nat, wmin: nat, got: nat, dc: nat, req: nat,
                                     w: nat, frag: bool)
    requires pkt > 0 && req0 > 0 && w0 > wmin
    requires Visiting(dc0, req0, w0, pkt, wmin, got, dc, req, w, frag)
    requires dc == 0 || req == 0 || dc < pkt || (w < pkt && w <= wmin)
    ensures Served(dc0, req0, w0, pkt, wmin, got, dc, req, w, frag)
  {
    if req > 0 && w >= req { GetsStep(dc, req, w, pkt, wmin); }
  }

  /**
   * The inner loop: one visit of a user with deficit dc0 that asks for req0, with w0 left to give.
   */
  method OneVisit(dc0: nat, req0: nat, w0: nat, pkt: nat, wmin: nat)
    returns (got: nat, dc: nat, req: nat, w: nat, frag: bool)
    requires pkt > 0 && req0 > 0 && w0 > wmin
    ensures Served(dc0, req0, w0, pkt, wmin, got, dc, req, w, frag)
  {
    got, dc, req, w, frag := 0, dc0 + pkt, req0, w0, false;
    while dc > 0 && req > 0
      invariant Visiting(dc0, req0, w0, pkt, wmin, got, dc, req, w, frag)
      decreases req
    {
      var go, g, part := OnePacket(dc, req, w, pkt, wmin);
      if !go {
        break;
      }
      VisitTurn(dc0, req0, w0, pkt, wmin, got, dc, req, w, frag, g, part);
      got, dc, req, w, frag := got + g, dc - g, req - g, w - g, part;
    }
    VisitEnds(dc0, req0, w0, pkt, wmin, got, dc, req, w, frag);
  }

  /** The branches of the inner loop: a packet, the rest of the request, or the rest of the budget. */
  method OnePacket(dc: nat, req: nat, w: nat, pkt: nat, wmin: nat) returns (go: bool, g: nat, part: bool)
    requires pkt > 0 && req > 0
    ensures go <==> dc >= pkt && (w >= pkt || w > wmin)
    ensures go ==> 0 < g == Least(Least(pkt, w), req) && (part <==> w < pkt && req >= w)
    ensures !go ==> g == 0 && !part
  {
    go, g, part := true, 0, false;
    if w >= pkt && dc >= pkt {
      if req >= pkt {
        g := pkt;
      } else {
        g := req;
      }
    } else if w < pkt && w > wmin && dc >= pkt {
      if req >= w {
        g, part := w, true;
      } else {
        g := req;
      }
    } else {
      go := false;
    }
  }

  lemma {:induction false} GetsStep(dc: nat, r: nat, w: nat, pkt: nat, wmin: nat)
    requires pkt > 0 && w >= r > 0
    ensures var g := Least(pkt, r);
      Gets(dc, r, w, pkt, wmin) ==
        if dc < pkt || (w < pkt && w <= wmin) then 0 else g + Gets(dc - g, r - g, w - g, pkt, wmin)
  {
  }

  lemma WholePacket(got: nat, pkt: nat)
    requires pkt > 0
    ensures (got + pkt) % pkt == got % pkt
  {
    DivModUnique(got + pkt, pkt, got / pkt + 1, got % pkt);
  }

  lemma PartPacket(got: nat, pkt: nat, w: nat)
    requires pkt > 0 && got % pkt == 0 && 0 < w < pkt
    ensures (got + w) % pkt == w
  {
    DivModUnique(got + w, pkt, got / pkt, w);
  }

  /** Between calls only users that ask for something wait, though not all of those do. */
  ghost predicate SomeAsking(l: seq<nat>, req: seq<nat>) {
    Distinct(l) && forall k :: 0 <= k < |l| ==> l[k] < |req| && req[l[k]] > 0
  }

  ghost predicate Accounts(l: seq<nat>, dc: seq<nat>, granted: seq<nat>, quanta: seq<seq<nat>>, sizes: set<nat>) {
    && |dc| == |granted| == |quanta|
    && forall k :: 0 <= k < |l| ==> l[k] < |dc| && Account(dc[l[k]], granted[l[k]], quanta[l[k]], sizes)
  }

  ghost predicate Listed(l: seq<nat>, req: seq<nat>, n: nat) {
    SomeAsking(l, req) && n <= |req| && forall i :: 0 <= i < n && req[i] > 0 ==> i in l
  }

  lemma Added(l: seq<nat>, req: seq<nat>, dc: seq<nat>, granted: seq<nat>, quanta: seq<seq<nat>>, sizes: set<nat>,
              i: nat)
    requires SomeAsking(l, req) && Accounts(l, dc, granted, quanta, sizes) && i < |req| == |dc| && req[i] > 0 && i !in l
    ensures SomeAsking(l + [i], req) && Accounts(l + [i], dc[i := 0], granted[i := 0], quanta[i := []], sizes)
  {
  }

  /** Users that joined the list start without a deficit, the others keep theirs. */
  ghost predicate Joined(l0: seq<nat>, l: seq<nat>, dc0: seq<nat>, dc: seq<nat>) {
    && l0 <= l && |dc| == |dc0|
    && forall i :: 0 <= i < |dc| ==> dc[i] == if i in l && i !in l0 then 0 else dc0[i]
  }

  lemma JoinedOne(l0: seq<nat>, l: seq<nat>, dc0: seq<nat>, dc: seq<nat>, i: nat)
    requires Joined(l0, l, dc0, dc) && i < |dc|
    ensures i !in l ==> Joined(l0, l + [i], dc0, dc[i := 0])
  {
  }

  lemma ListedOne(l: seq<nat>, req: seq<nat>, i: nat)
    requires Listed(l, req, i) && i < |req|
    ensures req[i] == 0 || i in l ==> Listed(l, req, i + 1)
    ensures req[i] > 0 && i !in l ==> Listed(l + [i], req, i + 1)
  {
  }

  /** The first n requests are noted in reqSzs. */
  ghost predicate Noted(reqSzs: seq<nat>, req: seq<nat>, n: nat) {
    |reqSzs| == |req| && forall i :: 0 <= i < n <= |req| && req[i] > 0 ==> reqSzs[i] == req[i]
  }

  /** What was granted and what is still asked for make up the request at the start of the call. */
  ghost predicate Balance(orig: seq<nat>, req: seq<nat>, alloc: seq<nat>) {
    |orig| == |req| == |alloc| && forall i :: 0 <= i < |orig| ==> alloc[i] + req[i] == orig[i]
  }

  lemma Balanced(orig: seq<nat>, req: seq<nat>, alloc: seq<nat>, i: nat, got: nat)
    requires Balance(orig, req, alloc) && i < |orig| && got <= req[i]
    ensures Balance(orig, req[i := req[i] - got], alloc[i := alloc[i] + got])
    ensures Sum(req[i := req[i] - got]) == Sum(req) - got && Sum(alloc[i := alloc[i] + got]) == Sum(alloc) + got
  {
    SumUpdate(req, i, req[i] - got);
    SumUpdate(alloc, i, alloc[i] + got);
  }

  lemma AccountsAfter(l: seq<nat>, dc: seq<nat>, granted: seq<nat>, quanta: seq<seq<nat>>, sizes: set<nat>, left: nat,
                      got: nat, pkt: nat,
                      ask: nat, frag: bool, dcs: seq<nat>, gs: seq<nat>, qs: seq<seq<nat>>)
    requires Distinct(l) && Accounts(l, dc, granted, quanta, sizes) && |l| > 0 && left + got == dc[l[0]] + pkt
    requires pkt in sizes
    requires dcs == dc[l[0] := if ask == 0 then 0 else left] && gs == granted[l[0] := granted[l[0]] + got]
    requires qs == quanta[l[0] := quanta[l[0]] + [pkt]]
    ensures Accounts(Requeued(l, ask, frag), dcs, gs, qs, sizes)
  {
    SumPush(quanta[l[0]], pkt);
    var r := Requeued(l, ask, frag);
    forall k | 0 <= k < |r| ensures r[k] < |dcs| && Account(dcs[r[k]], gs[r[k]], qs[r[k]], sizes) {
      var j := if ask > 0 && frag then k else if k + 1 < |l| then k + 1 else 0;
      assert r[k] == l[j] && l[j] < |dc| && Account(dc[l[j]], granted[l[j]], quanta[l[j]], sizes);
    }
  }

  lemma LowAfter(l: seq<nat>, dc: seq<nat>, pkt: nat, left: nat, ask: nat)
    requires Low(l, dc, pkt) && Distinct(l) && |l| > 0 && (ask == 0 || left < pkt)
    ensures Low(Requeued(l, ask, false), dc[l[0] := if ask == 0 then 0 else left], pkt)
  {
  }

  lemma FairAfter(l: seq<nat>, alloc: seq<nat>, pkt: nat, got: nat, ask: nat, frag: bool)
    requires Rising(l, alloc, pkt) && Distinct(l) && |l| > 0 && got <= pkt && (ask > 0 && !frag ==> got == pkt)
    ensures Even(Requeued(l, ask, frag), alloc[l[0] := alloc[l[0]] + got], pkt)
    ensures ask == 0 || !frag ==> Rising(Requeued(l, ask, frag), alloc[l[0] := alloc[l[0]] + got], pkt)
  {
    var grants := alloc[l[0] := alloc[l[0]] + got];
    if ask == 0 {
      RisingLeft(l, alloc, pkt, grants);
      RisingIsEven(l[1..], grants, pkt);
    } else if frag {
      EvenAtLast(l, alloc, pkt, grants, got);
    } else {
      RisingServed(l, alloc, pkt, grants);
      RisingIsEven(l[1..] + [l[0]], grants, pkt);
    }
  }

  /** Nothing is lost: w of w0 is left to grant, and no more than is asked for. */
  ghost predicate Paid(orig: seq<nat>, req: seq<nat>, alloc: seq<nat>, w: nat, w0: nat) {
    Balance(orig, req, alloc) && w <= Sum(req) && Sum(alloc) + w == w0
  }

  /** If deficits were low at the start of the call, grants are even, and while it goes on deficits are low. */
  ghost predicate Fair(low: bool, more: bool, l: seq<nat>, dc: seq<nat>, alloc: seq<nat>, pkt: nat) {
    low ==> Even(l, alloc, pkt) && (more ==> Low(l, dc, pkt) && Rising(l, alloc, pkt))
  }

  lemma PaidStep(orig: seq<nat>, req: seq<nat>, alloc: seq<nat>, w: nat, w0: nat, i: nat, got: nat, asks: seq<nat>,
                 grants: seq<nat>)
    requires Paid(orig, req, alloc, w, w0) && i < |orig| && got <= w && got <= req[i]
    requires asks == req[i := req[i] - got] && grants == alloc[i := alloc[i] + got]
    ensures Paid(orig, asks, grants, w - got, w0) && (grants[i] == orig[i] <==> asks[i] == 0)
  {
    Balanced(orig, req, alloc, i, got);
  }

  lemma FairStep(low: bool, l: seq<nat>, dc: seq<nat>, alloc: seq<nat>, pkt: nat, req0: nat, w: nat, wmin: nat,
                 got: nat,
                 left: nat, ask: nat, rest: nat, frag: bool, dcs: seq<nat>, grants: seq<nat>)
    requires pkt > 0 && |l| > 0 && l[0] < |dc| == |alloc| && Distinct(l)
    requires Fair(low, true, l, dc, alloc, pkt) && Served(dc[l[0]], req0, w, pkt, wmin, got, left, ask, rest, frag)
    requires dcs == dc[l[0] := if ask == 0 then 0 else left] && grants == alloc[l[0] := alloc[l[0]] + got]
    ensures Fair(low, rest > wmin, Requeued(l, ask, frag), dcs, grants, pkt)
  {
    if low {
      FairAfter(l, alloc, pkt, got, ask, frag);
      if rest > wmin { LowAfter(l, dc, pkt, left, ask); }
    }
  }

  lemma ListedAll(l: seq<nat>, req: seq<nat>)
    requires Listed(l, req, |req|)
    ensures ExactlyAsking(l, req)
  {
  }

  /** What the first user of the list had and still asks for is its noted request. */
  lemma Outstanding(l: seq<nat>, orig: seq<nat>, req: seq<nat>, alloc: seq<nat>, reqSzs: seq<nat>)
    requires ExactlyAsking(l, req) && |l| > 0 && Balance(orig, req, alloc) && Noted(reqSzs, orig, |orig|)
    ensures orig[l[0]] == reqSzs[l[0]] == alloc[l[0]] + req[l[0]]
  {
    assert l[0] in l;
  }

  // What a call leaves unserved

  /** The list after the first loop: the users on it, then the others that ask, by SAC. */
  ghost function Activated(l: seq<nat>, req: seq<nat>, n: nat): seq<nat>
    requires n <= |req|
  {
    if n == 0 then l
    else
      var m := Activated(l, req, n - 1);
      if req[n - 1] > 0 && n - 1 !in m then m + [n - 1] else m
  }

  /** The deficits after the first loop: users that joined the list start without one. */
  ghost function StartDc(l0: seq<nat>, l: seq<nat>, dc0: seq<nat>): (dc: seq<nat>)
    ensures Joined(l0, l, dc0, dc) || !(l0 <= l)
  {
    seq(|dc0|, i requires 0 <= i < |dc0| => if i in l && i !in l0 then 0 else dc0[i])
  }

  lemma JoinedIsStart(l0: seq<nat>, l: seq<nat>, dc0: seq<nat>, dc: seq<nat>)
    requires Joined(l0, l, dc0, dc)
    ensures dc == StartDc(l0, l, dc0)
  {
  }

  /** When a call meets every request: the budget covers them all, and the user served last is served whole. */
  ghost predicate Meets(l: seq<nat>, orig: seq<nat>, dc: seq<nat>, pkt: nat, budget: nat, wmin: nat)
    requires pkt > 0 && ExactlyAsking(l, orig) && |dc| == |orig|
  {
    l == [] ||
    var u := l[LastServed(l, orig, dc, pkt)];
    budget >= Sum(orig) && ServedWhole(dc[u], orig[u], pkt, wmin)
  }

  ghost predicate AllMet(req: seq<nat>) {
    forall i :: 0 <= i < |req| ==> req[i] == 0
  }

  /**
   * What is fixed during a call: among it list and deficits after the first loop, and what round robin would leave if
   * the budget covers the requests.
   */
  datatype Call = Call(pkt: nat, wmin: nat, orig: seq<nat>, w0: nat, low: bool, left: nat, l: seq<nat>, start: seq<nat>)

  /** With a budget that covers the requests, a call follows round robin. */
  ghost predicate Follows(c: Call, l: seq<nat>, req: seq<nat>, dc: seq<nat>, w: nat) {
    c.w0 == Sum(c.orig) ==> w == Sum(req) && Leftover(l, req, dc, c.pkt, c.wmin) == c.left
  }

  lemma {:induction false} FollowsStep(c: Call, l: seq<nat>, req: seq<nat>, dc: seq<nat>, w: nat, got: nat, left: nat,
                                       rest: nat, frag: bool, asks: seq<nat>, dcs: seq<nat>)
    requires c.pkt > 0 && ExactlyAsking(l, req) && |l| > 0 && |dc| == |req| && Follows(c, l, req, dc, w) && w > c.wmin
    requires got <= req[l[0]] && asks == req[l[0] := req[l[0]] - got]
    requires dcs == dc[l[0] := if asks[l[0]] == 0 then 0 else left]
    requires Served(dc[l[0]], req[l[0]], w, c.pkt, c.wmin, got, left, asks[l[0]], rest, frag)
    ensures Follows(c, Requeued(l, asks[l[0]], frag), asks, dcs, rest)
  {
    if c.w0 == Sum(c.orig) {
      assert l[0] in l;
      SumBound(req, l[0]);
      LeftoverStep(l, req, dc, c.pkt, c.wmin, got, Turn(l, req, dc, c.pkt, got));
    }
  }

  /** The list is in the order of the visits, and there is no fragment yet if anything is to be granted. */
  ghost predicate Turning(c: Call, l: seq<nat>, req: seq<nat>, dc: seq<nat>, alloc: seq<nat>, w: nat)
    requires c.pkt > 0
  {
    && Ordered(c.l, c.start, c.pkt, l, req, dc, alloc) && (w > 0 ==> AllWhole(c.l, req, alloc, c.pkt))
    && Settled(c.orig, c.start, req, dc)
  }

  /** A turn of the outer loop, as far as list, requests, deficits and grants go. */
  datatype OneTurn = OneTurn(got: nat, left: nat, frag: bool)

  ghost predicate Step(l: seq<nat>, req: seq<nat>, dc: seq<nat>, alloc: seq<nat>, pkt: nat, t: OneTurn, rest: nat,
                       l': seq<nat>, req': seq<nat>, dc': seq<nat>, alloc': seq<nat>)
    requires pkt > 0
  {
    && Given(l, req, dc, alloc, pkt, t.got, t.left, t.frag, l', req', dc', alloc') && (t.frag ==> rest == 0)
  }

  lemma {:induction false} StepIs(l: seq<nat>, req: seq<nat>, dc: seq<nat>, alloc: seq<nat>, w: nat, pkt: nat,
                                  wmin: nat, t: OneTurn, rest: nat, req': seq<nat>, dc': seq<nat>, alloc': seq<nat>)
    requires pkt > 0 && |l| > 0 && |req| == |dc| == |alloc| == |req'| && l[0] < |req|
    requires t.got <= req[l[0]] && req' == req[l[0] := req[l[0]] - t.got]
    requires alloc' == alloc[l[0] := alloc[l[0]] + t.got] && dc' == dc[l[0] := if req'[l[0]] == 0 then 0 else t.left]
    requires Served(dc[l[0]], req[l[0]], w, pkt, wmin, t.got, t.left, req'[l[0]], rest, t.frag)
    ensures Step(l, req, dc, alloc, pkt, t, rest, Requeued(l, req'[l[0]], t.frag), req', dc', alloc')
  {
  }

  lemma {:induction false} TurningStep(c: Call, l: seq<nat>, req: seq<nat>, dc: seq<nat>, alloc: seq<nat>, w: nat,
                                       t: OneTurn, rest: nat, l': seq<nat>, req': seq<nat>, dc': seq<nat>,
                                       alloc': seq<nat>)
    requires c.pkt > 0 && w > 0 && Turning(c, l, req, dc, alloc, w) && Balance(c.orig, req, alloc)
    requires ExactlyAsking(l, req) && Step(l, req, dc, alloc, c.pkt, t, rest, l', req', dc', alloc')
    ensures Turning(c, l', req', dc', alloc', rest)
  {
    assert l[0] in l && c.orig[l[0]] > 0;
    var k: nat, p: nat :| InTurn(c.l, c.start, c.pkt, l, req, dc, alloc, k, p);
    VisitsNext(c.l, c.start, c.pkt, l, req, dc, alloc, k, p, t.got, t.left, t.frag, l', req', dc', alloc');
  }

  /** What every turn of the outer loop keeps, as far as grants go. */
  ghost predicate Going(c: Call, l: seq<nat>, req: seq<nat>, dc: seq<nat>, alloc: seq<nat>, w: nat)
    requires c.pkt > 0
  {
    && Paid(c.orig, req, alloc, w, c.w0) && Fair(c.low, w > c.wmin, l, dc, alloc, c.pkt) && Follows(c, l, req, dc, w)
  }

  lemma {:induction false} GoingStep(c: Call, l: seq<nat>, req: seq<nat>, dc: seq<nat>, alloc: seq<nat>, w: nat,
                                     got: nat,
                                     left: nat, rest: nat, frag: bool, asks: seq<nat>, dcs: seq<nat>, grants: seq<nat>)
    requires c.pkt > 0 && ExactlyAsking(l, req) && |l| > 0 && |req| == |dc| && w > c.wmin
    requires Going(c, l, req, dc, alloc, w) && got <= req[l[0]]
    requires asks == req[l[0] := req[l[0]] - got] && grants == alloc[l[0] := alloc[l[0]] + got]
    requires dcs == dc[l[0] := if asks[l[0]] == 0 then 0 else left]
    requires Served(dc[l[0]], req[l[0]], w, c.pkt, c.wmin, got, left, asks[l[0]], rest, frag)
    ensures Going(c, Requeued(l, asks[l[0]], frag), asks, dcs, grants, rest)
    ensures grants[l[0]] == c.orig[l[0]] <==> asks[l[0]] == 0
  {
    PaidStep(c.orig, req, alloc, w, c.w0, l[0], got, asks, grants);
    FairStep(c.low, l, dc, alloc, c.pkt, req[l[0]], w, c.wmin, got, left, asks[l[0]], rest, frag, dcs, grants);
    FollowsStep(c, l, req, dc, w, got, left, rest, frag, asks, dcs);
  }

  lemma SomebodyWaits(c: Call, l: seq<nat>, req: seq<nat>, dc: seq<nat>, alloc: seq<nat>, w: nat)
    requires c.pkt > 0 && ExactlyAsking(l, req) && Going(c, l, req, dc, alloc, w) && w > 0
    ensures |l| > 0 && l[0] < |req|
  {
    SumPositive(req);
  }

  /** What every turn of the first loop keeps; l0 and dc0 are list and deficits before it. */
  ghost predicate Activating(l0: seq<nat>, dc0: seq<nat>, l: seq<nat>, dc: seq<nat>, req: seq<nat>, reqSzs: seq<nat>,
                             i: nat)
  {
    Listed(l, req, i) && Noted(reqSzs, req, i) && Joined(l0, l, dc0, dc) && i <= |req| && l == Activated(l0, req, i)
  }

  /**
   * What a call leaves, from list, deficits and requests before it: what round robin leaves if the budget covers
   * the requests, and nothing exactly if Meets says so.
   */
  ghost predicate Leaves(l0: seq<nat>, dc0: seq<nat>, orig: seq<nat>, req: seq<nat>, pkt: nat, budget: nat, wmin: nat)
    requires pkt > 0
  {
    var l := Activated(l0, orig, |orig|);
    var start := StartDc(l0, l, dc0);
    && ExactlyAsking(l, orig) && |start| == |orig|
    && (budget >= Sum(orig) ==> Sum(req) == Leftover(l, orig, start, pkt, wmin))
    && (AllMet(req) <==> Meets(l, orig, start, pkt, budget, wmin))
  }

  lemma {:induction false} LeavesExactly(l0: seq<nat>, dc0: seq<nat>, l: seq<nat>, start: seq<nat>, orig: seq<nat>,
                                       req: seq<nat>, alloc: seq<nat>, pkt: nat, budget: nat, wmin: nat)
    requires pkt > 0 && ExactlyAsking(l, orig) && |dc0| == |orig| && Balance(orig, req, alloc) && Sum(alloc) <= budget
    requires l == Activated(l0, orig, |orig|) && start == StartDc(l0, l, dc0)
    requires budget >= Sum(orig) ==> Sum(req) == Leftover(l, orig, start, pkt, wmin)
    ensures Leaves(l0, dc0, orig, req, pkt, budget, wmin)
  {
    MetExactly(l, orig, start, req, alloc, pkt, budget, wmin);
  }

  /** The list after a call, from list, deficits and requests before it: users were visited in turn. */
  ghost predicate LeftInOrder(l0: seq<nat>, dc0: seq<nat>, orig: seq<nat>, pkt: nat, items: seq<nat>, req: seq<nat>,
                              dc: seq<nat>, alloc: seq<nat>)
    requires pkt > 0
  {
    var l := Activated(l0, orig, |orig|);
    Ordered(l, StartDc(l0, l, dc0), pkt, items, req, dc, alloc) && Settled(orig, StartDc(l0, l, dc0), req, dc)
  }

  lemma {:induction false} FragmentsFirst(l: seq<nat>, start: seq<nat>, pkt: nat, items: seq<nat>, orig: seq<nat>,
                                          req: seq<nat>, dc: seq<nat>, alloc: seq<nat>)
    requires pkt > 0 && Ordered(l, start, pkt, items, req, dc, alloc)
    requires ExactlyAsking(l, orig) && Balance(orig, req, alloc)
    ensures forall u :: 0 <= u < |req| && req[u] > 0 && alloc[u] % pkt != 0 ==> items[..1] == [u]
  {
    forall u | 0 <= u < |req| && req[u] > 0 && alloc[u] % pkt != 0 ensures items[..1] == [u] {
      FragmentFirst(l, start, pkt, items, req, dc, alloc, u);
    }
  }

  /** Joiners follow the users on the list by rising SAC. */
  lemma {:induction false} JoinersRise(l: seq<nat>, req: seq<nat>, n: nat)
    requires n <= |req|
    ensures var m := Activated(l, req, n);
      && l <= m && (forall a :: |l| <= a < |m| ==> m[a] < n && req[m[a]] > 0 && m[a] !in l)
      && forall a, b :: |l| <= a < b < |m| ==> m[a] < m[b]
  {
    if n > 0 { JoinersRise(l, req, n - 1); }
  }

  class Scheduler {
    const maxSz: nat
    const active: RingList<nat>
    /** The entities' req_sz and DC, and req_szs. */
    var req: seq<nat>
    var dc: seq<nat>
    var reqSzs: seq<nat>
    /** Since the user was last put on the list: the bytes granted to it and the packet sizes of its visits. */
    ghost var granted: seq<nat>
    ghost var quanta: seq<seq<nat>>
    /** The packet sizes of all calls. */
    ghost var sizes: set<nat>

    ghost predicate Shape()
      reads this, active, active.Repr
    {
      && |req| == |dc| == |reqSzs| == |granted| == |quanta| == maxSz
      && active.Valid() && active.size == maxSz && this !in active.Repr
    }

    ghost predicate Valid()
      reads this, active, active.Repr
    {
      Shape() && SomeAsking(active.items, req) && Accounts(active.items, dc, granted, quanta, sizes)
    }

    constructor (n: nat)
      ensures Valid() && fresh(active.Repr) && maxSz == n && req == seq(n, _ => 0) && active.items == [] && sizes == {}
    {
      maxSz := n;
      active := new RingList(n);
      req, dc, reqSzs := seq(n, _ => 0), seq(n, _ => 0), seq(n, _ => 0);
      granted, quanta, sizes := seq(n, _ => 0), seq(n, _ => []), {};
    }

    /** ld_req_update. */
    method ReqUpdate(sac: nat, n: nat)
      requires Valid() && sac < maxSz
      modifies this`req
      ensures Valid() && req == old(req)[sac := old(req[sac]) + n]
    {
      req := req[sac := req[sac] + n];
    }

    /** Puts user i on the list unless it is there; l0 and dc0 are list and deficits before the loop. */
    method AddActive(i: nat, ghost l0: seq<nat>, ghost dc0: seq<nat>)
      requires Valid() && i < maxSz && req[i] > 0 && Joined(l0, active.items, dc0, dc)
      modifies this`dc, this`granted, this`quanta, active.Repr
      ensures Valid() && fresh(active.Repr - old(active.Repr)) && Joined(l0, active.items, dc0, dc)
      ensures active.items == if i in old(active.items) then old(active.items) else old(active.items) + [i]
    {
      var found := active.CheckExist(i, (a, b) => a == b);
      if !found {
        assert i !in active.items;
        JoinedOne(l0, active.items, dc0, dc, i);
        Join(i);
      }
    }

    method Join(i: nat)
      requires Valid() && i < maxSz && req[i] > 0 && i !in active.items
      modifies this`dc, this`granted, this`quanta, active.Repr
      ensures Valid() && fresh(active.Repr - old(active.Repr))
      ensures active.items == old(active.items) + [i] && dc == old(dc)[i := 0]
    {
      RoomForOne(active.items, maxSz, i);
      Added(active.items, req, dc, granted, quanta, sizes, i);
      dc, granted, quanta := dc[i := 0], granted[i := 0], quanta[i := []];
      var _ := active.PushBack(i);
    }

    method Note(i: nat)
      requires Valid() && i < maxSz
      modifies this`reqSzs
      ensures Valid() && reqSzs == old(reqSzs)[i := req[i]]
    {
      reqSzs := reqSzs[i := req[i]];
    }

    /** One turn of the first loop. */
    method Consider(i: nat, ghost l0: seq<nat>, ghost dc0: seq<nat>)
      requires Valid() && i < maxSz && Activating(l0, dc0, active.items, dc, req, reqSzs, i)
      modifies this`dc, this`reqSzs, this`granted, this`quanta, active.Repr
      ensures Valid() && fresh(active.Repr - old(active.Repr))
      ensures Activating(l0, dc0, active.items, dc, req, reqSzs, i + 1)
    {
      ListedOne(active.items, req, i);
      if req[i] != 0 {
        AddActive(i, l0, dc0);
        Note(i);
      }
    }

    /** The first loop of drr_resource_alloc. */
    method Activate() returns (total: nat)
      requires Valid()
      modifies this`dc, this`reqSzs, this`granted, this`quanta, active.Repr
      ensures Valid() && fresh(active.Repr - old(active.Repr)) && ExactlyAsking(active.items, req)
      ensures Joined(old(active.items), active.items, old(dc), dc) && total == Sum(req)
      ensures Noted(reqSzs, req, maxSz) && active.items == Activated(old(active.items), req, maxSz)
    {
      ghost var l0, dc0 := active.items, dc;
      total := 0;
      var i := 0;
      while i < maxSz
        invariant 0 <= i <= maxSz && Valid() && fresh(active.Repr - old(active.Repr))
        invariant Activating(l0, dc0, active.items, dc, req, reqSzs, i) && total == Sum(req[..i])
      {
        SumStep(req, i);
        Consider(i, l0, dc0);
        total := total + req[i];
        i := i + 1;
      }
      assert req[..i] == req;
      ListedAll(active.items, req);
    }

    method TakeFirst() returns (i: nat)
      requires Shape() && |active.items| > 0
      modifies active.Repr
      ensures Shape() && active.Repr == old(active.Repr) && [i] + active.items == old(active.items)
    {
      var r := active.Pop();
      i := r.value;
    }

    /** A user that still asks goes to the front if it got a fragment, to the back if not. */
    method Requeue(i: nat, frag: bool, ghost l: seq<nat>, ghost ask: nat)
      requires Shape() && l == [i] + active.items && Distinct(l) && (forall k :: 0 <= k < |l| ==> l[k] < maxSz)
      requires ask > 0
      modifies active.Repr
      ensures Shape() && fresh(active.Repr - old(active.Repr)) && active.items == Requeued(l, ask, frag)
    {
      Pigeonhole(l, maxSz);
      if frag {
        var _ := active.PushFront(i);
      } else {
        var _ := active.PushBack(i);
      }
    }

    /** The visit of user i, which was just taken off the list l; it had `had` in this call. */
    method Serve(i: nat, had: nat, pkt: nat, w: nat, wmin: nat, ghost l: seq<nat>)
      returns (got: nat, rest: nat, frag: bool, ghost left: nat)
      requires Shape() && pkt > 0 && pkt in sizes && w > wmin && l == [i] + active.items && i < maxSz
      requires had + req[i] == reqSzs[i]
      requires ExactlyAsking(l, req) && Accounts(l, dc, granted, quanta, sizes)
      modifies this`req, this`dc, this`granted, this`quanta
      ensures Shape() && req == old(req)[i := req[i]] && dc == old(dc)[i := if req[i] == 0 then 0 else left]
      ensures Served(old(dc[i]), old(req[i]), w, pkt, wmin, got, left, req[i], rest, frag)
      ensures ExactlyAsking(Requeued(l, req[i], frag), req)
      ensures Accounts(Requeued(l, req[i], frag), dc, granted, quanta, sizes)
    {
      var deficit, ask;
      got, deficit, ask, rest, frag := OneVisit(dc[i], req[i], w, pkt, wmin);
      left := deficit;
      AskingAfter(l, req, ask, frag);
      assert l[0] == i;
      req, dc := req[i := ask], dc[i := if had + got == reqSzs[i] then 0 else deficit];
      granted, quanta := granted[i := granted[i] + got], quanta[i := quanta[i] + [pkt]];
      AccountsAfter(l, old(dc), old(granted), old(quanta), sizes, left, got, pkt, ask, frag, dc, granted, quanta);
    }

    /** One turn of the outer loop. */
    method Visit(pkt: nat, w: nat, wmin: nat, alloc: seq<nat>, ghost c: Call)
      returns (rest: nat, grants: seq<nat>, ghost t: OneTurn)
      requires Shape() && ExactlyAsking(active.items, req) && Accounts(active.items, dc, granted, quanta, sizes)
      requires c.pkt == pkt > 0 && c.wmin == wmin < w && pkt in sizes && Noted(reqSzs, c.orig, maxSz)
      requires Going(c, active.items, req, dc, alloc, w)
      modifies this`req, this`dc, this`granted, this`quanta, active.Repr
      ensures Shape() && fresh(active.Repr - old(active.Repr))
      ensures ExactlyAsking(active.items, req) && Accounts(active.items, dc, granted, quanta, sizes)
      ensures rest < w && Going(c, active.items, req, dc, grants, rest)
      ensures Step(old(active.items), old(req), old(dc), alloc, pkt, t, rest, active.items, req, dc, grants)
    {
      ghost var l := active.items;
      SomebodyWaits(c, l, req, dc, alloc, w);
      var i := TakeFirst();
      assert l[0] == i;
      var frag;
      rest, grants, frag, t := ServeFirst(i, pkt, w, wmin, alloc, c, l);
      if grants[i] != reqSzs[i] {
        Requeue(i, frag, l, req[i]);
      }
    }

    method ServeFirst(i: nat, pkt: nat, w: nat, wmin: nat, alloc: seq<nat>, ghost c: Call, ghost l: seq<nat>)
      returns (rest: nat, grants: seq<nat>, frag: bool, ghost t: OneTurn)
      requires Shape() && l == [i] + active.items && ExactlyAsking(l, req) && Accounts(l, dc, granted, quanta, sizes)
      requires c.pkt == pkt > 0 && c.wmin == wmin < w && pkt in sizes && Noted(reqSzs, c.orig, maxSz) && i < maxSz
      requires Going(c, l, req, dc, alloc, w)
      modifies this`req, this`dc, this`granted, this`quanta
      ensures Shape() && ExactlyAsking(Requeued(l, req[i], frag), req)
      ensures Accounts(Requeued(l, req[i], frag), dc, granted, quanta, sizes)
      ensures rest < w && Going(c, Requeued(l, req[i], frag), req, dc, grants, rest)
      ensures |grants| == maxSz && (grants[i] == reqSzs[i] <==> req[i] == 0)
      ensures Step(l, old(req), old(dc), alloc, pkt, t, rest, Requeued(l, req[i], frag), req, dc, grants)
    {
      assert l[0] == i;
      Outstanding(l, c.orig, req, alloc, reqSzs);
      var got;
      ghost var left;
      got, rest, frag, left := Serve(i, alloc[i], pkt, w, wmin, l);
      grants := alloc[i := alloc[i] + got];
      t := OneTurn(got, left, frag);
      StepIs(l, old(req), old(dc), alloc, w, pkt, wmin, t, rest, req, dc, grants);
      GoingStep(c, l, old(req), old(dc), alloc, w, got, left, rest, frag, req, dc, grants);
    }

    /** drr_resource_alloc; the result is the alloc_map given to the callback. */
    method ResourceAlloc(pkt: nat, budget: nat, wmin: nat) returns (alloc: seq<nat>)
      requires Valid() && pkt > 0
      modifies this, active.Repr
      ensures Valid() && fresh(active.Repr - old(active.Repr)) && ExactlyAsking(active.items, req)
      ensures Balance(old(req), req, alloc) && sizes == old(sizes) + {pkt}
      ensures Sum(alloc) <= Least(budget, Sum(old(req))) <= Sum(alloc) + wmin
      ensures Least(budget, Sum(old(req))) <= wmin ==> Sum(alloc) == 0
      ensures Low(old(active.items), old(dc), pkt) ==> Even(active.items, alloc, pkt)
      ensures Leaves(old(active.items), old(dc), old(req), req, pkt, budget, wmin)
      ensures forall u :: 0 <= u < |req| && req[u] > 0 && alloc[u] % pkt != 0 ==> active.items[..1] == [u]
      ensures LeftInOrder(old(active.items), old(dc), old(req), pkt, active.items, req, dc, alloc)
    {
      ghost var l, start;
      alloc, l, start := Allocate(pkt, budget, wmin);
      FragmentsFirst(l, start, pkt, active.items, old(req), req, dc, alloc);
      LeavesExactly(old(active.items), old(dc), l, start, old(req), req, alloc, pkt, budget, wmin);
    }

    /** Both loops; l and start are list and deficits between them. */
    method Allocate(pkt: nat, budget: nat, wmin: nat)
      returns (alloc: seq<nat>, ghost l: seq<nat>, ghost start: seq<nat>)
      requires Valid() && pkt > 0
      modifies this, active.Repr
      ensures Valid() && fresh(active.Repr - old(active.Repr)) && ExactlyAsking(active.items, req)
      ensures Balance(old(req), req, alloc) && sizes == old(sizes) + {pkt}
      ensures Sum(alloc) <= Least(budget, Sum(old(req))) <= Sum(alloc) + wmin
      ensures Least(budget, Sum(old(req))) <= wmin ==> Sum(alloc) == 0
      ensures Low(old(active.items), old(dc), pkt) ==> Even(active.items, alloc, pkt)
      ensures |old(req)| == |old(dc)| == maxSz && ExactlyAsking(l, old(req))
      ensures l == Activated(old(active.items), old(req), maxSz) && start == StartDc(old(active.items), l, old(dc))
      ensures budget >= Sum(old(req)) ==> Sum(req) == Leftover(l, old(req), start, pkt, wmin)
      ensures Ordered(l, start, pkt, active.items, req, dc, alloc) && Settled(old(req), start, req, dc)
    {
      ghost var low := Low(active.items, dc, pkt);
      var total;
      total, alloc := Begin(pkt, low);
      l, start := active.items, dc;
      var w := Least(budget, total);
      alloc := Grant(pkt, w, wmin, alloc, Call(pkt, wmin, req, w, low, Leftover(l, req, dc, pkt, wmin), l, dc));
    }

    method Begin(pkt: nat, ghost low: bool) returns (total: nat, alloc: seq<nat>)
      requires Valid() && pkt > 0 && (low ==> Low(active.items, dc, pkt))
      modifies this`dc, this`reqSzs, this`granted, this`quanta, this`sizes, active.Repr
      ensures Shape() && fresh(active.Repr - old(active.Repr)) && sizes == old(sizes) + {pkt}
      ensures ExactlyAsking(active.items, req) && Accounts(active.items, dc, granted, quanta, sizes)
      ensures total == Sum(req) && Balance(req, req, alloc) && Sum(alloc) == 0 && Noted(reqSzs, req, maxSz)
      ensures Fair(low, true, active.items, dc, alloc, pkt)
      ensures active.items == Activated(old(active.items), req, maxSz)
      ensures dc == StartDc(old(active.items), active.items, old(dc))
    {
      sizes := sizes + {pkt};
      total := Activate();
      alloc := seq(maxSz, _ => 0);
      SumZero(alloc);
      Start(low, old(active.items), old(dc), alloc, pkt);
      JoinedIsStart(old(active.items), active.items, old(dc), dc);
    }

    /** One turn of it, with the order of the list. */
    method GrantOne(pkt: nat, w: nat, wmin: nat, alloc: seq<nat>, ghost c: Call) returns (rest: nat, grants: seq<nat>)
      requires Shape() && ExactlyAsking(active.items, req) && Accounts(active.items, dc, granted, quanta, sizes)
      requires c.pkt == pkt > 0 && c.wmin == wmin < w && pkt in sizes && Noted(reqSzs, c.orig, maxSz)
      requires Going(c, active.items, req, dc, alloc, w) && Turning(c, active.items, req, dc, alloc, w)
      modifies this`req, this`dc, this`granted, this`quanta, active.Repr
      ensures Shape() && fresh(active.Repr - old(active.Repr))
      ensures ExactlyAsking(active.items, req) && Accounts(active.items, dc, granted, quanta, sizes)
      ensures rest < w && Going(c, active.items, req, dc, grants, rest)
      ensures Turning(c, active.items, req, dc, grants, rest)
    {
      ghost var l, asks, deficits := active.items, req, dc;
      ghost var t;
      rest, grants, t := Visit(pkt, w, wmin, alloc, c);
      TurningStep(c, l, asks, deficits, alloc, w, t, rest, active.items, req, dc, grants);
    }

    /** The outer loop. */
    method Grant(pkt: nat, w0: nat, wmin: nat, none: seq<nat>, ghost c: Call) returns (alloc: seq<nat>)
      requires Shape() && ExactlyAsking(active.items, req) && Accounts(active.items, dc, granted, quanta, sizes)
      requires Balance(req, req, none) && Sum(none) == 0 && w0 <= Sum(req) && Noted(reqSzs, req, maxSz)
      requires c == Call(pkt, wmin, req, w0, c.low, Leftover(active.items, req, dc, pkt, wmin), active.items, dc)
      requires pkt > 0 && pkt in sizes && Fair(c.low, true, active.items, dc, none, pkt)
      modifies this`req, this`dc, this`granted, this`quanta, active.Repr
      ensures Shape() && fresh(active.Repr - old(active.Repr))
      ensures ExactlyAsking(active.items, req) && Accounts(active.items, dc, granted, quanta, sizes)
      ensures Balance(old(req), req, alloc) && Sum(alloc) <= w0 <= Sum(alloc) + wmin && (w0 <= wmin ==> Sum(alloc) == 0)
      ensures (c.low ==> Even(active.items, alloc, pkt)) && (w0 == Sum(old(req)) ==> Sum(req) == c.left)
      ensures Ordered(c.l, c.start, pkt, active.items, req, dc, alloc) && Settled(old(req), c.start, req, dc)
    {
      OrderedAtStart(active.items, pkt, req, dc, none);
      alloc := none;
      var w: nat := w0;
      while w > wmin
        invariant Shape() && fresh(active.Repr - old(active.Repr))
        invariant ExactlyAsking(active.items, req) && Accounts(active.items, dc, granted, quanta, sizes)
        invariant Going(c, active.items, req, dc, alloc, w) && Turning(c, active.items, req, dc, alloc, w)
        invariant w0 <= wmin ==> w == w0
      {
        w, alloc := GrantOne(pkt, w, wmin, alloc, c);
      }
    }

    lemma Start(low: bool, l0: seq<nat>, dc0: seq<nat>, alloc: seq<nat>, pkt: nat)
      requires pkt > 0 && Joined(l0, active.items, dc0, dc) && |alloc| == |dc| && SomeAsking(active.items, req)
      requires |req| == |dc|
      requires (low ==> Low(l0, dc0, pkt)) && forall i :: 0 <= i < |alloc| ==> alloc[i] == 0
      ensures Fair(low, true, active.items, dc, alloc, pkt)
    {
    }
  }

  lemma {:induction false} BalanceSums(orig: seq<nat>, req: seq<nat>, alloc: seq<nat>)
    requires Balance(orig, req, alloc)
    ensures Sum(alloc) + Sum(req) == Sum(orig)
  {
    var n := |orig| - 1;
    if n >= 0 { BalanceSums(orig[..n], req[..n], alloc[..n]); }
  }

  lemma {:induction false} MetExactly(l: seq<nat>, orig: seq<nat>, dc: seq<nat>, req: seq<nat>, alloc: seq<nat>,
                                      pkt: nat, budget: nat, wmin: nat)
    requires pkt > 0 && ExactlyAsking(l, orig) && |dc| == |orig| && Balance(orig, req, alloc) && Sum(alloc) <= budget
    requires budget >= Sum(orig) ==> Sum(req) == Leftover(l, orig, dc, pkt, wmin)
    ensures AllMet(req) <==> Meets(l, orig, dc, pkt, budget, wmin)
  {
    BalanceSums(orig, req, alloc);
    ZeroSum(req);
    if l == [] {
      SumZero(orig);
    } else {
      assert l[0] in l;
      SumBound(orig, l[0]);
      LastServedDecides(l, orig, dc, pkt, wmin, LastServed(l, orig, dc, pkt));
    }
  }

  lemma {:induction false} ZeroSum(req: seq<nat>)
    ensures AllMet(req) <==> Sum(req) == 0
  {
    forall i | 0 <= i < |req| ensures req[i] <= Sum(req) {
      SumBound(req, i);
    }
    if AllMet(req) { SumZero(req); }
  }

  /**
   * What ResourceAlloc promises about its end. Whatever remains of the budget or of the requests is at most wmin.
   * Every request is met unless at most wmin of the budget is left, exactly if the budget is scarce, or what round
   * robin leaves is nothing or small enough beside the spare budget.
   */
  lemma {:induction false} AtExit(l: seq<nat>, orig: seq<nat>, dc: seq<nat>, req: seq<nat>, alloc: seq<nat>, pkt: nat,
                                  budget: nat, wmin: nat)
    requires Balance(orig, req, alloc) && Sum(alloc) <= Least(budget, Sum(orig)) <= Sum(alloc) + wmin
    requires budget >= Sum(orig) ==> Sum(req) == Leftover(l, orig, dc, pkt, wmin)
    ensures budget - Sum(alloc) <= wmin || Sum(req) <= wmin
    ensures budget <= Sum(orig) || wmin == 0 ==> budget - Sum(alloc) <= wmin || AllMet(req)
    ensures var left := Leftover(l, orig, dc, pkt, wmin);
      (budget - Sum(alloc) <= wmin || AllMet(req) <==>
       budget <= Sum(orig) || left == 0 || budget - Sum(orig) + left <= wmin)
  {
    BalanceSums(orig, req, alloc);
    ZeroSum(req);
  }

  /** If no deficit reached a packet at the start, `left` is known from list, requests, packet size and threshold. */
  lemma {:induction false} AtExitLow(l: seq<nat>, orig: seq<nat>, dc: seq<nat>, req: seq<nat>, alloc: seq<nat>,
                                     pkt: nat, budget: nat, wmin: nat, left: nat)
    requires pkt > 0 && ExactlyAsking(l, orig) && |dc| == |orig| && Low(l, dc, pkt)
    requires Balance(orig, req, alloc) && Sum(alloc) <= Least(budget, Sum(orig)) <= Sum(alloc) + wmin
    requires budget >= Sum(orig) ==> Sum(req) == Leftover(l, orig, dc, pkt, wmin)
    ensures budget >= Sum(orig) ==> (Sum(req) == left <==> IsLeft(l, orig, pkt, wmin, left))
    ensures IsLeft(l, orig, pkt, wmin, left) ==>
      (budget - Sum(alloc) <= wmin || AllMet(req) <==>
       budget <= Sum(orig) || left == 0 || budget - Sum(orig) + left <= wmin)
  {
    LowLeftover(l, orig, dc, pkt, wmin, left);
    AtExit(l, orig, dc, req, alloc, pkt, budget, wmin);
  }

  /** The order decides: of two requests of at most a packet the one served second is left if within the threshold. */
  lemma {:induction false} SecondIsLeft(i: nat, j: nat, req: seq<nat>, pkt: nat, wmin: nat)
    requires |req| == 2 && i < 2 && j < 2 && i != j && 0 < req[i] <= pkt && 0 < req[j] <= pkt && Sum(req) > wmin
    ensures Leftover([i, j], req, [0, 0], pkt, wmin) == if req[j] <= wmin then req[j] else 0
  {
    SumOfTwo(req);
    FirstGoes([i, j], req, [0, 0], pkt, wmin);
    var asks := req[i := 0];
    SumOfTwo(asks);
    if req[j] > wmin {
      FirstGoes([j], asks, [0, 0], pkt, wmin);
      SumOfTwo(asks[j := 0]);
    }
  }

  lemma {:induction false} FirstGoes(l: seq<nat>, req: seq<nat>, dc: seq<nat>, pkt: nat, wmin: nat)
    requires |l| > 0 && |dc| == |req| && l[0] < |req| && dc[l[0]] == 0 && 0 < req[l[0]] <= pkt && Sum(req) > wmin
    ensures Leftover(l, req, dc, pkt, wmin) == Leftover(l[1..], req[l[0] := 0], dc, pkt, wmin)
  {
    var r := req[l[0]];
    SumBound(req, l[0]);
    assert Gets(pkt, r, Sum(req), pkt, wmin) == r;
    LeftoverStep(l, req, dc, pkt, wmin, r, Turn(l, req, dc, pkt, r));
    assert dc[l[0] := 0] == dc;
  }

  lemma {:induction false} SumOfTwo(s: seq<nat>)
    requires |s| == 2
    ensures Sum(s) == s[0] + s[1]
  {
    SumStep(s, 0);
    SumStep(s, 1);
    assert s[..2] == s && s[..0] == [];
  }

  /** A request below the threshold is not served, however large the budget. */
  method Stranded() returns (alloc: seq<nat>, req: seq<nat>)
    ensures alloc == [0] && req == [5]
  {
    var s := new Scheduler(1);
    s.ReqUpdate(0, 5);
    ghost var orig := s.req;
    SumPush([], 5);
    assert orig == [] + [5];
    alloc := s.ResourceAlloc(10, 100, 5);
    req := s.req;
    NothingGiven(orig, req, alloc);
  }

  lemma {:induction false} NothingGiven(orig: seq<nat>, req: seq<nat>, alloc: seq<nat>)
    requires Balance(orig, req, alloc) && Sum(alloc) == 0
    ensures req == orig && forall i :: 0 <= i < |alloc| ==> alloc[i] == 0
  {
    ZeroSum(alloc);
    assert AllMet(alloc);
  }
}
