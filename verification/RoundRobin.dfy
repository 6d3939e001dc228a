/**
 * What the scheduler of src/ld_drr.c amounts to when its budget covers all requests: users take turns, and
 * a turn grants packets as far as the deficit allows, until at most the threshold is asked for.
 */
module Sums {

  ghost function Sum(s: seq<nat>): (r: nat) {
    if s == [] then 0 else Sum(s[..|s| - 1]) + s[|s| - 1]
  }

  lemma {:induction false} SumPush(s: seq<nat>, x: nat)
    ensures Sum(s + [x]) == Sum(s) + x
  {
    assert (s + [x])[..|s|] == s;
  }

  lemma SumStep(s: seq<nat>, k: nat)
    requires k < |s|
    ensures Sum(s[..k + 1]) == Sum(s[..k]) + s[k]
  {
    assert s[..k + 1][..k] == s[..k];
  }

  lemma {:induction false} SumUpdate(s: seq<nat>, i: nat, v: nat)
    requires i < |s|
    ensures Sum(s[i := v]) + s[i] == Sum(s) + v
  {
    var n := |s| - 1;
    if i == n {
      assert s[i := v][..n] == s[..n];
    } else {
      SumUpdate(s[..n], i, v);
      assert s[i := v][..n] == s[..n][i := v];
    }
  }

  lemma {:induction false} SumPositive(s: seq<nat>)
    requires Sum(s) > 0
    ensures exists i :: 0 <= i < |s| && s[i] > 0
  {
    var n := |s| - 1;
    if s[n] == 0 {
      SumPositive(s[..n]);
      var i :| 0 <= i < n && s[..n][i] > 0;
      assert s[i] > 0;
    }
  }

  lemma {:induction false} SumBound(s: seq<nat>, i: nat)
    requires i < |s|
    ensures s[i] <= Sum(s)
  {
    if i < |s| - 1 { SumBound(s[..|s| - 1], i); }
  }

  lemma {:induction false} SumZero(s: seq<nat>)
    requires forall i :: 0 <= i < |s| ==> s[i] == 0
    ensures Sum(s) == 0
  {
    if s != [] { SumZero(s[..|s| - 1]); }
  }

  /** Equal quanta add up to a product. */
  lemma {:induction false} SumOfEqual(s: seq<nat>, p: nat)
    requires forall i :: 0 <= i < |s| ==> s[i] == p
    ensures Sum(s) == p * |s|
  {
    if s != [] { SumOfEqual(s[..|s| - 1], p); }
  }
}

module RoundRobin {
  import opened Common
  import opened Arithmetic
  import opened Sums

  /** The users waiting to be served: each once, and exactly those that ask for something. */
  ghost predicate ExactlyAsking(l: seq<nat>, req: seq<nat>) {
    && Distinct(l) && (forall k :: 0 <= k < |l| ==> l[k] < |req|)
    && forall i :: 0 <= i < |req| ==> (i in l <==> req[i] > 0)
  }

  /** No deficit on the list reaches a packet. */
  ghost predicate Low(l: seq<nat>, dc: seq<nat>, pkt: nat) {
    forall k :: 0 <= k < |l| ==> l[k] < |dc| && dc[l[k]] < pkt
  }

  /** The list after a visit of its first user, which then asks for `ask`. */
  ghost function Requeued(l: seq<nat>, ask: nat, frag: bool): seq<nat>
    requires |l| > 0
  {
    if ask == 0 then l[1..] else if frag then l else l[1..] + [l[0]]
  }

  lemma AskingAfter(l: seq<nat>, req: seq<nat>, ask: nat, frag: bool)
    requires ExactlyAsking(l, req) && |l| > 0
    ensures ExactlyAsking(Requeued(l, ask, frag), req[l[0] := ask])
  {
    assert l == [l[0]] + l[1..];
  }

  // One visit

  /** What a visit grants of r bytes with deficit dc, the new packet included, and w bytes left to grant. */
  ghost function Gets(dc: nat, r: nat, w: nat, pkt: nat, wmin: nat): (g: nat)
    requires pkt > 0
    ensures g <= r && g <= w && g <= dc
    decreases r
  {
    if dc < pkt || r == 0 || w < Least(pkt, r) || (w < pkt && w <= wmin) then 0
    else Least(pkt, r) + Gets(dc - Least(pkt, r), r - Least(pkt, r), w - Least(pkt, r), pkt, wmin)
  }

  /** What the deficit alone allows. */
  ghost function Quota(dc: nat, r: nat, pkt: nat): (g: nat)
    requires pkt > 0
    ensures g <= r && g <= dc && (dc >= pkt && r > 0 ==> g > 0)
    decreases r
  {
    if dc < pkt || r == 0 then 0
    else Least(pkt, r) + Quota(dc - Least(pkt, r), r - Least(pkt, r), pkt)
  }

  /** In closed form: the whole packets in the deficit, or the request. */
  lemma {:induction false} QuotaIs(dc: nat, r: nat, pkt: nat)
    requires pkt > 0
    ensures Quota(dc, r, pkt) == Least(r, dc / pkt * pkt)
    decreases r
  {
    if dc < pkt {
      NoPacket(dc, pkt);
    } else if r > 0 {
      PacketLess(dc, pkt);
      if r > pkt { QuotaIs(dc - pkt, r - pkt, pkt); }
    }
  }

  lemma NoPacket(dc: nat, pkt: nat)
    requires dc < pkt
    ensures dc / pkt * pkt == 0
  {
    DivModUnique(dc, pkt, 0, dc);
  }

  lemma PacketLess(dc: nat, pkt: nat)
    requires 0 < pkt <= dc
    ensures dc / pkt * pkt == (dc - pkt) / pkt * pkt + pkt && (dc - pkt) / pkt * pkt >= 0
  {
    AddMultiple(dc - pkt, pkt, 1);
    OneMore(dc / pkt, pkt);
  }

  /** The last packet a request of r bytes takes. */
  ghost function Piece(r: nat, pkt: nat): (p: nat)
    requires pkt > 0
    ensures p <= r && p <= pkt && (r > 0 ==> p > 0)
  {
    if r <= pkt then r else Piece(r - pkt, pkt)
  }

  /** A visit grants its quota, or the threshold stops it with the last packet still to come. */
  lemma {:induction false} GetsOrStops(dc: nat, r: nat, w: nat, pkt: nat, wmin: nat)
    requires pkt > 0 && w >= r
    ensures var g := Gets(dc, r, w, pkt, wmin);
      g == Quota(dc, r, pkt) || (g < r && w - g < pkt && w - g <= wmin && Piece(r - g, pkt) == Piece(r, pkt))
    decreases r
  {
    if dc >= pkt && r > 0 && (w >= pkt || w > wmin) {
      var g := Least(pkt, r);
      GetsOrStops(dc - g, r - g, w - g, pkt, wmin);
    }
  }

  lemma {:induction false} QuotaKeepsPiece(dc: nat, r: nat, pkt: nat)
    requires pkt > 0 && Quota(dc, r, pkt) < r
    ensures Piece(r - Quota(dc, r, pkt), pkt) == Piece(r, pkt) && dc - Quota(dc, r, pkt) < pkt
    decreases r
  {
    if dc >= pkt { QuotaKeepsPiece(dc - pkt, r - pkt, pkt); }
  }

  /** A visit that grants all that is asked for by anybody was not stopped before its last packet. */
  lemma {:induction false} WholeVisit(dc: nat, r: nat, pkt: nat, wmin: nat)
    requires pkt > 0 && r > 0 && Gets(dc, r, r, pkt, wmin) == r
    ensures Piece(r, pkt) == pkt || Piece(r, pkt) > wmin
    decreases r
  {
    if r > pkt { WholeVisit(dc - pkt, r - pkt, pkt, wmin); }
  }

  // Several visits

  /** The number of visits of a user with deficit dc that asks for r bytes, and what it asks for at the last. */
  ghost function Visits(dc: nat, r: nat, pkt: nat): nat
    requires pkt > 0
    decreases r
  {
    if r == 0 then 0
    else
      var q := Quota(dc + pkt, r, pkt);
      1 + Visits(dc + pkt - q, r - q, pkt)
  }

  ghost function LastAsk(dc: nat, r: nat, pkt: nat): (a: nat)
    requires pkt > 0
    ensures a <= r && (r > 0 ==> a > 0)
    decreases r
  {
    if r == 0 then 0
    else
      var q := Quota(dc + pkt, r, pkt);
      if q == r then r else LastAsk(dc + pkt - q, r - q, pkt)
  }

  /** With a deficit below a packet: ceil(r / pkt) visits, and the last asks for what the others leave. */
  lemma {:induction false} LowVisits(dc: nat, r: nat, pkt: nat)
    requires pkt > 0 && dc < pkt && r > 0
    ensures Visits(dc, r, pkt) == (r + pkt - 1) / pkt && LastAsk(dc, r, pkt) == Piece(r, pkt)
    ensures r == (Visits(dc, r, pkt) - 1) * pkt + Piece(r, pkt)
  {
    PieceIsRest(dc, r, pkt);
    CeilOf(r, Visits(dc, r, pkt), Piece(r, pkt), pkt);
  }

  lemma CeilOf(r: nat, v: int, p: nat, pkt: nat)
    requires r == (v - 1) * pkt + p && 0 < p <= pkt
    ensures (r + pkt - 1) / pkt == v
  {
    assert r + pkt - 1 == pkt * v + (p - 1);
    DivModUnique(r + pkt - 1, pkt, v, p - 1);
  }

  lemma OneMore(v: int, pkt: nat)
    ensures v * pkt == (v - 1) * pkt + pkt
  {
  }

  lemma {:induction false} PieceIsRest(dc: nat, r: nat, pkt: nat)
    requires pkt > 0 && dc < pkt && r > 0
    ensures r == (Visits(dc, r, pkt) - 1) * pkt + Piece(r, pkt) && LastAsk(dc, r, pkt) == Piece(r, pkt)
    decreases r
  {
    LowQuota(dc, r, pkt);
    if r > pkt {
      PieceIsRest(dc, r - pkt, pkt);
      OneMore(Visits(dc, r - pkt, pkt), pkt);
    } else {
      assert Visits(dc + pkt - r, 0, pkt) == 0;
    }
  }

  lemma {:induction false} LowQuota(dc: nat, r: nat, pkt: nat)
    requires pkt > 0 && dc < pkt
    ensures Quota(dc + pkt, r, pkt) == Least(pkt, r)
  {
    if r > 0 {
      var g := Least(pkt, r);
      assert Quota(dc + pkt - g, r - g, pkt) == 0;
    }
  }

  // The whole list

  /** The p-th user of the list is served last: it takes the most visits, and no later one takes as many. */
  ghost predicate FinishesLast(l: seq<nat>, req: seq<nat>, dc: seq<nat>, pkt: nat, p: nat)
    requires pkt > 0
  {
    && p < |l| && |req| == |dc| && (forall k :: 0 <= k < |l| ==> l[k] < |req|)
    && forall k :: 0 <= k < |l| ==>
         Visits(dc[l[k]], req[l[k]], pkt) <= Visits(dc[l[p]], req[l[p]], pkt) - (if k > p then 1 else 0)
  }

  /** That user's place in the list. */
  ghost function LastServed(l: seq<nat>, req: seq<nat>, dc: seq<nat>, pkt: nat): (p: nat)
    requires pkt > 0 && |l| > 0 && |req| == |dc| && forall k :: 0 <= k < |l| ==> l[k] < |req|
    ensures FinishesLast(l, req, dc, pkt, p)
  {
    var n := |l| - 1;
    if n == 0 then 0
    else
      var p := LastServed(l[..n], req, dc, pkt);
      if Visits(dc[l[n]], req[l[n]], pkt) >= Visits(dc[l[p]], req[l[p]], pkt) then n else p
  }

  /**
   * The user served last is served whole: at its last visit it asks for more than the threshold, and so does its
   * last packet unless it is a whole one.
   */
  ghost predicate ServedWhole(dc: nat, r: nat, pkt: nat, wmin: nat)
    requires pkt > 0
  {
    LastAsk(dc, r, pkt) > wmin && (Piece(r, pkt) == pkt || Piece(r, pkt) > wmin)
  }

  /** What is left when at most wmin bytes are asked for, or a visit is stopped by the threshold. */
  ghost function Leftover(l: seq<nat>, req: seq<nat>, dc: seq<nat>, pkt: nat, wmin: nat): nat
    decreases Sum(req)
  {
    if Sum(req) <= wmin || pkt == 0 || l == [] || |dc| != |req| || l[0] >= |req| || req[l[0]] == 0 then Sum(req)
    else
      var h := l[0];
      var got := Gets(dc[h] + pkt, req[h], Sum(req), pkt, wmin);
      var ask := req[h] - got;
      SumBound(req, h);
      SumUpdate(req, h, ask);
      Leftover(Requeued(l, ask, false), req[h := ask], After(dc, h, ask, pkt, got), pkt, wmin)
  }

  /** The deficits after user h got some bytes and still asks for `ask`. */
  ghost function After(dc: seq<nat>, h: nat, ask: nat, pkt: nat, got: nat): (r: seq<nat>)
    requires h < |dc| && got <= dc[h] + pkt
    ensures |r| == |dc|
  {
    dc[h := if ask == 0 then 0 else dc[h] + pkt - got]
  }

  lemma {:induction false} LongestHasMore(l: seq<nat>, req: seq<nat>, dc: seq<nat>, pkt: nat)
    requires pkt > 0 && ExactlyAsking(l, req) && FinishesLast(l, req, dc, pkt, 0) && |l| > 1
    ensures Visits(dc[l[0]], req[l[0]], pkt) > 1
  {
    assert l[1] in l;
  }

  /** The list, requests and deficits after a visit of the first user that grants `got`. */
  datatype Turned = Turned(l: seq<nat>, req: seq<nat>, dc: seq<nat>)

  ghost function Turn(l: seq<nat>, req: seq<nat>, dc: seq<nat>, pkt: nat, got: nat): Turned
    requires |l| > 0 && |dc| == |req| && l[0] < |req| && got <= req[l[0]] && got <= dc[l[0]] + pkt
  {
    var ask := req[l[0]] - got;
    Turned(Requeued(l, ask, false), req[l[0] := ask], After(dc, l[0], ask, pkt, got))
  }

  /** The new place of the user at place p. */
  ghost function Moved(l: seq<nat>, p: nat, m: seq<nat>): nat
    requires |m| > 0
  {
    if p > 0 then p - 1 else |m| - 1
  }

  /** A visit that grants its quota does not change who is served last. */
  lemma {:induction false} LastServedStays(l: seq<nat>, req: seq<nat>, dc: seq<nat>, pkt: nat, p: nat, got: nat,
                                           t: Turned)
    requires pkt > 0 && ExactlyAsking(l, req) && FinishesLast(l, req, dc, pkt, p)
    requires got == Quota(dc[l[0]] + pkt, req[l[0]], pkt) && t == Turn(l, req, dc, pkt, got) && |t.l| > 0
    ensures p == 0 ==> t.req[l[0]] > 0
    ensures FinishesLast(t.l, t.req, t.dc, pkt, Moved(l, p, t.l))
  {
    assert l[0] in l;
    OneVisitLess(dc[l[0]], req[l[0]], pkt, t.dc[l[0]]);
    if p == 0 && |l| > 1 { LongestHasMore(l, req, dc, pkt); }
    var q := Moved(l, p, t.l);
    TurnVisits(l, req, dc, pkt, got, t, q);
    forall k | 0 <= k < |t.l|
      ensures t.l[k] < |t.req|
      ensures Visits(t.dc[t.l[k]], t.req[t.l[k]], pkt)
              <= Visits(t.dc[t.l[q]], t.req[t.l[q]], pkt) - (if k > q then 1 else 0)
    {
      TurnVisits(l, req, dc, pkt, got, t, k);
    }
  }

  /** The first user has one visit less before it, the others as many. */
  lemma {:induction false} TurnVisits(l: seq<nat>, req: seq<nat>, dc: seq<nat>, pkt: nat, got: nat, t: Turned, k: nat)
    requires pkt > 0 && ExactlyAsking(l, req) && |l| > 0 && |dc| == |req|
    requires got == Quota(dc[l[0]] + pkt, req[l[0]], pkt) && t == Turn(l, req, dc, pkt, got) && k < |t.l|
    ensures var j := if k + 1 < |l| then k + 1 else 0;
      && t.l[k] == l[j] && |t.dc| == |t.req| == |req|
      && Visits(t.dc[l[j]], t.req[l[j]], pkt) == Visits(dc[l[j]], req[l[j]], pkt) - if j == 0 then 1 else 0
  {
    if k + 1 < |l| {
      assert l[0] != l[k + 1];
    } else {
      assert l[0] in l;
      OneVisitLess(dc[l[0]], req[l[0]], pkt, t.dc[l[0]]);
    }
  }

  lemma {:induction false} OneVisitLess(dc: nat, r: nat, pkt: nat, dc': nat)
    requires pkt > 0 && r > 0
    requires var q := Quota(dc + pkt, r, pkt); dc' == if q == r then 0 else dc + pkt - q
    ensures Visits(dc, r, pkt) == 1 + Visits(dc', r - Quota(dc + pkt, r, pkt), pkt)
  {
  }

  /** Nor whether that user is served whole. */
  lemma {:induction false} WholeStays(l: seq<nat>, req: seq<nat>, dc: seq<nat>, pkt: nat, wmin: nat, p: nat, got: nat,
                                      t: Turned)
    requires pkt > 0 && ExactlyAsking(l, req) && p < |l| && |dc| == |req|
    requires got == Quota(dc[l[0]] + pkt, req[l[0]], pkt) && t == Turn(l, req, dc, pkt, got) && |t.l| > 0
    requires p == 0 ==> t.req[l[0]] > 0
    ensures var u := t.l[Moved(l, p, t.l)];
      u == l[p] && (ServedWhole(t.dc[u], t.req[u], pkt, wmin) <==> ServedWhole(dc[u], req[u], pkt, wmin))
  {
    if p == 0 { QuotaKeepsPiece(dc[l[0]] + pkt, req[l[0]], pkt); }
  }

  lemma {:induction false} LeftoverStep(l: seq<nat>, req: seq<nat>, dc: seq<nat>, pkt: nat, wmin: nat, got: nat,
                                        t: Turned)
    requires pkt > 0 && |l| > 0 && |dc| == |req| && l[0] < |req| && req[l[0]] > 0 && Sum(req) > wmin
    requires got == Gets(dc[l[0]] + pkt, req[l[0]], Sum(req), pkt, wmin) && t == Turn(l, req, dc, pkt, got)
    ensures Leftover(l, req, dc, pkt, wmin) == Leftover(t.l, t.req, t.dc, pkt, wmin)
    ensures Sum(t.req) == Sum(req) - got && got > 0
  {
    SumBound(req, l[0]);
    SumUpdate(req, l[0], req[l[0]] - got);
  }

  /** The visit after which nobody waits grants all that was asked for. */
  lemma {:induction false} LastVisit(l: seq<nat>, req: seq<nat>, ask: nat)
    requires |l| > 0 && ExactlyAsking(l, req) && Requeued(l, ask, false) == []
    ensures |l| == 1 && ask == 0 && Sum(req[l[0] := ask]) == 0 && Sum(req) == req[l[0]]
  {
    AskingAfter(l, req, ask, false);
    SumZero(req[l[0] := ask]);
    SumUpdate(req, l[0], ask);
  }

  /** A visit stopped by the threshold leaves the user served last short. */
  lemma {:induction false} StoppedShort(l: seq<nat>, req: seq<nat>, pkt: nat, wmin: nat, u: nat, dc: nat, got: nat)
    requires pkt > 0 && |l| > 0 && ExactlyAsking(l, req) && u in l && got < req[l[0]] && got <= Sum(req)
    requires Sum(req) - got < pkt && Sum(req) - got <= wmin && Piece(req[l[0]] - got, pkt) == Piece(req[l[0]], pkt)
    ensures !ServedWhole(dc, req[u], pkt, wmin) && 0 < Sum(req[l[0] := req[l[0]] - got]) <= wmin
  {
    var asks := req[l[0] := req[l[0]] - got];
    SumUpdate(req, l[0], req[l[0]] - got);
    SumBound(asks, l[0]);
    SumBound(asks, u);
  }

  /** The next visit is the last if the threshold stops it. */
  lemma {:induction false} NextStops(l: seq<nat>, req: seq<nat>, dc: seq<nat>, pkt: nat, wmin: nat, p: nat,
                                     got: nat, t: Turned)
    requires pkt > 0 && ExactlyAsking(l, req) && p < |l| && |dc| == |req| && Sum(req) > wmin && l[0] < |req|
    requires got == Gets(dc[l[0]] + pkt, req[l[0]], Sum(req), pkt, wmin) && t == Turn(l, req, dc, pkt, got)
    requires got != Quota(dc[l[0]] + pkt, req[l[0]], pkt)
    ensures Leftover(t.l, t.req, t.dc, pkt, wmin) > 0 && !ServedWhole(dc[l[p]], req[l[p]], pkt, wmin)
  {
    assert l[p] in l;
    SumBound(req, l[0]);
    GetsOrStops(dc[l[0]] + pkt, req[l[0]], Sum(req), pkt, wmin);
    StoppedShort(l, req, pkt, wmin, l[p], dc[l[p]], got);
  }

  /** Or if nobody waits after it. */
  lemma {:induction false} NextEmpties(l: seq<nat>, req: seq<nat>, dc: seq<nat>, pkt: nat, wmin: nat, p: nat,
                                       got: nat, t: Turned)
    requires pkt > 0 && ExactlyAsking(l, req) && p < |l| && |dc| == |req| && Sum(req) > wmin && l[0] < |req|
    requires got == Gets(dc[l[0]] + pkt, req[l[0]], Sum(req), pkt, wmin) && t == Turn(l, req, dc, pkt, got)
    requires got == Quota(dc[l[0]] + pkt, req[l[0]], pkt) && t.l == []
    ensures Leftover(t.l, t.req, t.dc, pkt, wmin) == 0 && ServedWhole(dc[l[p]], req[l[p]], pkt, wmin)
  {
    assert l[0] in l;
    LastVisit(l, req, t.req[l[0]]);
    WholeVisit(dc[l[0]] + pkt, req[l[0]], pkt, wmin);
  }

  lemma {:induction false} GoesOn(l: seq<nat>, req: seq<nat>, dc: seq<nat>, pkt: nat, wmin: nat, p: nat, got: nat,
                                  t: Turned)
    requires pkt > 0 && ExactlyAsking(l, req) && FinishesLast(l, req, dc, pkt, p)
    requires got == Quota(dc[l[0]] + pkt, req[l[0]], pkt) && t == Turn(l, req, dc, pkt, got) && |t.l| > 0
    ensures ExactlyAsking(t.l, t.req) && FinishesLast(t.l, t.req, t.dc, pkt, Moved(l, p, t.l))
    ensures var u := t.l[Moved(l, p, t.l)];
      u == l[p] && (ServedWhole(t.dc[u], t.req[u], pkt, wmin) <==> ServedWhole(dc[u], req[u], pkt, wmin))
  {
    AskingAfter(l, req, t.req[l[0]], false);
    LastServedStays(l, req, dc, pkt, p, got, t);
    WholeStays(l, req, dc, pkt, wmin, p, got, t);
  }

  /** Everybody is served exactly if the user served last is served whole. */
  lemma {:induction false} LastServedDecides(l: seq<nat>, req: seq<nat>, dc: seq<nat>, pkt: nat, wmin: nat, p: nat)
    requires pkt > 0 && ExactlyAsking(l, req) && FinishesLast(l, req, dc, pkt, p)
    ensures Leftover(l, req, dc, pkt, wmin) == 0 <==> ServedWhole(dc[l[p]], req[l[p]], pkt, wmin)
    decreases Sum(req)
  {
    assert l[p] in l && l[0] in l;
    SumBound(req, l[p]);
    if Sum(req) > wmin {
      var got := Gets(dc[l[0]] + pkt, req[l[0]], Sum(req), pkt, wmin);
      var t := Turn(l, req, dc, pkt, got);
      LeftoverStep(l, req, dc, pkt, wmin, got, t);
      if got != Quota(dc[l[0]] + pkt, req[l[0]], pkt) {
        NextStops(l, req, dc, pkt, wmin, p, got, t);
      } else if t.l == [] {
        NextEmpties(l, req, dc, pkt, wmin, p, got, t);
      } else {
        GoesOn(l, req, dc, pkt, wmin, p, got, t);
        LastServedDecides(t.l, t.req, t.dc, pkt, wmin, Moved(l, p, t.l));
      }
    }
  }
}
