/**
 * Round robin when no deficit reaches a packet: every visit grants a packet or the rest of the request, so what is
 * left can be told from the requests, the packet size and the threshold alone.
 */
module LowDeficits {
  import opened Common
  import opened Sums
  import opened RoundRobin

  // One user

  /** A low deficit does not matter for whether the last packet is granted. */
  lemma {:induction false} LowServedWhole(dc: nat, r: nat, pkt: nat, wmin: nat)
    requires pkt > 0 && dc < pkt && r > 0
    ensures ServedWhole(dc, r, pkt, wmin) <==> Piece(r, pkt) > wmin
  {
    LowVisits(dc, r, pkt);
  }

  lemma {:induction false} LowGets(dc: nat, r: nat, w: nat, pkt: nat, wmin: nat)
    requires pkt > 0 && dc < pkt && w >= r && w > wmin
    ensures Gets(dc + pkt, r, w, pkt, wmin) == Least(pkt, r)
  {
    if r > 0 {
      var g := Least(pkt, r);
      assert Gets(dc + pkt - g, r - g, w - g, pkt, wmin) == 0;
    }
  }

  /** The number of packets in r bytes, the last of which may be short. */
  ghost function Packets(r: nat, pkt: nat): nat
    requires pkt > 0
  {
    (r + pkt - 1) / pkt
  }

  /** The p-th user of the list asks for the most packets, and no later one for as many. */
  ghost predicate AsksLongest(l: seq<nat>, req: seq<nat>, pkt: nat, p: nat)
    requires pkt > 0
  {
    && p < |l| && (forall k :: 0 <= k < |l| ==> l[k] < |req|)
    && forall k :: 0 <= k < |l| ==> Packets(req[l[k]], pkt) <= Packets(req[l[p]], pkt) - (if k > p then 1 else 0)
  }

  /** Nothing is left exactly if the last packet of that user exceeds the threshold. */
  lemma {:induction false} LongestDecides(l: seq<nat>, req: seq<nat>, dc: seq<nat>, pkt: nat, wmin: nat, p: nat)
    requires pkt > 0 && ExactlyAsking(l, req) && |dc| == |req| && Low(l, dc, pkt) && AsksLongest(l, req, pkt, p)
    ensures Leftover(l, req, dc, pkt, wmin) == 0 <==> Piece(req[l[p]], pkt) > wmin
  {
    forall k | 0 <= k < |l| ensures Visits(dc[l[k]], req[l[k]], pkt) == Packets(req[l[k]], pkt) {
      assert l[k] in l;
      LowVisits(dc[l[k]], req[l[k]], pkt);
    }
    assert l[p] in l;
    LowServedWhole(dc[l[p]], req[l[p]], pkt, wmin);
    LastServedDecides(l, req, dc, pkt, wmin, p);
  }

  // All users

  /** What k visits leave of r bytes, at a packet per visit. */
  ghost function Left(r: nat, k: nat, pkt: nat): (a: nat)
    ensures a <= r
  {
    if k == 0 then r else Left(r, k - 1, pkt) - Least(pkt, Left(r, k - 1, pkt))
  }

  lemma {:induction false} LeftIs(r: nat, k: nat, pkt: nat)
    ensures Left(r, k, pkt) == if r <= k * pkt then 0 else r - k * pkt
  {
    if k > 0 {
      LeftIs(r, k - 1, pkt);
      OneMore(k, pkt);
    }
  }

  lemma {:induction false} LeftFalls(r: nat, k: nat, m: nat, pkt: nat)
    requires k <= m
    ensures Left(r, m, pkt) <= Left(r, k, pkt)
    decreases m
  {
    if k < m {
      LeftFalls(r, k, m - 1, pkt);
    }
  }

  /** The visits user i had after k rounds over the list and one more visit of its first p users. */
  ghost function Had(l: seq<nat>, k: nat, p: nat, i: nat): nat
    requires p <= |l|
  {
    if i in l[..p] then k + 1 else k
  }

  lemma HadNext(l: seq<nat>, k: nat, p: nat, i: nat)
    requires Distinct(l) && p < |l|
    ensures Had(l, k, p, l[p]) == k
    ensures Had(l, k, p + 1, i) == if i == l[p] then k + 1 else Had(l, k, p, i)
  {
    assert l[..p + 1] == l[..p] + [l[p]];
  }

  /** The requests after k rounds over the list and one more visit of its first p users. */
  ghost function Residue(l: seq<nat>, orig: seq<nat>, pkt: nat, k: nat, p: nat): (r: seq<nat>)
    requires p <= |l|
    ensures |r| == |orig|
  {
    seq(|orig|, i requires 0 <= i < |orig| => Left(orig[i], Had(l, k, p, i), pkt))
  }

  lemma ResidueStart(l: seq<nat>, orig: seq<nat>, pkt: nat)
    ensures Residue(l, orig, pkt, 0, 0) == orig
  {
  }

  lemma ResidueWraps(l: seq<nat>, orig: seq<nat>, pkt: nat, k: nat)
    requires ExactlyAsking(l, orig)
    ensures Residue(l, orig, pkt, k, |l|) == Residue(l, orig, pkt, k + 1, 0)
  {
    var s, t := Residue(l, orig, pkt, k, |l|), Residue(l, orig, pkt, k + 1, 0);
    forall i | 0 <= i < |orig| ensures s[i] == t[i] {
      assert l[..|l|] == l;
    }
  }

  /** One more visit changes the request of one user. */
  lemma ResidueNext(l: seq<nat>, orig: seq<nat>, pkt: nat, k: nat, p: nat)
    requires ExactlyAsking(l, orig) && p < |l|
    ensures var s := Residue(l, orig, pkt, k, p);
      Residue(l, orig, pkt, k, p + 1) == s[l[p] := s[l[p]] - Least(pkt, s[l[p]])]
  {
    var s, t := Residue(l, orig, pkt, k, p), Residue(l, orig, pkt, k, p + 1);
    forall i | 0 <= i < |orig| ensures t[i] == if i == l[p] then s[i] - Least(pkt, s[i]) else s[i] {
      HadNext(l, k, p, i);
    }
  }

  /** k rounds and p visits come before m rounds and q visits. */
  ghost predicate Before(k: nat, p: nat, m: nat, q: nat) {
    k < m || (k == m && p <= q)
  }

  lemma ResidueFalls(l: seq<nat>, orig: seq<nat>, pkt: nat, k: nat, p: nat, m: nat, q: nat)
    requires p <= |l| && q <= |l| && Before(k, p, m, q)
    ensures Sum(Residue(l, orig, pkt, m, q)) <= Sum(Residue(l, orig, pkt, k, p))
  {
    var s, t := Residue(l, orig, pkt, k, p), Residue(l, orig, pkt, m, q);
    forall i | 0 <= i < |orig| ensures t[i] <= s[i] {
      if p <= q { assert l[..p] <= l[..q]; }
      LeftFalls(orig[i], Had(l, k, p, i), Had(l, m, q, i), pkt);
    }
    SumFalls(s, t);
  }

  lemma {:induction false} SumFalls(s: seq<nat>, t: seq<nat>)
    requires |s| == |t| && forall i :: 0 <= i < |s| ==> t[i] <= s[i]
    ensures Sum(t) <= Sum(s)
  {
    var n := |s| - 1;
    if n >= 0 { SumFalls(s[..n], t[..n]); }
  }

  lemma AtLeastRounds(k: nat, pkt: nat)
    requires pkt > 0
    ensures k <= k * pkt
  {
  }

  /** As long as anything is left, there were fewer rounds than bytes asked for. */
  lemma RoundsBounded(l: seq<nat>, orig: seq<nat>, pkt: nat, k: nat, p: nat)
    requires pkt > 0 && p <= |l| && Sum(Residue(l, orig, pkt, k, p)) > 0
    ensures k < Sum(orig)
  {
    var s := Residue(l, orig, pkt, k, p);
    SumPositive(s);
    var i :| 0 <= i < |s| && s[i] > 0;
    LeftFalls(orig[i], k, Had(l, k, p, i), pkt);
    LeftIs(orig[i], k, pkt);
    AtLeastRounds(k, pkt);
    SumBound(orig, i);
  }

  /** The users among those given that still ask, in their order. */
  ghost function Asking(l: seq<nat>, req: seq<nat>): seq<nat> {
    if l == [] then []
    else if l[0] < |req| && req[l[0]] > 0 then [l[0]] + Asking(l[1..], req)
    else Asking(l[1..], req)
  }

  lemma {:induction false} AskingLast(l: seq<nat>, u: nat, req: seq<nat>)
    ensures Asking(l + [u], req) == Asking(l, req) + if u < |req| && req[u] > 0 then [u] else []
  {
    if l == [] {
      assert (l + [u])[1..] == [];
    } else {
      assert (l + [u])[1..] == l[1..] + [u];
      AskingLast(l[1..], u, req);
    }
  }

  lemma {:induction false} AskingOthers(l: seq<nat>, u: nat, v: nat, req: seq<nat>)
    requires u < |req| && u !in l
    ensures Asking(l, req[u := v]) == Asking(l, req)
  {
    if l != [] { AskingOthers(l[1..], u, v, req); }
  }

  lemma {:induction false} AskingAll(l: seq<nat>, req: seq<nat>)
    requires forall k :: 0 <= k < |l| ==> l[k] < |req| && req[l[k]] > 0
    ensures Asking(l, req) == l
  {
    if l != [] { AskingAll(l[1..], req); }
  }

  /** The list when the first p users had their visit of this round. */
  ghost function Queue(l: seq<nat>, req: seq<nat>, p: nat): seq<nat>
    requires p <= |l|
  {
    Asking(l[p..], req) + Asking(l[..p], req)
  }

  lemma {:induction false} QueueNext(l: seq<nat>, req: seq<nat>, p: nat, ask: nat)
    requires Distinct(l) && p < |l| && l[p] < |req|
    ensures req[l[p]] > 0 ==> |Queue(l, req, p)| > 0 && Queue(l, req, p)[0] == l[p]
    ensures req[l[p]] > 0 ==> Queue(l, req[l[p] := ask], p + 1) == Requeued(Queue(l, req, p), ask, false)
    ensures req[l[p]] == 0 ==> Queue(l, req, p + 1) == Queue(l, req, p)
  {
    var u, asks := l[p], req[l[p] := ask];
    assert l[p..] == [u] + l[p + 1..] && l[..p + 1] == l[..p] + [u];
    AskingLast(l[..p], u, asks);
    AskingLast(l[..p], u, req);
    AskingOthers(l[..p], u, ask, req);
    AskingOthers(l[p + 1..], u, ask, req);
    assert Queue(l, req, p) == (if req[u] > 0 then [u] else []) + Asking(l[p + 1..], req) + Asking(l[..p], req);
  }

  /** `left` is the largest residue from k rounds and p visits on that does not exceed the threshold. */
  ghost predicate LargestFrom(l: seq<nat>, orig: seq<nat>, pkt: nat, wmin: nat, k: nat, p: nat, left: nat) {
    && left <= wmin
    && (exists m: nat, q: nat :: q <= |l| && Before(k, p, m, q) && left == Sum(Residue(l, orig, pkt, m, q)))
    && forall m: nat, q: nat :: q <= |l| && Before(k, p, m, q) && Sum(Residue(l, orig, pkt, m, q)) <= wmin ==>
         Sum(Residue(l, orig, pkt, m, q)) <= left
  }

  /** What is left when every visit grants a packet: the largest residue that does not exceed the threshold. */
  ghost predicate IsLeft(l: seq<nat>, orig: seq<nat>, pkt: nat, wmin: nat, left: nat) {
    LargestFrom(l, orig, pkt, wmin, 0, 0, left)
  }

  // A visit of the next user in turn

  /** A turn of a user with a low deficit takes a packet from its request, and deficits stay low. */
  lemma {:induction false} LowTurn(l: seq<nat>, req: seq<nat>, dc: seq<nat>, pkt: nat, wmin: nat, p: nat,
                                   asks: seq<nat>)
    returns (dcs: seq<nat>)
    requires pkt > 0 && Distinct(l) && |dc| == |req| && Low(l, dc, pkt) && p < |l| && Sum(req) > wmin && req[l[p]] > 0
    requires asks == req[l[p] := req[l[p]] - Least(pkt, req[l[p]])]
    ensures |dcs| == |dc| && Low(l, dcs, pkt)
    ensures Leftover(Queue(l, req, p), req, dc, pkt, wmin) == Leftover(Queue(l, asks, p + 1), asks, dcs, pkt, wmin)
  {
    var h, got, s := l[p], Least(pkt, req[l[p]]), Queue(l, req, p);
    SumBound(req, h);
    LowGets(dc[h], req[h], Sum(req), pkt, wmin);
    QueueNext(l, req, p, req[h] - got);
    dcs := After(dc, h, req[h] - got, pkt, got);
    var t := Turn(s, req, dc, pkt, got);
    assert t == Turned(Queue(l, asks, p + 1), asks, dcs);
    LeftoverStep(s, req, dc, pkt, wmin, got, t);
  }

  /** A user that asks for nothing has no turn. */
  lemma {:induction false} IdleTurn(l: seq<nat>, orig: seq<nat>, pkt: nat, k: nat, p: nat, s: seq<nat>)
    requires ExactlyAsking(l, orig) && p < |l| && s == Residue(l, orig, pkt, k, p) && s[l[p]] == 0
    ensures Residue(l, orig, pkt, k, p + 1) == s && Queue(l, s, p + 1) == Queue(l, s, p)
  {
    ResidueNext(l, orig, pkt, k, p);
    QueueNext(l, s, p, 0);
  }

  lemma {:induction false} BusyTurn(l: seq<nat>, orig: seq<nat>, dc: seq<nat>, pkt: nat, wmin: nat, k: nat, p: nat,
                                    s: seq<nat>, t: seq<nat>)
    returns (dcs: seq<nat>)
    requires pkt > 0 && ExactlyAsking(l, orig) && |dc| == |orig| && Low(l, dc, pkt) && p < |l|
    requires s == Residue(l, orig, pkt, k, p) && t == Residue(l, orig, pkt, k, p + 1) && s[l[p]] > 0 && Sum(s) > wmin
    ensures |dcs| == |dc| && Low(l, dcs, pkt)
    ensures Leftover(Queue(l, s, p), s, dc, pkt, wmin) == Leftover(Queue(l, t, p + 1), t, dcs, pkt, wmin)
  {
    ResidueNext(l, orig, pkt, k, p);
    dcs := LowTurn(l, s, dc, pkt, wmin, p, t);
  }

  lemma {:induction false} QueueWraps(l: seq<nat>, orig: seq<nat>, pkt: nat, k: nat)
    requires ExactlyAsking(l, orig)
    ensures var s, t := Residue(l, orig, pkt, k, |l|), Residue(l, orig, pkt, k + 1, 0);
      s == t && Queue(l, s, |l|) == Queue(l, t, 0)
  {
    ResidueWraps(l, orig, pkt, k);
    assert l[|l|..] == [] && l[..0] == [] && l[..|l|] == l == l[0..];
  }

  /** At or below the threshold the residue is what is left, and no later one is larger. */
  lemma {:induction false} LargestNow(l: seq<nat>, orig: seq<nat>, pkt: nat, wmin: nat, k: nat, p: nat)
    requires p <= |l| && Sum(Residue(l, orig, pkt, k, p)) <= wmin
    ensures LargestFrom(l, orig, pkt, wmin, k, p, Sum(Residue(l, orig, pkt, k, p)))
  {
    assert Before(k, p, k, p);
    forall m: nat, q: nat | q <= |l| && Before(k, p, m, q)
      ensures Sum(Residue(l, orig, pkt, m, q)) <= Sum(Residue(l, orig, pkt, k, p))
    {
      ResidueFalls(l, orig, pkt, k, p, m, q);
    }
  }

  /** Above the threshold a residue does not count. */
  lemma {:induction false} LargestBack(l: seq<nat>, orig: seq<nat>, pkt: nat, wmin: nat, k: nat, p: nat, left: nat)
    requires p < |l| && Sum(Residue(l, orig, pkt, k, p)) > wmin && LargestFrom(l, orig, pkt, wmin, k, p + 1, left)
    ensures LargestFrom(l, orig, pkt, wmin, k, p, left)
  {
    var m: nat, q: nat :| q <= |l| && Before(k, p + 1, m, q) && left == Sum(Residue(l, orig, pkt, m, q));
    assert Before(k, p, m, q);
    forall i: nat, j: nat | j <= |l| && Before(k, p, i, j) && Sum(Residue(l, orig, pkt, i, j)) <= wmin
      ensures Sum(Residue(l, orig, pkt, i, j)) <= left
    {
      assert Before(k, p + 1, i, j);
    }
  }

  lemma {:induction false} LargestWraps(l: seq<nat>, orig: seq<nat>, pkt: nat, wmin: nat, k: nat, left: nat)
    requires ExactlyAsking(l, orig) && LargestFrom(l, orig, pkt, wmin, k + 1, 0, left)
    ensures LargestFrom(l, orig, pkt, wmin, k, |l|, left)
  {
    var m: nat, q: nat :| q <= |l| && Before(k + 1, 0, m, q) && left == Sum(Residue(l, orig, pkt, m, q));
    assert Before(k, |l|, m, q);
    forall i: nat, j: nat | j <= |l| && Before(k, |l|, i, j) && Sum(Residue(l, orig, pkt, i, j)) <= wmin
      ensures Sum(Residue(l, orig, pkt, i, j)) <= left
    {
      if i == k {
        ResidueWraps(l, orig, pkt, k);
        assert Before(k + 1, 0, k + 1, 0);
      } else {
        assert Before(k + 1, 0, i, j);
      }
    }
  }

  lemma {:induction false} LeftFrom(l: seq<nat>, orig: seq<nat>, dc: seq<nat>, pkt: nat, wmin: nat, k: nat, p: nat)
    requires pkt > 0 && ExactlyAsking(l, orig) && |dc| == |orig| && Low(l, dc, pkt) && p <= |l|
    requires l == [] ==> Sum(Residue(l, orig, pkt, k, p)) <= wmin
    ensures var s := Residue(l, orig, pkt, k, p);
      LargestFrom(l, orig, pkt, wmin, k, p, Leftover(Queue(l, s, p), s, dc, pkt, wmin))
    decreases Sum(orig) - k, |l| - p
  {
    var s := Residue(l, orig, pkt, k, p);
    if Sum(s) <= wmin {
      LargestNow(l, orig, pkt, wmin, k, p);
    } else {
      RoundsBounded(l, orig, pkt, k, p);
      if p == |l| {
        QueueWraps(l, orig, pkt, k);
        LeftFrom(l, orig, dc, pkt, wmin, k + 1, 0);
        LargestWraps(l, orig, pkt, wmin, k, Leftover(Queue(l, s, p), s, dc, pkt, wmin));
      } else {
        var dcs := dc;
        if s[l[p]] > 0 {
          dcs := BusyTurn(l, orig, dc, pkt, wmin, k, p, s, Residue(l, orig, pkt, k, p + 1));
        } else {
          IdleTurn(l, orig, pkt, k, p, s);
        }
        LeftFrom(l, orig, dcs, pkt, wmin, k, p + 1);
        LargestBack(l, orig, pkt, wmin, k, p, Leftover(Queue(l, s, p), s, dc, pkt, wmin));
      }
    }
  }

  lemma {:induction false} AtStart(l: seq<nat>, orig: seq<nat>, pkt: nat)
    requires ExactlyAsking(l, orig)
    ensures Residue(l, orig, pkt, 0, 0) == orig && Queue(l, orig, 0) == l && (l == [] ==> Sum(orig) == 0)
  {
    ResidueStart(l, orig, pkt);
    forall k | 0 <= k < |l| ensures orig[l[k]] > 0 { assert l[k] in l; }
    AskingAll(l, orig);
    if l == [] { SumZero(orig); }
    assert l[0..] == l && l[..0] == [];
  }

  lemma {:induction false} OneLargest(l: seq<nat>, orig: seq<nat>, pkt: nat, wmin: nat, k: nat, p: nat, a: nat, b: nat)
    requires LargestFrom(l, orig, pkt, wmin, k, p, a) && LargestFrom(l, orig, pkt, wmin, k, p, b)
    ensures a <= b
  {
    var m: nat, q: nat :| q <= |l| && Before(k, p, m, q) && a == Sum(Residue(l, orig, pkt, m, q));
  }

  /** With low deficits, what round robin leaves is the one number IsLeft describes. */
  lemma {:induction false} LowLeftover(l: seq<nat>, orig: seq<nat>, dc: seq<nat>, pkt: nat, wmin: nat, left: nat)
    requires pkt > 0 && ExactlyAsking(l, orig) && |dc| == |orig| && Low(l, dc, pkt)
    ensures Leftover(l, orig, dc, pkt, wmin) == left <==> IsLeft(l, orig, pkt, wmin, left)
  {
    AtStart(l, orig, pkt);
    LeftFrom(l, orig, dc, pkt, wmin, 0, 0);
    if IsLeft(l, orig, pkt, wmin, left) {
      OneLargest(l, orig, pkt, wmin, 0, 0, left, Leftover(l, orig, dc, pkt, wmin));
      OneLargest(l, orig, pkt, wmin, 0, 0, Leftover(l, orig, dc, pkt, wmin), left);
    }
  }
}
