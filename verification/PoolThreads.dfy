/** The free list and the list of chunks handed out, through the steps of allocation and release. */
module PoolThreads {
  import opened Wrappers
  import opened Common
  import opened PoolLists
  import opened PoolTiles

  /** The two lists hold exactly the chunks of their kind. */
  ghost predicate Threads(h: Headers, fl: Option<nat>, al: Option<nat>, t: seq<nat>, frees: seq<nat>,
                          allocs: seq<nat>) {
    && Linked(h, fl, frees) && Linked(h, al, allocs)
    && Lists(h, t, frees, true) && Lists(h, t, allocs, false)
  }

  /** Chunk x is not free any more and not yet in its list. */
  ghost predicate Loose(h: Headers, fl: Option<nat>, al: Option<nat>, t: seq<nat>, frees: seq<nat>, allocs: seq<nat>,
                        x: nat) {
    && Linked(h, fl, frees) && Linked(h, al, allocs) && x !in allocs
    && Lists(h, t, frees, true) && Lists(h, t, [x] + allocs, false)
  }

  function Without(l: seq<nat>, j: nat): seq<nat>
    requires j < |l|
  {
    l[..j] + l[j + 1..]
  }

  /** Those of l that are in t, in their order. */
  ghost function Starting(l: seq<nat>, t: seq<nat>): seq<nat> {
    if l == [] then [] else (if l[0] in t then [l[0]] else []) + Starting(l[1..], t)
  }

  lemma {:induction false} StartingAll(l: seq<nat>, t: seq<nat>)
    requires forall o :: o in l ==> o in t
    ensures Starting(l, t) == l
  {
    if l != [] { StartingAll(l[1..], t); }
  }

  lemma {:induction false} StartingMembers(l: seq<nat>, t: seq<nat>)
    ensures forall o :: o in Starting(l, t) <==> o in l && o in t
  {
    if l != [] {
      StartingMembers(l[1..], t);
      assert forall o :: o in l <==> o == l[0] || o in l[1..];
    }
  }

  lemma {:induction false} StartingSame(l: seq<nat>, t: seq<nat>, t': seq<nat>)
    requires forall o :: o in l ==> (o in t' <==> o in t)
    ensures Starting(l, t') == Starting(l, t)
  {
    if l != [] { StartingSame(l[1..], t, t'); }
  }

  ghost function But(l: seq<nat>, x: nat): seq<nat> {
    if l == [] then [] else (if l[0] == x then [] else [l[0]]) + But(l[1..], x)
  }

  lemma {:induction false} ButAbsent(l: seq<nat>, x: nat)
    requires x !in l
    ensures But(l, x) == l
  {
    if l != [] { ButAbsent(l[1..], x); }
  }

  lemma {:induction false} ButIsWithout(l: seq<nat>, j: nat)
    requires Distinct(l) && j < |l|
    ensures But(l, l[j]) == Without(l, j)
  {
    if j == 0 {
      assert l[0] !in l[1..];
      ButAbsent(l[1..], l[0]);
    } else {
      assert Distinct(l[1..]);
      ButIsWithout(l[1..], j - 1);
      assert l[1..][j - 1] == l[j];
    }
  }

  lemma {:induction false} StartingBut(l: seq<nat>, t: seq<nat>, t': seq<nat>, x: nat)
    requires forall o :: o in t' <==> o in t && o != x
    ensures Starting(l, t') == But(Starting(l, t), x)
  {
    if l != [] {
      StartingBut(l[1..], t, t', x);
      var rest := Starting(l[1..], t);
      if l[0] in t {
        assert ([l[0]] + rest)[1..] == rest;
      } else {
        assert [] + rest == rest;
      }
    }
  }

  /** When one of them leaves t, the others keep their order. */
  lemma {:induction false} StartingLess(l: seq<nat>, t: seq<nat>, t': seq<nat>, j: nat)
    requires var f := Starting(l, t);
      Distinct(f) && j < |f| && forall o :: o in t' <==> o in t && o != f[j]
    ensures Starting(l, t') == Without(Starting(l, t), j)
  {
    StartingBut(l, t, t', Starting(l, t)[j]);
    ButIsWithout(Starting(l, t), j);
  }

  lemma WithoutMembers(l: seq<nat>, j: nat)
    requires Distinct(l) && j < |l|
    ensures forall o :: o in Without(l, j) <==> o in l && o != l[j]
  {
    forall o | o in l && o != l[j] ensures o in Without(l, j) {
      var k :| 0 <= k < |l| && l[k] == o;
      assert Without(l, j)[if k < j then k else k - 1] == o;
    }
  }

  lemma ReplacedMembers(l: seq<nat>, j: nat, y: nat)
    requires Distinct(l) && j < |l| && y !in l
    ensures forall o :: o in l[j := y] <==> o == y || (o in l && o != l[j])
  {
    var r := l[j := y];
    forall o | o in l && o != l[j] ensures o in r {
      var k :| 0 <= k < |l| && l[k] == o;
      assert r[k] == o;
    }
    assert r[j] == y;
  }

  /** The headers after the front of free chunk x is cut off to be handed out, and the rest took its place. */
  function SplitHeaders(h: Headers, x: nat, need: nat): Headers
    requires x in h && need <= h[x].size && Neighboured(h[x + need := h[x].(size := h[x].size - need)], x + need)
  {
    var g := Adopt(h[x + need := h[x].(size := h[x].size - need)], x + need);
    g[x := g[x].(free := false, size := need)]
  }

  lemma SplitLinked(h: Headers, fl: Option<nat>, al: Option<nat>, frees: seq<nat>, allocs: seq<nat>, j: nat, x: nat,
                    need: nat)
    requires Linked(h, fl, frees) && Linked(h, al, allocs) && j < |frees| && x == frees[j] && x in h
    requires 0 < need <= h[x].size
    requires x + need !in frees && x + need !in allocs && forall o :: o in allocs ==> o !in frees
    ensures Neighboured(h[x + need := h[x].(size := h[x].size - need)], x + need)
    ensures Linked(SplitHeaders(h, x, need), if h[x].prev == None then Some(x + need) else fl, frees[j := x + need])
    ensures Linked(SplitHeaders(h, x, need), al, allocs)
  {
    var y := x + need;
    var c := h[x].(size := h[x].size - need);
    AdoptKeeps(h, fl, frees, j, y, c);
    var h2, g := Adopt(h[y := c], y), SplitHeaders(h, x, need);
    ReplacedMembers(frees, j, y);
    LinkedFrame(h2, g, if h[x].prev == None then Some(y) else fl, frees[j := y]);
    LinkedFrame(h, g, al, allocs);
  }

  lemma SplitKept(h: Headers, x: nat, need: nat)
    requires x in h && 0 < need <= h[x].size && Neighboured(h[x + need := h[x].(size := h[x].size - need)], x + need)
    ensures var g, y := SplitHeaders(h, x, need), x + need;
      && g.Keys == h.Keys + {y} && g[y].size == h[x].size - need && g[y].free == h[x].free
      && g[x].size == need && !g[x].free
      && forall o :: o in h && o != x && o != y ==> g[o].size == h[o].size && g[o].free == h[o].free
  {
  }

  lemma SplitLists(h: Headers, g: Headers, t: seq<nat>, frees: seq<nat>, allocs: seq<nat>, j: nat, k: nat, y: nat)
    requires Lists(h, t, frees, true) && Lists(h, t, allocs, false) && Distinct(frees) && j < |frees| && k < |t|
    requires t[k] == frees[j]
    requires y !in t && g.Keys == h.Keys + {y} && t[k] in h && g[y].free && !g[t[k]].free
    requires forall o :: o in h && o != t[k] && o != y ==> g[o].free == h[o].free
    ensures Lists(g, Cut(t, k, y), frees[j := y], true) && Lists(g, Cut(t, k, y), [t[k]] + allocs, false)
  {
    var r := Cut(t, k, y);
    assert forall o :: o in r <==> o == y || o in t by { assert t == t[..k + 1] + t[k + 1..]; }
    ReplacedMembers(frees, j, y);
  }

  lemma SplitThreads(h: Headers, fl: Option<nat>, al: Option<nat>, t: seq<nat>, frees: seq<nat>, allocs: seq<nat>,
                     j: nat, k: nat, need: nat)
    requires Threads(h, fl, al, t, frees, allocs) && j < |frees| && k < |t| && t[k] == frees[j] && t[k] in h
    requires 0 < need <= h[t[k]].size && t[k] + need !in t
    ensures var x := t[k]; Neighboured(h[x + need := h[x].(size := h[x].size - need)], x + need)
    ensures var x, y := t[k], t[k] + need; var g := SplitHeaders(h, x, need);
      && Loose(g, if h[x].prev == None then Some(y) else fl, al, Cut(t, k, y), frees[j := y], allocs, x)
      && OthersKept(h, g, t, x) && y in g && g[y].size == h[x].size - need && g[y].free
      && g[x].size == need && !g[x].free
  {
    var x, y := t[k], t[k] + need;
    assert y !in frees && y !in allocs && x !in allocs;
    assert forall o :: o in allocs ==> o !in frees;
    SplitLinked(h, fl, al, frees, allocs, j, x, need);
    SplitKept(h, x, need);
    SplitLists(h, SplitHeaders(h, x, need), t, frees, allocs, j, k, y);
  }

  lemma LinkedIn(h: Headers, t: seq<nat>, l: seq<nat>, j: nat, free: bool)
    requires Lists(h, t, l, free) && j < |l|
    ensures l[j] in t && l[j] in h && h[l[j]].free == free
  {
    assert l[j] in l;
  }

  /** The headers after the whole of free chunk x was taken. */
  function TakeHeaders(h: Headers, x: nat): Headers
    requires Neighboured(h, x)
  {
    var g := Delete(h, x);
    g[x := g[x].(free := false)]
  }

  lemma TakeThreads(h: Headers, fl: Option<nat>, al: Option<nat>, t: seq<nat>, frees: seq<nat>, allocs: seq<nat>,
                    j: nat)
    requires Threads(h, fl, al, t, frees, allocs) && j < |frees|
    ensures Neighboured(h, frees[j])
    ensures Loose(TakeHeaders(h, frees[j]), DeleteHead(h, fl, frees[j]), al, t, Without(frees, j), allocs, frees[j])
    ensures OthersKept(h, TakeHeaders(h, frees[j]), t, frees[j])
    ensures TakeHeaders(h, frees[j])[frees[j]].size == h[frees[j]].size
  {
    var x := frees[j];
    LinkedIn(h, t, frees, j, true);
    DeleteKeeps(h, fl, frees, j);
    WithoutMembers(frees, j);
    var g := TakeHeaders(h, x);
    LinkedFrame(Delete(h, x), g, DeleteHead(h, fl, x), Without(frees, j));
    assert forall o :: o in allocs ==> o !in frees;
    LinkedFrame(h, g, al, allocs);
  }

  lemma LinkThreads(h: Headers, fl: Option<nat>, al: Option<nat>, t: seq<nat>, frees: seq<nat>, allocs: seq<nat>,
                    x: nat)
    requires Loose(h, fl, al, t, frees, allocs, x)
    ensures x in h && (al != None ==> al.value in h)
    ensures Threads(Insert(h, al, x), fl, Some(x), t, frees, [x] + allocs) && SameChunks(h, Insert(h, al, x))
  {
    assert ([x] + allocs)[0] == x;
    InsertKeeps(h, al, allocs, x);
    assert forall o :: o in frees ==> o !in [x] + allocs;
    LinkedFrame(h, Insert(h, al, x), fl, frees);
  }

  /** The headers after chunk x was moved from the one list to the front of the other and marked free. */
  function FreeHeaders(h: Headers, fl: Option<nat>, x: nat): Headers
    requires Neighboured(h, x) && (fl != None ==> fl.value in h)
  {
    var g := Insert(Delete(h, x), fl, x);
    g[x := g[x].(free := true)]
  }

  lemma FreeLinked(h: Headers, fl: Option<nat>, al: Option<nat>, frees: seq<nat>, allocs: seq<nat>, j: nat)
    requires Linked(h, fl, frees) && Linked(h, al, allocs) && j < |allocs| && forall o :: o in frees ==> o !in allocs
    ensures Neighboured(h, allocs[j]) && (fl != None ==> fl.value in h)
    ensures var g := FreeHeaders(h, fl, allocs[j]);
      Linked(g, Some(allocs[j]), [allocs[j]] + frees) && Linked(g, DeleteHead(h, al, allocs[j]), Without(allocs, j))
  {
    var x := allocs[j];
    DeleteKeeps(h, al, allocs, j);
    WithoutMembers(allocs, j);
    var h1 := Delete(h, x);
    LinkedFrame(h, h1, fl, frees);
    InsertKeeps(h1, fl, frees, x);
    var g := FreeHeaders(h, fl, x);
    LinkedFrame(Insert(h1, fl, x), g, Some(x), [x] + frees);
    LinkedFrame(h1, g, DeleteHead(h, al, x), Without(allocs, j));
  }

  lemma FreeKept(h: Headers, fl: Option<nat>, x: nat)
    requires Neighboured(h, x) && (fl != None ==> fl.value in h)
    ensures var g := FreeHeaders(h, fl, x);
      && g.Keys == h.Keys && g[x].size == h[x].size && g[x].free
      && forall o :: o in h && o != x ==> g[o].size == h[o].size && g[o].free == h[o].free
  {
  }

  lemma FreeLists(h: Headers, g: Headers, t: seq<nat>, frees: seq<nat>, allocs: seq<nat>, j: nat)
    requires Lists(h, t, frees, true) && Lists(h, t, allocs, false) && Distinct(allocs) && j < |allocs|
    requires g.Keys == h.Keys && allocs[j] in g && g[allocs[j]].free
    requires forall o :: o in h && o != allocs[j] ==> g[o].free == h[o].free
    ensures Lists(g, t, [allocs[j]] + frees, true) && Lists(g, t, Without(allocs, j), false)
  {
    LinkedIn(h, t, allocs, j, false);
    WithoutMembers(allocs, j);
  }

  lemma FreeThreads(h: Headers, fl: Option<nat>, al: Option<nat>, t: seq<nat>, frees: seq<nat>, allocs: seq<nat>,
                    j: nat)
    requires Threads(h, fl, al, t, frees, allocs) && j < |allocs|
    ensures Neighboured(h, allocs[j]) && (fl != None ==> fl.value in h)
    ensures Threads(FreeHeaders(h, fl, allocs[j]), Some(allocs[j]), DeleteHead(h, al, allocs[j]), t,
                    [allocs[j]] + frees, Without(allocs, j))
    ensures OthersKept(h, FreeHeaders(h, fl, allocs[j]), t, allocs[j])
    ensures FreeHeaders(h, fl, allocs[j])[allocs[j]].size == h[allocs[j]].size
    ensures FreeHeaders(h, fl, allocs[j])[allocs[j]].free
  {
    assert forall o :: o in frees ==> o !in allocs;
    FreeLinked(h, fl, al, frees, allocs, j);
    FreeKept(h, fl, allocs[j]);
    FreeLists(h, FreeHeaders(h, fl, allocs[j]), t, frees, allocs, j);
  }

  /** The headers after free chunk z was joined to x in front of it. */
  function JoinHeaders(h: Headers, x: nat, z: nat): Headers
    requires x in h && Neighboured(h, z)
  {
    var g := Delete(h, z);
    g[x := g[x].(size := g[x].size + g[z].size)]
  }

  lemma JoinThreads(h: Headers, fl: Option<nat>, al: Option<nat>, t: seq<nat>, frees: seq<nat>, allocs: seq<nat>,
                    m: nat, j: nat)
    requires Threads(h, fl, al, t, frees, allocs) && m + 1 < |t| && Distinct(t)
    requires FreeAt(h, t, m) && FreeAt(h, t, m + 1) && j < |frees| && frees[j] == t[m + 1]
    ensures Neighboured(h, t[m + 1])
    ensures Threads(JoinHeaders(h, t[m], t[m + 1]), DeleteHead(h, fl, t[m + 1]), al, Joined(t, m),
                    Without(frees, j), allocs)
    ensures OthersKept(h, JoinHeaders(h, t[m], t[m + 1]), t, t[m]) && JoinHeaders(h, t[m], t[m + 1])[t[m]].free
    ensures JoinHeaders(h, t[m], t[m + 1])[t[m]].size == h[t[m]].size + h[t[m + 1]].size
  {
    var x, z := t[m], t[m + 1];
    DeleteKeeps(h, fl, frees, j);
    WithoutMembers(frees, j);
    WithoutMembers(t, m + 1);
    assert Joined(t, m) == Without(t, m + 1);
    var h1, g := Delete(h, z), JoinHeaders(h, x, z);
    LinkedFrame(h1, g, DeleteHead(h, fl, z), Without(frees, j));
    assert forall o :: o in allocs ==> o !in frees;
    LinkedFrame(h, g, al, allocs);
  }
}
