/** How the chunks of src/ld_alloc.c lie in a memory: their offsets in order, each ending where the next begins. */
module PoolTiles {
  import opened Wrappers
  import opened Common
  import opened PoolLists

  /** sizeof(struct _mp_chunk), and that plus the pointer at the end of a chunk. */
  const HEADER: nat := 32
  const OVERHEAD: nat := 40

  ghost function End(t: seq<nat>, k: nat, size: nat): nat
    requires k < |t|
  {
    if k + 1 < |t| then t[k + 1] else size
  }

  ghost predicate TileAt(h: Headers, t: seq<nat>, size: nat, k: nat)
    requires k < |t|
  {
    t[k] in h && h[t[k]].size > OVERHEAD && t[k] + h[t[k]].size == End(t, k, size)
  }

  /** The chunks cover the memory with no gap and no overlap. */
  ghost predicate Tiled(h: Headers, t: seq<nat>, size: nat) {
    |t| > 0 && t[0] == 0 && forall k :: 0 <= k < |t| ==> TileAt(h, t, size, k)
  }

  lemma {:induction false} Ascending(h: Headers, t: seq<nat>, size: nat, i: nat, j: nat)
    requires Tiled(h, t, size) && i < j < |t|
    ensures t[i] in h && t[i] + h[t[i]].size <= t[j] < size
    decreases j - i
  {
    assert TileAt(h, t, size, i) && TileAt(h, t, size, j);
    if i + 1 < j { Ascending(h, t, size, i + 1, j); assert TileAt(h, t, size, i + 1); }
    LastFits(h, t, size, j);
  }

  lemma {:induction false} LastFits(h: Headers, t: seq<nat>, size: nat, j: nat)
    requires Tiled(h, t, size) && j < |t|
    ensures t[j] in h && t[j] + h[t[j]].size <= size
    decreases |t| - j
  {
    assert TileAt(h, t, size, j);
    if j + 1 < |t| { LastFits(h, t, size, j + 1); }
  }

  lemma TilesDistinct(h: Headers, t: seq<nat>, size: nat)
    requires Tiled(h, t, size)
    ensures Distinct(t)
  {
    forall a, b | 0 <= a < b < |t| ensures t[a] != t[b] {
      Ascending(h, t, size, a, b);
      assert TileAt(h, t, size, a);
    }
  }

  /** Each chunk but the last ends in a pointer back to its own header; `f` is read by where a chunk ends. */
  ghost predicate FootAt(f: map<nat, nat>, t: seq<nat>, k: nat)
    requires 0 < k < |t|
  {
    t[k] in f && f[t[k]] == t[k - 1]
  }

  ghost predicate Footed(f: map<nat, nat>, t: seq<nat>) {
    forall k :: 0 < k < |t| ==> FootAt(f, t, k)
  }

  ghost predicate FreeAt(h: Headers, t: seq<nat>, k: nat)
    requires k < |t|
  {
    t[k] in h && h[t[k]].free
  }

  /** Both the k-th chunk and the one after it are free. */
  ghost predicate Mergeable(h: Headers, t: seq<nat>, k: nat) {
    k + 1 < |t| && FreeAt(h, t, k) && FreeAt(h, t, k + 1)
  }

  ghost predicate Coalesced(h: Headers, t: seq<nat>) {
    forall k: nat :: !Mergeable(h, t, k)
  }

  /** l lists, once each, exactly the chunks that are free, or those that are not. */
  ghost predicate Lists(h: Headers, t: seq<nat>, l: seq<nat>, free: bool) {
    forall o :: o in l <==> o in t && o in h && h[o].free == free
  }

  /** The bytes of the chunks handed out. */
  ghost function Allocated(h: Headers, t: seq<nat>): nat {
    if t == [] then 0
    else
      var o := t[|t| - 1];
      Allocated(h, t[..|t| - 1]) + if o in h && !h[o].free then h[o].size else 0
  }

  lemma {:induction false} AllocatedConcat(h: Headers, a: seq<nat>, b: seq<nat>)
    ensures Allocated(h, a + b) == Allocated(h, a) + Allocated(h, b)
  {
    if b == [] {
      assert a + b == a;
    } else {
      var n := |b| - 1;
      AllocatedConcat(h, a, b[..n]);
      assert (a + b)[..|a| + n] == a + b[..n];
    }
  }

  lemma {:induction false} AllocatedFrame(h: Headers, g: Headers, t: seq<nat>)
    requires forall o :: o in t ==>
      (o in h <==> o in g) && (o in h ==> h[o].size == g[o].size && h[o].free == g[o].free)
    ensures Allocated(h, t) == Allocated(g, t)
  {
    if t != [] { AllocatedFrame(h, g, t[..|t| - 1]); }
  }

  lemma {:induction false} AllocatedOne(h: Headers, o: nat)
    ensures Allocated(h, [o]) == if o in h && !h[o].free then h[o].size else 0
  {
    assert [o][..0] == [];
  }

  /** A free chunk is part of what is not allocated, so rejecting a memory by its total loses no chunk that fits. */
  lemma {:induction false} FreeFits(h: Headers, t: seq<nat>, size: nat, k: nat, n: nat)
    requires Tiled(h, t, size) && n <= |t|
    ensures Allocated(h, t[..n]) <= (if n < |t| then t[n] else size)
    ensures k < n && FreeAt(h, t, k) ==> h[t[k]].size + Allocated(h, t[..n]) <= if n < |t| then t[n] else size
  {
    if n > 0 {
      FreeFits(h, t, size, k, n - 1);
      assert TileAt(h, t, size, n - 1);
      assert t[..n][..n - 1] == t[..n - 1];
    }
  }

  /** With nothing handed out, one free chunk fills the memory. */
  lemma AllFree(h: Headers, t: seq<nat>, size: nat)
    requires Tiled(h, t, size) && Coalesced(h, t) && Lists(h, t, [], false)
    ensures t == [0] && 0 in h && h[0].size == size && h[0].free
  {
    assert TileAt(h, t, size, 0);
    forall k | 0 <= k < |t| ensures FreeAt(h, t, k) {
      assert TileAt(h, t, size, k);
      assert t[k] in t;
      assert t[k] !in [];
    }
    assert !Mergeable(h, t, 0);
  }

  /** The chunks of t other than the one at x are as they were. */
  ghost predicate OthersKept(h: Headers, g: Headers, t: seq<nat>, x: nat) {
    forall o :: o in t && o != x && o in h ==> o in g && g[o].size == h[o].size && g[o].free == h[o].free
  }

  /** Chunk k cut in two. */
  ghost function Cut(t: seq<nat>, k: nat, y: nat): seq<nat>
    requires k < |t|
  {
    t[..k + 1] + [y] + t[k + 1..]
  }

  /** Chunk k + 1 joined to chunk k. */
  ghost function Joined(t: seq<nat>, k: nat): seq<nat>
    requires k + 1 < |t|
  {
    t[..k + 1] + t[k + 2..]
  }

  lemma InsideIsNoTile(h: Headers, t: seq<nat>, size: nat, k: nat, y: nat)
    requires Tiled(h, t, size) && k < |t| && t[k] in h && t[k] < y < t[k] + h[t[k]].size
    ensures y !in t
  {
    forall i | 0 <= i < |t| ensures t[i] != y {
      if i < k {
        Ascending(h, t, size, i, k);
      } else if i > k {
        Ascending(h, t, size, k, i);
      }
    }
  }

  lemma CutTiled(h: Headers, g: Headers, t: seq<nat>, size: nat, k: nat, need: nat)
    requires Tiled(h, t, size) && k < |t| && OthersKept(h, g, t, t[k]) && OVERHEAD < need
    requires t[k] in h && t[k] in g && t[k] + need in g && g[t[k]].size == need
    requires h[t[k]].size == need + g[t[k] + need].size && g[t[k] + need].size > OVERHEAD
    ensures Tiled(g, Cut(t, k, t[k] + need), size)
  {
    var y, r := t[k] + need, Cut(t, k, t[k] + need);
    assert TileAt(h, t, size, k);
    TilesDistinct(h, t, size);
    forall i | 0 <= i < |r| ensures TileAt(g, r, size, i) {
      if i < k {
        assert r[i] == t[i] && r[i + 1] == t[i + 1] && TileAt(h, t, size, i);
      } else if i > k + 1 {
        assert r[i] == t[i - 1] && TileAt(h, t, size, i - 1);
        assert i + 1 < |r| ==> r[i + 1] == t[i];
      }
    }
  }

  lemma CutFooted(f: map<nat, nat>, h: Headers, t: seq<nat>, size: nat, k: nat, y: nat)
    requires Tiled(h, t, size) && Footed(f, t) && k < |t| && y !in t
    ensures Footed(f[End(t, k, size) := y][y := t[k]], Cut(t, k, y))
  {
    var g, r := f[End(t, k, size) := y][y := t[k]], Cut(t, k, y);
    TilesDistinct(h, t, size);
    forall i | 0 < i < |r| ensures FootAt(g, r, i) {
      if i <= k {
        assert r[i] == t[i] && r[i - 1] == t[i - 1] && FootAt(f, t, i);
        if k + 1 >= |t| { StartsInside(h, t, size, i); }
      } else if i > k + 2 {
        assert r[i] == t[i - 1] && r[i - 1] == t[i - 2] && FootAt(f, t, i - 1);
      }
    }
  }

  lemma StartsInside(h: Headers, t: seq<nat>, size: nat, i: nat)
    requires Tiled(h, t, size) && i < |t|
    ensures t[i] < size
  {
    LastFits(h, t, size, i);
    assert TileAt(h, t, size, i);
  }

  lemma CutCoalesced(h: Headers, g: Headers, t: seq<nat>, size: nat, k: nat, y: nat)
    requires Tiled(h, t, size) && Coalesced(h, t) && k < |t| && OthersKept(h, g, t, t[k]) && FreeAt(h, t, k)
    requires t[k] in g && y in g && !g[t[k]].free
    ensures Coalesced(g, Cut(t, k, y))
  {
    var r := Cut(t, k, y);
    TilesDistinct(h, t, size);
    forall i: nat ensures !Mergeable(g, r, i) {
      if i + 1 < |r| {
        if i + 1 < k {
          assert r[i] == t[i] && r[i + 1] == t[i + 1] && TileAt(h, t, size, i) && TileAt(h, t, size, i + 1);
          assert !Mergeable(h, t, i);
        } else if i + 1 == k || i == k {
          assert r[k] == t[k];
        } else if i == k + 1 {
          assert r[i + 1] == t[k + 1] && TileAt(h, t, size, k + 1);
          assert !Mergeable(h, t, k);
        } else {
          assert r[i] == t[i - 1] && r[i + 1] == t[i] && TileAt(h, t, size, i - 1) && TileAt(h, t, size, i);
          assert !Mergeable(h, t, i - 1);
        }
      }
    }
  }

  lemma {:induction false} CutAllocated(h: Headers, g: Headers, t: seq<nat>, size: nat, k: nat, y: nat)
    requires Tiled(h, t, size) && k < |t| && OthersKept(h, g, t, t[k]) && FreeAt(h, t, k) && y !in t
    requires t[k] in g && y in g && !g[t[k]].free && g[y].free
    ensures Allocated(g, Cut(t, k, y)) == Allocated(h, t) + g[t[k]].size
  {
    Sides(h, t, size, k);
    AllocatedFrame(h, g, t[..k]);
    AllocatedFrame(h, g, t[k + 1..]);
    AllocatedParts(h, t[..k], t[k], t[k + 1..]);
    AllocatedParts(g, t[..k], t[k], [y] + t[k + 1..]);
    AllocatedConcat(g, [y], t[k + 1..]);
    AllocatedOne(g, y);
    assert t == t[..k] + [t[k]] + t[k + 1..];
    assert Cut(t, k, y) == t[..k] + [t[k]] + ([y] + t[k + 1..]);
  }

  lemma {:induction false} AllocatedParts(h: Headers, a: seq<nat>, o: nat, b: seq<nat>)
    ensures Allocated(h, a + [o] + b)
            == Allocated(h, a) + (if o in h && !h[o].free then h[o].size else 0) + Allocated(h, b)
  {
    AllocatedConcat(h, a + [o], b);
    AllocatedConcat(h, a, [o]);
    AllocatedOne(h, o);
  }

  /** What lies left and right of chunk k is other chunks, all with headers. */
  lemma Sides(h: Headers, t: seq<nat>, size: nat, k: nat)
    requires Tiled(h, t, size) && k < |t|
    ensures forall o :: o in t[..k] || o in t[k + 1..] ==> o in h && o in t && o != t[k]
  {
    TilesDistinct(h, t, size);
    forall i | 0 <= i < |t| ensures t[i] in h {
      assert TileAt(h, t, size, i);
    }
  }

  lemma SameSizesTiled(h: Headers, g: Headers, t: seq<nat>, size: nat)
    requires Tiled(h, t, size) && forall o :: o in t && o in h ==> o in g && g[o].size == h[o].size
    ensures Tiled(g, t, size)
  {
    forall k | 0 <= k < |t| ensures TileAt(g, t, size, k) {
      assert TileAt(h, t, size, k);
    }
  }

  ghost function Taken(h: Headers, o: nat): nat {
    if o in h && !h[o].free then h[o].size else 0
  }

  lemma {:induction false} OneChanged(h: Headers, g: Headers, t: seq<nat>, size: nat, k: nat)
    requires Tiled(h, t, size) && k < |t| && OthersKept(h, g, t, t[k])
    ensures Allocated(g, t) + Taken(h, t[k]) == Allocated(h, t) + Taken(g, t[k])
  {
    Sides(h, t, size, k);
    AllocatedFrame(h, g, t[..k]);
    AllocatedFrame(h, g, t[k + 1..]);
    AllocatedParts(h, t[..k], t[k], t[k + 1..]);
    AllocatedParts(g, t[..k], t[k], t[k + 1..]);
    assert t == t[..k] + [t[k]] + t[k + 1..];
  }

  /** Every free pair of neighbours involves a chunk from i to j. */
  ghost predicate MergeableOnly(h: Headers, t: seq<nat>, i: int, j: int) {
    forall k: nat :: Mergeable(h, t, k) ==> i <= k <= j
  }

  lemma MergeableFrame(h: Headers, g: Headers, t: seq<nat>, size: nat, x: nat, k: nat)
    requires Tiled(h, t, size) && OthersKept(h, g, t, x) && Mergeable(g, t, k) && t[k] != x && t[k + 1] != x
    ensures Mergeable(h, t, k)
  {
    assert TileAt(h, t, size, k) && TileAt(h, t, size, k + 1);
  }

  /** A chunk taken makes no pair, a chunk given back only pairs with its neighbours. */
  lemma ChangedMergeable(h: Headers, g: Headers, t: seq<nat>, size: nat, c: nat)
    requires Tiled(h, t, size) && Coalesced(h, t) && c < |t| && OthersKept(h, g, t, t[c]) && t[c] in g
    ensures MergeableOnly(g, t, c - 1, c) && (!g[t[c]].free ==> Coalesced(g, t))
  {
    TilesDistinct(h, t, size);
    forall k: nat | Mergeable(g, t, k) ensures k == c || k + 1 == c {
      if k != c && k + 1 != c {
        MergeableFrame(h, g, t, size, t[c], k);
        assert false;
      }
    }
  }

  lemma JoinedTiled(h: Headers, g: Headers, t: seq<nat>, size: nat, m: nat)
    requires Tiled(h, t, size) && m + 1 < |t| && OthersKept(h, g, t, t[m]) && t[m] in h && t[m + 1] in h
    requires t[m] in g && g[t[m]].size == h[t[m]].size + h[t[m + 1]].size
    ensures Tiled(g, Joined(t, m), size)
  {
    var r := Joined(t, m);
    TilesDistinct(h, t, size);
    assert TileAt(h, t, size, m) && TileAt(h, t, size, m + 1);
    forall i | 0 <= i < |r| ensures TileAt(g, r, size, i) {
      if i < m {
        assert r[i] == t[i] && r[i + 1] == t[i + 1] && TileAt(h, t, size, i);
      } else if i > m {
        assert r[i] == t[i + 1] && TileAt(h, t, size, i + 1);
        assert i + 1 < |r| ==> r[i + 1] == t[i + 2];
      }
    }
  }

  /** The footers but for the one in front of chunk n. */
  ghost predicate FootedBut(f: map<nat, nat>, t: seq<nat>, n: nat) {
    forall k :: 0 < k < |t| && k != n ==> FootAt(f, t, k)
  }

  lemma JoinedFooted(f: map<nat, nat>, t: seq<nat>, m: nat)
    requires m + 1 < |t| && FootedBut(f, t, m + 1)
    ensures FootedBut(f, Joined(t, m), m + 1)
  {
    var r := Joined(t, m);
    forall k | 0 < k < |r| && k != m + 1 ensures FootAt(f, r, k) {
      if k <= m {
        assert r[k] == t[k] && r[k - 1] == t[k - 1] && FootAt(f, t, k);
      } else {
        assert r[k] == t[k + 1] && r[k - 1] == t[k] && FootAt(f, t, k + 1);
      }
    }
  }

  lemma FootWritten(f: map<nat, nat>, h: Headers, t: seq<nat>, size: nat, m: nat)
    requires Tiled(h, t, size) && m < |t| && FootedBut(f, t, m + 1)
    ensures Footed(f[End(t, m, size) := t[m]], t)
  {
    var g := f[End(t, m, size) := t[m]];
    TilesDistinct(h, t, size);
    forall k | 0 < k < |t| ensures FootAt(g, t, k) {
      if k != m + 1 {
        assert FootAt(f, t, k);
        StartsInside(h, t, size, k);
      }
    }
  }

  lemma JoinedMergeable(h: Headers, g: Headers, t: seq<nat>, size: nat, m: nat)
    requires Tiled(h, t, size) && m + 1 < |t| && OthersKept(h, g, t, t[m]) && MergeableOnly(h, t, m, m + 1)
    requires FreeAt(h, t, m) && FreeAt(h, t, m + 1)
    ensures MergeableOnly(g, Joined(t, m), m, m)
  {
    var r := Joined(t, m);
    TilesDistinct(h, t, size);
    forall k: nat | Mergeable(g, r, k) ensures k == m {
      if k + 1 < m {
        assert r[k] == t[k] && r[k + 1] == t[k + 1];
        MergeableFrame(h, g, t, size, t[m], k);
        assert false;
      } else if k + 1 == m {
        assert r[k] == t[k] && TileAt(h, t, size, k);
        assert Mergeable(h, t, k);
        assert false;
      } else if k > m {
        assert r[k] == t[k + 1] && r[k + 1] == t[k + 2];
        MergeableFrame(h, g, t, size, t[m], k + 1);
        assert false;
      }
    }
  }

  lemma {:induction false} JoinedAllocated(h: Headers, g: Headers, t: seq<nat>, size: nat, m: nat)
    requires Tiled(h, t, size) && m + 1 < |t| && OthersKept(h, g, t, t[m])
    requires FreeAt(h, t, m) && FreeAt(h, t, m + 1) && t[m] in g && g[t[m]].free
    ensures Allocated(g, Joined(t, m)) == Allocated(h, t)
  {
    OneChanged(h, g, t, size, m);
    TilesDistinct(h, t, size);
    assert t[m + 1] in g && g[t[m + 1]].free;
    AllocatedParts(g, t[..m + 1], t[m + 1], t[m + 2..]);
    AllocatedConcat(g, t[..m + 1], t[m + 2..]);
    assert t == t[..m + 1] + [t[m + 1]] + t[m + 2..];
  }

  ghost predicate Laid(h: Headers, f: map<nat, nat>, t: seq<nat>, size: nat) {
    Tiled(h, t, size) && Footed(f, t) && Coalesced(h, t)
  }

  /** The front of free chunk k is handed out, the rest stays free. */
  lemma CutLaid(h: Headers, g: Headers, f: map<nat, nat>, t: seq<nat>, size: nat, k: nat, need: nat)
    requires Laid(h, f, t, size) && k < |t| && OthersKept(h, g, t, t[k]) && FreeAt(h, t, k)
    requires OVERHEAD < need && need + OVERHEAD < h[t[k]].size && t[k] in g && t[k] + need in g
    requires g[t[k]].size == need && !g[t[k]].free && g[t[k] + need].size == h[t[k]].size - need && g[t[k] + need].free
    ensures var y := t[k] + need;
      && y !in t && Laid(g, f[y + g[y].size := y][y := t[k]], Cut(t, k, y), size)
      && Allocated(g, Cut(t, k, y)) == Allocated(h, t) + need
  {
    var y := t[k] + need;
    InsideIsNoTile(h, t, size, k, y);
    CutTiled(h, g, t, size, k, need);
    CutCoalesced(h, g, t, size, k, y);
    CutAllocated(h, g, t, size, k, y);
    assert TileAt(h, t, size, k);
    CutFooted(f, h, t, size, k, y);
  }

  /** Free chunk k is handed out as a whole. */
  lemma {:induction false} TakeLaid(h: Headers, g: Headers, f: map<nat, nat>, t: seq<nat>, size: nat, k: nat)
    requires Laid(h, f, t, size) && k < |t| && OthersKept(h, g, t, t[k]) && FreeAt(h, t, k)
    requires t[k] in g && !g[t[k]].free && g[t[k]].size == h[t[k]].size
    ensures Laid(g, f, t, size) && Allocated(g, t) == Allocated(h, t) + h[t[k]].size && h[t[k]].size > OVERHEAD
  {
    assert TileAt(h, t, size, k);
    SameSizesTiled(h, g, t, size);
    ChangedMergeable(h, g, t, size, k);
    OneChanged(h, g, t, size, k);
  }
}
