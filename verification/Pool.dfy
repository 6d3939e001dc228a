/**
 * The boundary-tag allocator of src/ld_alloc.c. Offsets are relative to the start of a memory; a header
 * is found by its offset, and the pointer at the end of a chunk by the offset where the chunk ends.
 */
module Pool {
  import opened Wrappers
  import opened Common
  import opened PoolLists
  import opened PoolTiles
  import opened PoolThreads

  /** The statistics alloc_mem and alloc_prog_mem. */
  ghost predicate Totals(h: Headers, t: seq<nat>, allocs: seq<nat>, mem: nat, prog: nat) {
    mem == Allocated(h, t) && prog + OVERHEAD * |allocs| == mem
  }

  /** The j-th free chunk is the first that fits. */
  ghost predicate FirstFitting(h: Headers, frees: seq<nat>, need: nat, j: nat) {
    && j < |frees| && frees[j] in h && h[frees[j]].size >= need
    && forall i :: 0 <= i < j ==> frees[i] in h && h[frees[i]].size < need
  }

  /** What a chunk of n bytes is cut to: the rest must be worth a chunk. */
  function Trimmed(n: nat, need: nat): nat {
    if n >= need && n - need > OVERHEAD then need else n
  }

  /** Chunk x, the j-th of the free list, gave need bytes: the rest takes its place in the list, if there is a rest. */
  ghost predicate Carved(h: Headers, frees: seq<nat>, h': Headers, frees': seq<nat>, x: nat, need: nat, j: nat) {
    && x in h && x in h' && h[x].size >= need && h'[x].size == Trimmed(h[x].size, need) && j < |frees|
    && frees' == if h'[x].size < h[x].size then frees[j := x + need] else Without(frees, j)
  }

  /** The block that the j-th free chunk, the first that fits, gives to a request of need bytes. */
  ghost predicate BlockAt(h: Headers, frees: seq<nat>, start: nat, need: nat, j: nat, p: nat, room: int) {
    && FirstFitting(h, frees, need, j)
    && p == start + frees[j] + HEADER && room == Trimmed(h[frees[j]].size, need) - OVERHEAD
  }

  datatype Block = Block(at: nat, room: int)

  ghost function BlockOf(h: Headers, x: nat, start: nat): Block
    requires x in h
  {
    Block(start + x + HEADER, h[x].size - OVERHEAD)
  }

  ghost function BlocksOf(h: Headers, allocs: seq<nat>, start: nat): set<Block> {
    set x | x in allocs && x in h :: BlockOf(h, x, start)
  }

  /** One more chunk handed out is one more block. */
  lemma BlocksMore(h: Headers, g: Headers, allocs: seq<nat>, x: nat, start: nat)
    requires Kept(h, g, allocs) && x in g && forall o :: o in allocs ==> o in h
    ensures BlocksOf(g, [x] + allocs, start) == BlocksOf(h, allocs, start) + {BlockOf(g, x, start)}
  {
    forall o | o in allocs ensures BlockOf(g, o, start) == BlockOf(h, o, start) {
    }
  }

  lemma BlocksLess(h: Headers, g: Headers, allocs: seq<nat>, rest: seq<nat>, x: nat, start: nat)
    requires Kept(h, g, rest) && x in h && (forall o :: o in allocs ==> o in h)
    requires forall o :: o in rest <==> o in allocs && o != x
    ensures BlocksOf(g, rest, start) == BlocksOf(h, allocs, start) - {BlockOf(h, x, start)}
  {
    forall o | o in rest ensures BlockOf(g, o, start) == BlockOf(h, o, start) {
    }
  }

  ghost predicate NoFit(h: Headers, frees: seq<nat>, need: nat) {
    forall o :: o in frees && o in h ==> h[o].size < need
  }

  /** The chunks handed out have their size still. */
  ghost predicate Kept(h: Headers, g: Headers, allocs: seq<nat>) {
    forall o :: o in allocs && o in h ==> o in g && g[o].size == h[o].size
  }

  /** A memory rejected by its total has no chunk that fits. */
  lemma {:induction false} RejectedHasNoFit(h: Headers, f: map<nat, nat>, t: seq<nat>, frees: seq<nat>, size: nat,
                                            need: nat)
    requires Laid(h, f, t, size) && Lists(h, t, frees, true) && size - Allocated(h, t) < need
    ensures NoFit(h, frees, need)
  {
    forall o | o in frees && o in h ensures h[o].size < need {
      var k :| 0 <= k < |t| && t[k] == o;
      FreeFits(h, t, size, k, |t|);
      assert t[..|t|] == t;
    }
  }

  class Memory {
    const start: nat
    const size: nat
    var hdr: Headers
    var foot: map<nat, nat>
    var freeList: Option<nat>
    var allocList: Option<nat>
    var allocMem: nat
    var allocProg: nat
    ghost var tiles: seq<nat>
    ghost var frees: seq<nat>
    ghost var allocs: seq<nat>

    ghost predicate Valid()
      reads this
    {
      && Laid(hdr, foot, tiles, size) && Threads(hdr, freeList, allocList, tiles, frees, allocs)
      && Totals(hdr, tiles, allocs, allocMem, allocProg)
    }

    /** What is handed out: a pointer and the room behind it. */
    ghost function Blocks(): set<Block>
      reads this
    {
      BlocksOf(hdr, allocs, start)
    }

    /** MP_INIT_MEMORY_STRUCT. */
    constructor (start: nat, size: nat)
      requires size > OVERHEAD
      ensures Valid() && this.start == start && this.size == size && allocs == [] && frees == [0]
      ensures 0 in hdr && hdr[0].size == size
    {
      this.start, this.size := start, size;
      hdr := map[0 := Chunk(size, None, None, true)];
      foot := map[];
      freeList, allocList, allocMem, allocProg := Some(0), None, 0, 0;
      tiles, frees, allocs := [0], [0], [];
      new;
      AllocatedOne(hdr, 0);
    }

    /** Walks the free list; the first chunk that fits is the j-th of it. */
    method FirstFit(need: nat) returns (r: Option<nat>, ghost j: nat)
      requires Valid()
      ensures r == None <==> NoFit(hdr, frees, need)
      ensures r != None ==> r.value in frees && r.value in hdr && hdr[r.value].size >= need
      ensures r != None ==> FirstFitting(hdr, frees, need, j) && r.value == frees[j]
    {
      r := freeList;
      j := 0;
      while r != None
        invariant j <= |frees| && r == (if j < |frees| then Some(frees[j]) else None)
        invariant forall i :: 0 <= i < j ==> frees[i] in hdr && hdr[frees[i]].size < need
        decreases |frees| - j
      {
        assert Node(hdr, frees, j);
        if hdr[r.value].size >= need {
          return;
        }
        r := hdr[r.value].next;
        j := j + 1;
      }
      assert forall o :: o in frees ==> exists i :: 0 <= i < |frees| && frees[i] == o;
    }

    /** Chunk x is out of the free list and marked, with the lists and sums yet to follow. */
    ghost predicate Pending(x: nat)
      reads this
    {
      && Laid(hdr, foot, tiles, size) && Loose(hdr, freeList, allocList, tiles, frees, allocs, x)
      && x in hdr && hdr[x].size > OVERHEAD
      && allocMem + hdr[x].size == Allocated(hdr, tiles) && allocProg + OVERHEAD * |allocs| == allocMem
    }

    method Split(x: nat, need: nat, ghost j: nat)
      requires Valid() && j < |frees| && x == frees[j] && x in hdr && need > OVERHEAD && hdr[x].size > need + OVERHEAD
      modifies this`hdr, this`foot, this`freeList, this`tiles, this`frees
      ensures Pending(x) && hdr[x].size == need && OthersKept(old(hdr), hdr, old(tiles), x)
      ensures frees == old(frees)[j := x + need]
    {
      LinkedIn(hdr, tiles, frees, j, true);
      ghost var k :| 0 <= k < |tiles| && tiles[k] == x;
      var y := x + need;
      InsideIsNoTile(hdr, tiles, size, k, y);
      Rewrite(x, need, j, k);
      WriteEnds(x, y, k, old(hdr));
    }

    /** Both chunks get their end pointers. */
    method WriteEnds(x: nat, y: nat, ghost k: nat, ghost h: Headers)
      requires Laid(h, foot, tiles, size) && k < |tiles| && tiles[k] == x && OthersKept(h, hdr, tiles, x)
      requires FreeAt(h, tiles, k)
      requires x in hdr && y in hdr && y == x + hdr[x].size && OVERHEAD < hdr[x].size
      requires hdr[x].size + OVERHEAD < h[x].size
      requires !hdr[x].free && hdr[y].size == h[x].size - hdr[x].size && hdr[y].free
      modifies this`foot, this`tiles
      ensures tiles == Cut(old(tiles), k, y) && Laid(hdr, foot, tiles, size)
      ensures Allocated(hdr, tiles) == Allocated(h, old(tiles)) + hdr[x].size
    {
      CutLaid(h, hdr, foot, tiles, size, k, hdr[x].size);
      foot := foot[y + hdr[y].size := y][y := x];
      tiles := Cut(tiles, k, y);
    }

    /** The headers at x and behind it are written, and the free list led past x. */
    method Rewrite(x: nat, need: nat, ghost j: nat, ghost k: nat)
      requires Threads(hdr, freeList, allocList, tiles, frees, allocs) && j < |frees| && k < |tiles|
      requires tiles[k] == frees[j] == x
      requires x in hdr && 0 < need <= hdr[x].size && x + need !in tiles
      modifies this`hdr, this`freeList, this`frees
      ensures Loose(hdr, freeList, allocList, Cut(tiles, k, x + need), frees, allocs, x)
      ensures OthersKept(old(hdr), hdr, tiles, x) && x in hdr && hdr[x].size == need && !hdr[x].free
      ensures var y := x + need; y in hdr && hdr[y].size == old(hdr[x].size) - need && hdr[y].free
      ensures frees == old(frees)[j := x + need]
    {
      SplitThreads(hdr, freeList, allocList, tiles, frees, allocs, j, k, need);
      freeList := if hdr[x].prev == None then Some(x + need) else freeList;
      hdr := SplitHeaders(hdr, x, need);
      frees := frees[j := x + need];
    }

    method TakeWhole(x: nat, ghost j: nat)
      requires Valid() && j < |frees| && x == frees[j] && x in hdr
      modifies this`hdr, this`freeList, this`frees
      ensures Pending(x) && hdr[x].size == old(hdr[x].size) && OthersKept(old(hdr), hdr, old(tiles), x)
      ensures frees == Without(old(frees), j)
    {
      LinkedIn(hdr, tiles, frees, j, true);
      ghost var k :| 0 <= k < |tiles| && tiles[k] == x;
      var h := hdr;
      TakeThreads(h, freeList, allocList, tiles, frees, allocs, j);
      hdr, freeList := TakeHeaders(h, x), DeleteHead(h, freeList, x);
      TakeLaid(h, hdr, foot, tiles, size, k);
      frees := Without(frees, j);
    }

    method HandOut(x: nat)
      requires Pending(x)
      modifies this`hdr, this`allocList, this`allocs, this`allocMem, this`allocProg
      ensures Valid() && allocs == [x] + old(allocs) && SameChunks(old(hdr), hdr)
      ensures allocMem == old(allocMem) + hdr[x].size
    {
      LinkThreads(hdr, freeList, allocList, tiles, frees, allocs, x);
      ghost var h := hdr;
      hdr := Insert(hdr, allocList, x);
      RelinkLaid(h, hdr, foot, tiles, size);
      allocList, allocs := Some(x), [x] + allocs;
      allocMem := allocMem + hdr[x].size;
      allocProg := allocProg + (hdr[x].size - OVERHEAD);
    }

    /** The part of mempool_alloc that tries one memory. */
    method AllocIn(need: nat) returns (r: Option<nat>, ghost j: nat)
      requires Valid() && need > OVERHEAD
      modifies this
      ensures Valid() && (r == None <==> NoFit(old(hdr), old(frees), need))
      ensures r == None ==> unchanged(this)
      ensures r != None ==> FirstFitting(old(hdr), old(frees), need, j) && r.value == old(frees)[j]
      ensures r != None ==> allocs == [r.value] + old(allocs) && Kept(old(hdr), hdr, old(allocs))
      ensures r != None ==> r.value in hdr && allocMem == old(allocMem) + hdr[r.value].size
      ensures r != None ==> Carved(old(hdr), old(frees), hdr, frees, r.value, need, j)
    {
      if size - allocMem < need {
        RejectedHasNoFit(hdr, foot, tiles, frees, size, need);
        return None, 0;
      }
      r, j := FirstFit(need);
      if r == None {
        return;
      }
      Carve(r.value, need, j);
    }

    method Carve(x: nat, need: nat, ghost j: nat)
      requires Valid() && j < |frees| && x == frees[j] && x in hdr && OVERHEAD < need <= hdr[x].size
      modifies this
      ensures Valid() && allocs == [x] + old(allocs) && Kept(old(hdr), hdr, old(allocs))
      ensures x in hdr && allocMem == old(allocMem) + hdr[x].size
      ensures Carved(old(hdr), old(frees), hdr, frees, x, need, j)
    {
      LinkedIn(hdr, tiles, frees, j, true);
      if hdr[x].size - need > OVERHEAD {
        Split(x, need, j);
      } else {
        TakeWhole(x, j);
      }
      HandOut(x);
    }

    /** The first loop of merge_free_chunk: back over free chunks by their end pointers. */
    method WalkBack(x: nat, ghost c: nat) returns (p: nat, ghost m: nat)
      requires Tiled(hdr, tiles, size) && Footed(foot, tiles) && MergeableOnly(hdr, tiles, c - 1, c)
      requires c < |tiles| && tiles[c] == x && FreeAt(hdr, tiles, c)
      ensures p <= x && p in hdr && hdr[p].free
      ensures m < |tiles| && tiles[m] == p && FreeAt(hdr, tiles, m) && MergeableOnly(hdr, tiles, m, m + 1)
    {
      var p0: nat := x;
      p := x;
      m := c;
      ghost var i: nat := c;
      assert TileAt(hdr, tiles, size, c);
      while hdr[p0].free
        invariant i < |tiles| && m < |tiles| && tiles[i] == p0 && tiles[m] == p && p0 in hdr && FreeAt(hdr, tiles, m)
        invariant (i == m && m == c) || (i + 1 == m && c <= m + 1 && m <= c)
        decreases i
      {
        if i != m { assert Mergeable(hdr, tiles, i); }
        p, m := p0, i;
        if p0 <= OVERHEAD {
          FirstTile(hdr, tiles, size, i);
          break;
        }
        assert i > 0;
        assert FootAt(foot, tiles, i) && TileAt(hdr, tiles, size, i - 1);
        p0 := foot[p0];
        i := i - 1;
      }
      forall k: nat | Mergeable(hdr, tiles, k) ensures m <= k <= m + 1 {
      }
      if m < c { Ascending(hdr, tiles, size, m, c); }
    }

    /** What the second loop of merge_free_chunk keeps, with p the m-th chunk; only its end pointer is missing. */
    ghost predicate Merging(p: nat, m: nat)
      reads this
    {
      && Tiled(hdr, tiles, size) && FootedBut(foot, tiles, m + 1) && MergeableOnly(hdr, tiles, m, m + 1)
      && Threads(hdr, freeList, allocList, tiles, frees, allocs) && Totals(hdr, tiles, allocs, allocMem, allocProg)
      && m < |tiles| && tiles[m] == p && FreeAt(hdr, tiles, m)
    }

    /** One turn of that loop: the chunk z behind p joins it. */
    method JoinNext(p: nat, z: nat, ghost m: nat) returns (ghost j: nat)
      requires Merging(p, m) && m + 1 < |tiles| && tiles[m + 1] == z && FreeAt(hdr, tiles, m + 1)
      modifies this`hdr, this`freeList, this`tiles, this`frees
      ensures Merging(p, m) && |tiles| == old(|tiles|) - 1 && Kept(old(hdr), hdr, allocs)
      ensures j < |old(frees)| && old(frees)[j] == z && frees == Without(old(frees), j)
      ensures tiles == Joined(old(tiles), m)
      ensures z in hdr && hdr[z].size == old(hdr[z].size) && End(tiles, m, size) == z + hdr[z].size
    {
      assert z in frees by { assert tiles[m + 1] in tiles; }
      j :| 0 <= j < |frees| && frees[j] == z;
      ghost var h := hdr;
      JoinChunks(z, p, m, j);
      JoinedKeeps(h, hdr, foot, tiles, size, m);
      tiles := Joined(tiles, m);
    }

    /** The free list keeps its order; l is what it was before the merge. */
    method JoinKept(p: nat, z: nat, ghost m: nat, ghost l: seq<nat>)
      requires Merging(p, m) && m + 1 < |tiles| && tiles[m + 1] == z && FreeAt(hdr, tiles, m + 1)
      requires frees == Starting(l, tiles)
      modifies this`hdr, this`freeList, this`tiles, this`frees
      ensures Merging(p, m) && |tiles| == old(|tiles|) - 1 && Kept(old(hdr), hdr, allocs)
      ensures z in hdr && hdr[z].size == old(hdr[z].size) && End(tiles, m, size) == z + hdr[z].size
      ensures frees == Starting(l, tiles)
    {
      ghost var j := JoinNext(p, z, m);
      JoinedStarting(old(hdr), old(tiles), size, m, l, j);
    }

    method JoinChunks(z: nat, p: nat, ghost m: nat, ghost j: nat)
      requires Tiled(hdr, tiles, size) && Threads(hdr, freeList, allocList, tiles, frees, allocs)
      requires m + 1 < |tiles| && tiles[m] == p && tiles[m + 1] == z && j < |frees| && frees[j] == z
      requires FreeAt(hdr, tiles, m) && FreeAt(hdr, tiles, m + 1)
      modifies this`hdr, this`freeList, this`frees
      ensures Threads(hdr, freeList, allocList, Joined(tiles, m), frees, allocs)
      ensures OthersKept(old(hdr), hdr, tiles, p) && p in hdr && hdr[p].free
      ensures hdr[p].size == old(hdr[p].size) + old(hdr[z].size)
      ensures z in hdr && hdr[z].size == old(hdr[z].size) && Kept(old(hdr), hdr, allocs)
      ensures frees == Without(old(frees), j)
    {
      TilesDistinct(hdr, tiles, size);
      JoinThreads(hdr, freeList, allocList, tiles, frees, allocs, m, j);
      freeList := DeleteHead(hdr, freeList, z);
      hdr := JoinHeaders(hdr, p, z);
      frees := Without(frees, j);
    }

    /** The second loop of merge_free_chunk, and the end pointer it writes. */
    method Absorb(p: nat, ghost m: nat)
      requires Merging(p, m)
      modifies this`hdr, this`foot, this`freeList, this`tiles, this`frees
      ensures Valid() && Kept(old(hdr), hdr, allocs) && frees == Starting(old(frees), tiles)
    {
      assert TileAt(hdr, tiles, size, m);
      StartingAll(frees, tiles);
      var p0 := p + hdr[p].size;
      EndIsTile(hdr, tiles, size, m);
      while p0 < size && hdr[p0].free
        invariant Merging(p, m) && Kept(old(hdr), hdr, allocs) && p0 == End(tiles, m, size) && (p0 < size ==> p0 in hdr)
        invariant frees == Starting(old(frees), tiles)
        decreases |tiles|
      {
        JoinKept(p, p0, m, old(frees));
        p0 := p0 + hdr[p0].size;
        EndIsTile(hdr, tiles, size, m);
      }
      EndIsTile(hdr, tiles, size, m);
      WriteEnd(p, m);
    }

    /** With nothing free behind p any more its end pointer is written. */
    method WriteEnd(p: nat, ghost m: nat)
      requires Merging(p, m) && (m + 1 < |tiles| ==> !FreeAt(hdr, tiles, m + 1))
      modifies this`foot
      ensures Valid()
    {
      assert TileAt(hdr, tiles, size, m);
      AllMerged(hdr, tiles, size, m);
      FootWritten(foot, hdr, tiles, size, m);
      foot := foot[p + hdr[p].size := p];
    }

    /** The part of mempool_free that concerns one memory, for a chunk handed out. */
    method Release(x: nat)
      requires Valid() && x in allocs && x in hdr
      modifies this
      ensures Valid() && x !in allocs && (forall o :: o in allocs <==> o in old(allocs) && o != x)
      ensures |allocs| == old(|allocs|) - 1 && Kept(old(hdr), hdr, allocs)
      ensures allocMem == old(allocMem) - old(hdr[x].size)
      ensures frees == Starting([x] + old(frees), tiles)
    {
      ghost var j :| 0 <= j < |allocs| && allocs[j] == x;
      LinkedIn(hdr, tiles, allocs, j, false);
      ghost var c :| 0 <= c < |tiles| && tiles[c] == x;
      WithoutMembers(allocs, j);
      GiveBack(x, j, c);
      var p;
      ghost var m;
      p, m := WalkBack(x, c);
      Absorb(p, m);
    }

    /** Chunk x changes lists and is marked free. */
    method GiveBack(x: nat, ghost j: nat, ghost c: nat)
      requires Valid() && j < |allocs| && allocs[j] == x && c < |tiles| && tiles[c] == x && x in hdr && !hdr[x].free
      modifies this`hdr, this`freeList, this`allocList, this`frees, this`allocs, this`allocMem, this`allocProg
      ensures Tiled(hdr, tiles, size) && Footed(foot, tiles) && MergeableOnly(hdr, tiles, c - 1, c)
      ensures FreeAt(hdr, tiles, c)
      ensures Threads(hdr, freeList, allocList, tiles, frees, allocs) && Totals(hdr, tiles, allocs, allocMem, allocProg)
      ensures allocs == Without(old(allocs), j) && Kept(old(hdr), hdr, old(allocs)) && frees == [x] + old(frees)
      ensures allocMem == old(allocMem) - old(hdr[x].size)
    {
      ghost var h := hdr;
      ToFreeList(x, j);
      GivenBack(h, hdr, foot, tiles, size, c, allocs);
      allocMem := allocMem - hdr[x].size;
      allocProg := allocProg - (hdr[x].size - OVERHEAD);
    }

    method ToFreeList(x: nat, ghost j: nat)
      requires Threads(hdr, freeList, allocList, tiles, frees, allocs) && j < |allocs| && allocs[j] == x
      modifies this`hdr, this`freeList, this`allocList, this`frees, this`allocs
      ensures Threads(hdr, freeList, allocList, tiles, frees, allocs) && allocs == Without(old(allocs), j)
      ensures x in old(hdr) && OthersKept(old(hdr), hdr, tiles, x) && x in hdr && hdr[x].size == old(hdr[x].size)
      ensures hdr[x].free && frees == [x] + old(frees)
    {
      FreeThreads(hdr, freeList, allocList, tiles, frees, allocs, j);
      allocList, freeList, hdr := DeleteHead(hdr, allocList, x), Some(x), FreeHeaders(hdr, freeList, x);
      frees, allocs := [x] + frees, Without(allocs, j);
    }
  }

  lemma {:induction false} JoinedKeeps(h: Headers, g: Headers, f: map<nat, nat>, t: seq<nat>, size: nat, m: nat)
    requires Tiled(h, t, size) && m + 1 < |t| && OthersKept(h, g, t, t[m]) && t[m] in h && t[m + 1] in h && t[m] in g
    requires g[t[m]].size == h[t[m]].size + h[t[m + 1]].size && g[t[m]].free && t[m + 1] in g
    requires g[t[m + 1]].size == h[t[m + 1]].size
    requires FootedBut(f, t, m + 1) && MergeableOnly(h, t, m, m + 1) && FreeAt(h, t, m) && FreeAt(h, t, m + 1)
    ensures var r := Joined(t, m);
      && |r| == |t| - 1 && r[m] == t[m] && Tiled(g, r, size) && FootedBut(f, r, m + 1) && MergeableOnly(g, r, m, m + 1)
      && FreeAt(g, r, m) && Allocated(g, r) == Allocated(h, t) && End(r, m, size) == t[m + 1] + g[t[m + 1]].size
  {
    assert TileAt(h, t, size, m + 1);
    JoinedTiled(h, g, t, size, m);
    JoinedFooted(f, t, m);
    JoinedMergeable(h, g, t, size, m);
    JoinedAllocated(h, g, t, size, m);
  }

  /** The chunk that joins another leaves those of l that start one. */
  lemma {:induction false} JoinedStarting(h: Headers, t: seq<nat>, size: nat, m: nat, l: seq<nat>, j: nat)
    requires Tiled(h, t, size) && m + 1 < |t|
    requires var f := Starting(l, t); Distinct(f) && j < |f| && f[j] == t[m + 1]
    ensures Starting(l, Joined(t, m)) == Without(Starting(l, t), j)
  {
    TilesDistinct(h, t, size);
    WithoutMembers(t, m + 1);
    assert Joined(t, m) == Without(t, m + 1);
    StartingLess(l, t, Joined(t, m), j);
  }

  lemma {:induction false} GivenBack(h: Headers, g: Headers, f: map<nat, nat>, t: seq<nat>, size: nat, c: nat,
                                     allocs: seq<nat>)
    requires Laid(h, f, t, size) && c < |t| && OthersKept(h, g, t, t[c]) && t[c] in h && t[c] in g
    requires !h[t[c]].free && g[t[c]].free && g[t[c]].size == h[t[c]].size && Distinct(allocs)
    requires Lists(g, t, allocs, false)
    ensures Tiled(g, t, size) && MergeableOnly(g, t, c - 1, c) && h[t[c]].size > OVERHEAD
    ensures Allocated(g, t) == Allocated(h, t) - h[t[c]].size && Allocated(g, t) >= OVERHEAD * |allocs|
  {
    assert TileAt(h, t, size, c);
    SameSizesTiled(h, g, t, size);
    ChangedMergeable(h, g, t, size, c);
    OneChanged(h, g, t, size, c);
    OverheadCovered(g, t, size, allocs);
  }

  /** Every chunk handed out has room for its overhead. */
  lemma {:induction false} OverheadCovered(h: Headers, t: seq<nat>, size: nat, l: seq<nat>)
    requires Tiled(h, t, size) && Distinct(l) && forall o :: o in l ==> o in t && o in h && !h[o].free
    ensures Allocated(h, t) >= OVERHEAD * |l|
    decreases |l|
  {
    if l != [] {
      assert l[0] in l;
      var k :| 0 <= k < |t| && t[k] == l[0];
      assert TileAt(h, t, size, k);
      var g := h[l[0] := h[l[0]].(free := true)];
      SameSizesTiled(h, g, t, size);
      OneChanged(h, g, t, size, k);
      OverheadCovered(g, t, size, l[1..]);
    }
  }

  lemma EndIsTile(h: Headers, t: seq<nat>, size: nat, m: nat)
    requires Tiled(h, t, size) && m < |t|
    ensures End(t, m, size) < size <==> m + 1 < |t|
    ensures m + 1 < |t| ==> t[m + 1] in h
  {
    if m + 1 < |t| {
      StartsInside(h, t, size, m + 1);
      assert TileAt(h, t, size, m + 1);
    }
  }

  lemma AllMerged(h: Headers, t: seq<nat>, size: nat, m: nat)
    requires MergeableOnly(h, t, m, m + 1) && (m + 1 < |t| ==> !FreeAt(h, t, m + 1))
    ensures Coalesced(h, t)
  {
    forall k: nat ensures !Mergeable(h, t, k) {
    }
  }

  /** No chunk but the first starts within the overhead of one. */
  lemma FirstTile(h: Headers, t: seq<nat>, size: nat, i: nat)
    requires Tiled(h, t, size) && i < |t|
    ensures t[i] <= OVERHEAD <==> i == 0
  {
    assert TileAt(h, t, size, 0);
    if i > 0 { Ascending(h, t, size, 0, i); }
  }

  lemma {:induction false} RelinkLaid(h: Headers, g: Headers, f: map<nat, nat>, t: seq<nat>, size: nat)
    requires Laid(h, f, t, size) && SameChunks(h, g)
    ensures Laid(g, f, t, size) && Allocated(g, t) == Allocated(h, t)
  {
    SameSizesTiled(h, g, t, size);
    AllocatedFrame(h, g, t);
    forall k: nat ensures !Mergeable(g, t, k) {
      assert !Mergeable(h, t, k);
    }
  }

  /** What is handed out lies within the memory. */
  lemma BlockInside(m: Memory, b: Block)
    requires m.Valid() && b in m.Blocks()
    ensures m.start + HEADER <= b.at && b.at + b.room + (OVERHEAD - HEADER) <= m.start + m.size && b.room > 0
  {
    var x :| x in m.allocs && x in m.hdr && BlockOf(m.hdr, x, m.start) == b;
    var k :| 0 <= k < |m.tiles| && m.tiles[k] == x;
    LastFits(m.hdr, m.tiles, m.size, k);
    assert TileAt(m.hdr, m.tiles, m.size, k);
  }

  /** Two blocks handed out by a memory do not overlap. */
  lemma BlocksApart(m: Memory, b: Block, c: Block)
    requires m.Valid() && b in m.Blocks() && c in m.Blocks() && b != c
    ensures b.at + b.room <= c.at || c.at + c.room <= b.at
  {
    var x :| x in m.allocs && x in m.hdr && BlockOf(m.hdr, x, m.start) == b;
    var y :| y in m.allocs && y in m.hdr && BlockOf(m.hdr, y, m.start) == c;
    var i :| 0 <= i < |m.tiles| && m.tiles[i] == x;
    var j :| 0 <= j < |m.tiles| && m.tiles[j] == y;
    if i < j { Ascending(m.hdr, m.tiles, m.size, i, j); } else { Ascending(m.hdr, m.tiles, m.size, j, i); }
  }

  /** A memory from which nothing is handed out is one free chunk. */
  lemma NothingHeld(m: Memory)
    requires m.Valid() && m.allocs == []
    ensures m.tiles == [0] && m.frees == [0] && m.freeList == Some(0) && m.allocMem == 0 && m.allocProg == 0
    ensures 0 in m.hdr && m.hdr[0] == Chunk(m.size, None, None, true)
  {
    AllFree(m.hdr, m.tiles, m.size);
    AllocatedOne(m.hdr, 0);
    OnlyZero(m.frees);
    assert Node(m.hdr, m.frees, 0);
  }

  lemma OnlyZero(l: seq<nat>)
    requires Distinct(l) && forall o :: o in l <==> o == 0
    ensures l == [0]
  {
    assert 0 in l;
    var j := |l| - 1;
    assert l[0] in l && l[j] in l;
  }

  /** MP_ALIGN_SIZE for an eight-byte long, of a request with its overhead. */
  function Need(want: nat): (n: nat)
    ensures want + OVERHEAD <= n < want + OVERHEAD + 8 && n % 8 == 0
  {
    (want + OVERHEAD + 7) / 8 * 8
  }

  ghost predicate Apart(a: nat, b: nat, size: nat) {
    a + size <= b || b + size <= a
  }

  ghost function Union(bs: seq<set<Block>>): set<Block> {
    set k, b | 0 <= k < |bs| && b in bs[k] :: b
  }

  lemma UnionMore(bs: seq<set<Block>>, cs: seq<set<Block>>, i: nat, b: Block)
    requires |bs| == |cs| && i < |bs| && cs[i] == bs[i] + {b} && forall k :: 0 <= k < |bs| && k != i ==> cs[k] == bs[k]
    ensures Union(cs) == Union(bs) + {b}
  {
    forall c | c in Union(cs) ensures c in Union(bs) + {b} {
      var k :| 0 <= k < |cs| && c in cs[k];
      assert c in bs[k] || c == b;
    }
    forall c | c in Union(bs) ensures c in Union(cs) {
      var k :| 0 <= k < |bs| && c in bs[k];
      assert c in cs[k];
    }
    assert b in cs[i];
  }

  /** A memory that hands out chunk x adds its block to what the pool has handed out. */
  lemma OneMoreGiven(bs: seq<set<Block>>, cs: seq<set<Block>>, i: nat, h: Headers, g: Headers, allocs: seq<nat>, x: nat,
                     start: nat, b: Block)
    requires |bs| == |cs| && i < |bs| && forall k :: 0 <= k < |bs| && k != i ==> cs[k] == bs[k]
    requires bs[i] == BlocksOf(h, allocs, start) && cs[i] == BlocksOf(g, [x] + allocs, start)
    requires Kept(h, g, allocs) && x in g && b == BlockOf(g, x, start) && forall o :: o in allocs ==> o in h
    ensures Union(cs) == Union(bs) + {b}
  {
    BlocksMore(h, g, allocs, x, start);
    UnionMore(bs, cs, i, b);
  }

  lemma UnionNone(bs: seq<set<Block>>)
    ensures Union([{}] + bs) == Union(bs)
  {
    var cs := [{}] + bs;
    forall c | c in Union(cs) ensures c in Union(bs) {
      var k :| 0 <= k < |cs| && c in cs[k];
      assert c in bs[k - 1];
    }
    forall c | c in Union(bs) ensures c in Union(cs) {
      var k :| 0 <= k < |bs| && c in bs[k];
      assert c in cs[k + 1];
    }
  }

  lemma UnionLess(bs: seq<set<Block>>, cs: seq<set<Block>>, i: nat, b: Block)
    requires |bs| == |cs| && i < |bs| && cs[i] == bs[i] - {b}
    requires forall k :: 0 <= k < |bs| && k != i ==> cs[k] == bs[k] && b !in bs[k]
    ensures Union(cs) == Union(bs) - {b}
  {
    forall c | c in Union(cs) ensures c in Union(bs) - {b} {
      var k :| 0 <= k < |cs| && c in cs[k];
      assert c in bs[k];
    }
    forall c | c in Union(bs) - {b} ensures c in Union(cs) {
      var k :| 0 <= k < |bs| && c in bs[k];
      assert c in cs[k];
    }
  }

  lemma OneMoreSize(size: nat, n: nat)
    ensures size * (n + 1) == size * n + size
  {
  }

  class MemPool {
    const poolSize: nat
    const maxSize: nat
    var mlist: seq<Memory>
    /** alloc_mempool_size. */
    var total: nat

    ghost predicate Shape()
      reads this
    {
      && poolSize > OVERHEAD && maxSize >= 2 * poolSize && total < maxSize + poolSize && total == poolSize * |mlist|
      && forall a, b :: 0 <= a < b < |mlist| ==> mlist[a] != mlist[b] && Apart(mlist[a].start, mlist[b].start, poolSize)
    }

    ghost predicate Valid()
      reads this, mlist
    {
      Shape() && forall k :: 0 <= k < |mlist| ==> mlist[k].size == poolSize && mlist[k].Valid()
    }

    /** What is handed out by all memories. */
    ghost function Given(): set<Block>
      reads this, mlist
    {
      Union(PerMemory())
    }

    ghost function PerMemory(): (bs: seq<set<Block>>)
      reads this, mlist
      ensures |bs| == |mlist| && forall k :: 0 <= k < |mlist| ==> bs[k] == mlist[k].Blocks()
    {
      seq(|mlist|, k requires 0 <= k < |mlist| reads this, mlist => mlist[k].Blocks())
    }

    /** No memory has a free chunk that fits. */
    ghost predicate Full(need: nat)
      reads this, mlist
    {
      forall k :: 0 <= k < |mlist| ==> NoFit(mlist[k].hdr, mlist[k].frees, need)
    }

    /** The block that a request of need bytes gets: in the first memory where one fits, the first chunk that does. */
    ghost predicate Chosen(need: nat, p: nat, room: int)
      reads this, mlist
    {
      exists i: nat, j: nat :: i < |mlist| && ChosenIn(i, need, j, p, room)
    }

    ghost predicate ChosenIn(i: nat, need: nat, j: nat, p: nat, room: int)
      requires i < |mlist|
      reads this, mlist
    {
      var m := mlist[i];
      && (forall a :: 0 <= a < i ==> NoFit(mlist[a].hdr, mlist[a].frees, need))
      && BlockAt(m.hdr, m.frees, m.start, need, j, p, room)
    }

    /** mempool_init, given where malloc puts the first memory. */
    constructor (maxSize: nat, poolSize: nat, base: nat)
      requires poolSize > OVERHEAD && maxSize >= 2 * poolSize
      ensures Valid() && fresh(mlist) && this.poolSize == poolSize && this.maxSize == maxSize && total == poolSize
      ensures Given() == {}
    {
      this.poolSize, this.maxSize := poolSize, maxSize;
      var m := new Memory(base, poolSize);
      mlist := [m];
      total := poolSize;
    }

    /** The i-th memory is tried. */
    method TryOne(i: nat, need: nat) returns (p: Option<nat>, ghost room: int, ghost j: nat)
      requires Valid() && need > OVERHEAD && i < |mlist|
      modifies mlist[i]
      ensures Valid() && (p == None <==> NoFit(old(mlist[i].hdr), old(mlist[i].frees), need))
      ensures (p == None ==> unchanged(mlist[i]))
      ensures p != None ==> room + OVERHEAD >= need && Given() == old(Given()) + {Block(p.value, room)}
      ensures p != None ==>
        BlockAt(old(mlist[i].hdr), old(mlist[i].frees), mlist[i].start, need, j, p.value, room)
    {
      var m := mlist[i];
      var x;
      x, j := m.AllocIn(need);
      if x == None {
        return None, 0, 0;
      }
      p, room := Some(m.start + x.value + HEADER), m.hdr[x.value].size - OVERHEAD;
      OneMoreGiven(old(PerMemory()), PerMemory(), i, old(m.hdr), m.hdr, old(m.allocs), x.value, m.start,
                   Block(p.value, room));
    }

    /** The search of mempool_alloc through all memories. */
    method TryAll(need: nat) returns (p: Option<nat>, ghost room: int)
      requires Valid() && need > OVERHEAD
      modifies mlist
      ensures Valid() && (p == None <==> old(Full(need)))
      ensures p == None ==> Given() == old(Given())
      ensures p != None ==> room + OVERHEAD >= need && Given() == old(Given()) + {Block(p.value, room)}
      ensures p != None ==> old(Chosen(need, p.value, room))
    {
      var i := 0;
      while i < |mlist|
        invariant 0 <= i <= |mlist| && Valid() && Given() == old(Given())
        invariant forall a :: 0 <= a < |mlist| ==> unchanged(mlist[a])
        invariant forall a :: 0 <= a < i ==> NoFit(mlist[a].hdr, mlist[a].frees, need)
      {
        ghost var j;
        p, room, j := TryOne(i, need);
        if p != None {
          assert old(ChosenIn(i, need, j, p.value, room));
          return;
        }
        i := i + 1;
      }
      return None, 0;
    }

    /** extend_memory_list with a memory of the full size, which has room for the request. */
    method Extend(base: nat, ghost need: nat)
      requires Valid() && total < maxSize && need <= poolSize
      requires forall k :: 0 <= k < |mlist| ==> Apart(mlist[k].start, base, poolSize)
      modifies this`mlist, this`total
      ensures Valid() && Given() == old(Given()) && total == old(total) + poolSize && !Full(need)
      ensures |mlist| > 0 && fresh(mlist[0]) && mlist[1..] == old(mlist) && mlist[0].start == base
      ensures mlist[0].frees == [0] && 0 in mlist[0].hdr && mlist[0].hdr[0].size == poolSize
    {
      var m := new Memory(base, poolSize);
      UnionNone(PerMemory());
      OneMoreSize(poolSize, |mlist|);
      mlist := [m] + mlist;
      total := total + poolSize;
      assert 0 in m.frees && m == mlist[0];
      assert m.Blocks() == {};
      assert PerMemory() == [{}] + old(PerMemory());
    }

    /** mempool_alloc; `base` is where malloc would put another memory, None if it would fail. */
    method Alloc(want: nat, base: Option<nat>) returns (p: Option<nat>, ghost room: int)
      requires Valid()
      requires base != None ==> forall k :: 0 <= k < |mlist| ==> Apart(mlist[k].start, base.value, poolSize)
      modifies this`mlist, this`total, mlist
      ensures Valid() && (p == None <==> Refused(want, old(Full(Need(want))), old(total), base))
      ensures p == None ==> Given() == old(Given()) && mlist == old(mlist)
      ensures p != None ==> room >= want && Given() == old(Given()) + {Block(p.value, room)}
      ensures
        || mlist == old(mlist)
        || (old(Full(Need(want))) && |mlist| > 0 && mlist[1..] == old(mlist) && fresh(mlist[0]))
      ensures p != None && !old(Full(Need(want))) ==>
        mlist == old(mlist) && total == old(total) && old(Chosen(Need(want), p.value, room))
      ensures p != None && old(Full(Need(want))) ==>
        && base != None && p.value == base.value + HEADER && room == Trimmed(poolSize, Need(want)) - OVERHEAD
        && total == old(total) + poolSize && |mlist| == |old(mlist)| + 1
      ensures p == None ==> total == old(total)
    {
      var need := Need(want);
      if want == 0 || need > poolSize {
        return None, 0;
      }
      p, room := TryAll(need);
      if p == None {
        if total + need > maxSize || base == None {
          return;
        }
        Extend(base.value, need);
        p, room := AllocNew(base.value, need);
      }
    }

    /** After the extension the search ends at the new memory. */
    method AllocNew(base: nat, need: nat) returns (p: Option<nat>, ghost room: int)
      requires Valid() && OVERHEAD < need <= poolSize && |mlist| > 0 && mlist[0].start == base
      requires mlist[0].frees == [0] && 0 in mlist[0].hdr && mlist[0].hdr[0].size == poolSize
      modifies mlist
      ensures Valid() && p == Some(base + HEADER) && room == Trimmed(poolSize, need) - OVERHEAD
      ensures Given() == old(Given()) + {Block(base + HEADER, room)}
    {
      forall at: nat, space: int | Chosen(need, at, space)
        ensures at == base + HEADER && space == Trimmed(poolSize, need) - OVERHEAD
      {
        NewIsChosen(need, at, space);
      }
      assert 0 in mlist[0].frees;
      p, room := TryAll(need);
      assert old(Chosen(need, p.value, room));
    }

    lemma NewIsChosen(need: nat, p: nat, room: int)
      requires need <= poolSize && |mlist| > 0 && Chosen(need, p, room)
      requires mlist[0].frees == [0] && 0 in mlist[0].hdr && mlist[0].hdr[0].size == poolSize
      ensures p == mlist[0].start + HEADER && room == Trimmed(poolSize, need) - OVERHEAD
    {
      var i: nat, j: nat :| i < |mlist| && ChosenIn(i, need, j, p, room);
      assert 0 in mlist[0].frees && !NoFit(mlist[0].hdr, mlist[0].frees, need);
    }

    /** find_memory_list: the memory whose range holds p. */
    method FindMemory(p: nat) returns (k: nat)
      ensures k <= |mlist| && (k < |mlist| ==> mlist[k].start <= p < mlist[k].start + poolSize)
      ensures forall i :: 0 <= i < k ==> !(mlist[i].start <= p < mlist[i].start + poolSize)
    {
      k := 0;
      while k < |mlist|
        invariant 0 <= k <= |mlist|
        invariant forall i :: 0 <= i < k ==> !(mlist[i].start <= p < mlist[i].start + poolSize)
      {
        if mlist[k].start <= p && mlist[k].start + poolSize > p {
          break;
        }
        k := k + 1;
      }
    }

    /** A block belongs to the one memory whose range holds it. */
    lemma Owner(b: Block, k: nat)
      requires Valid() && b in Given() && k < |mlist| && mlist[k].start <= b.at < mlist[k].start + poolSize
      ensures b in mlist[k].Blocks() && forall i :: 0 <= i < |mlist| && i != k ==> b !in mlist[i].Blocks()
    {
      forall i | 0 <= i < |mlist| && b in mlist[i].Blocks() ensures i == k {
        BlockInside(mlist[i], b);
      }
    }

    lemma Somewhere(b: Block) returns (i: nat)
      requires Valid() && b in Given()
      ensures i < |mlist| && mlist[i].start <= b.at < mlist[i].start + poolSize
    {
      i :| 0 <= i < |mlist| && b in PerMemory()[i];
      BlockInside(mlist[i], b);
    }

    /** mempool_free: 1 for NULL, else the block is given back. */
    method Free(p: Option<nat>, ghost room: int) returns (code: nat)
      requires Valid() && (p != None ==> Block(p.value, room) in Given())
      modifies mlist
      ensures Valid() && code == (if p == None then 1 else 0)
      ensures Given() == if p == None then old(Given()) else old(Given()) - {Block(p.value, room)}
    {
      if p == None {
        return 1;
      }
      ghost var i := Somewhere(Block(p.value, room));
      var k := FindMemory(p.value);
      FreeIn(k, p.value, room);
      code := 0;
    }

    method FreeIn(k: nat, p: nat, ghost room: int)
      requires Valid() && Block(p, room) in Given() && k < |mlist| && mlist[k].start <= p < mlist[k].start + poolSize
      modifies mlist[k]
      ensures Valid() && Given() == old(Given()) - {Block(p, room)}
    {
      var m := mlist[k];
      ghost var b := Block(p, room);
      Owner(b, k);
      BlockInside(m, b);
      var x := p - m.start - HEADER;
      m.Release(x);
      BlocksLess(old(m.hdr), m.hdr, old(m.allocs), m.allocs, x, m.start);
      UnionLess(old(PerMemory()), PerMemory(), k, b);
    }

    /** Blocks handed out anywhere in the pool do not overlap. */
    lemma NoOverlap(b: Block, c: Block)
      requires Valid() && b in Given() && c in Given() && b != c
      ensures b.at + b.room <= c.at || c.at + c.room <= b.at
    {
      var i :| 0 <= i < |mlist| && b in PerMemory()[i];
      var j :| 0 <= j < |mlist| && c in PerMemory()[j];
      BlockInside(mlist[i], b);
      BlockInside(mlist[j], c);
      if i == j { BlocksApart(mlist[i], b, c); }
    }

    /** After everything was given back each memory is one free chunk of its full size. */
    lemma AllGivenBack(k: nat)
      requires Valid() && Given() == {} && k < |mlist|
      ensures mlist[k].tiles == [0] && mlist[k].frees == [0] && mlist[k].allocMem == 0
      ensures mlist[k].hdr[0] == Chunk(poolSize, None, None, true) && mlist[k].freeList == Some(0)
    {
      ListedIsGiven(k);
      NothingHeld(mlist[k]);
    }

    lemma ListedIsGiven(k: nat)
      requires Valid() && k < |mlist|
      ensures mlist[k].allocs != [] ==> Given() != {}
    {
      var m := mlist[k];
      if m.allocs != [] {
        NodeIn(m.hdr, m.allocList, m.allocs, 0);
        var b := BlockOf(m.hdr, m.allocs[0], m.start);
        assert b in m.Blocks() && b in PerMemory()[k];
        assert b in Given();
      }
    }

    /** Why a request is refused: by its size, or for lack of a chunk that fits and of leave to extend. */
    ghost predicate Refused(want: nat, full: bool, was: nat, base: Option<nat>) {
      want == 0 || Need(want) > poolSize || (full && (base == None || was + Need(want) > maxSize))
    }
  }
}
