/**
 * The indexed binary heap of src/ld_pqueue.c, used sequentially. Elements are reached through the
 * client's callbacks, which read and write a priority and a position per element; here those are
 * two maps. `less(a, b)` is cmppri: b ranks above a.
 */
module HeapOrder {

  ghost predicate StrictWeakOrder<P(!new)>(less: (P, P) -> bool) {
    && (forall a :: !less(a, a))
    && (forall a, b, c :: less(a, b) && less(b, c) ==> less(a, c))
    && (forall a, b, c :: less(a, c) ==> less(a, b) || less(b, c))
  }

  /** Parent and child in order; slot 0 is not used. */
  ghost predicate InOrder<E, P>(h: seq<E>, pri: map<E, P>, less: (P, P) -> bool, j: nat)
    requires 2 <= j < |h|
  {
    h[j / 2] in pri && h[j] in pri && !less(pri[h[j / 2]], pri[h[j]])
  }

  ghost predicate Heap<E, P>(h: seq<E>, pri: map<E, P>, less: (P, P) -> bool) {
    forall j :: 2 <= j < |h| ==> InOrder(h, pri, less, j)
  }

  ghost predicate Ranked<E, P>(h: seq<E>, pri: map<E, P>) {
    forall j :: 1 <= j < |h| ==> h[j] in pri
  }

  /** The children of slot i do not rank above its parent. */
  ghost predicate Grandchildren<E, P>(h: seq<E>, pri: map<E, P>, less: (P, P) -> bool, i: nat) {
    forall j :: 2 <= j < |h| && j / 2 == i && i >= 2 && h[i / 2] in pri && h[j] in pri ==>
      !less(pri[h[i / 2]], pri[h[j]])
  }

  /** A heap but for slot i, which may rank above its parent. */
  ghost predicate HeapUp<E, P>(h: seq<E>, pri: map<E, P>, less: (P, P) -> bool, i: nat) {
    && 1 <= i < |h| && Ranked(h, pri)
    && (forall j :: 2 <= j < |h| && j != i ==> InOrder(h, pri, less, j))
    && Grandchildren(h, pri, less, i)
  }

  /** A heap but for slot i, which may rank below its children. */
  ghost predicate HeapDown<E, P>(h: seq<E>, pri: map<E, P>, less: (P, P) -> bool, i: nat) {
    && 1 <= i < |h| && Ranked(h, pri)
    && (forall j :: 2 <= j < |h| && j / 2 != i ==> InOrder(h, pri, less, j))
    && Grandchildren(h, pri, less, i)
  }

  function Swap<E>(h: seq<E>, i: nat, j: nat): (r: seq<E>)
    requires i < |h| && j < |h|
    ensures |r| == |h|
  {
    h[i := h[j]][j := h[i]]
  }

  lemma SwapPermutes<E>(h: seq<E>, i: nat, j: nat)
    requires 1 <= i < |h| && 1 <= j < |h|
    ensures multiset(Swap(h, i, j)[1..]) == multiset(h[1..])
  {
    var a := h[1..];
    assert Swap(h, i, j)[1..] == a[i - 1 := a[j - 1]][j - 1 := a[i - 1]];
  }

  lemma UpStep<E, P(!new)>(h: seq<E>, pri: map<E, P>, less: (P, P) -> bool, i: nat)
    requires StrictWeakOrder(less) && HeapUp(h, pri, less, i) && i > 1 && less(pri[h[i / 2]], pri[h[i]])
    ensures HeapUp(Swap(h, i, i / 2), pri, less, i / 2)
  {
    var p, r := i / 2, Swap(h, i, i / 2);
    forall j | 2 <= j < |r| && j != p ensures InOrder(r, pri, less, j) {
      if j == i {
      } else if j / 2 == i {
        assert InOrder(h, pri, less, j);
      } else if j / 2 == p {
        assert InOrder(h, pri, less, j);
        assert !less(pri[h[i]], pri[h[j]]);
      } else {
        assert InOrder(h, pri, less, j);
      }
    }
    if p >= 2 {
      assert InOrder(h, pri, less, p);
      forall j | 2 <= j < |r| && j / 2 == p ensures !less(pri[r[p / 2]], pri[r[j]]) {
        if j != i { assert InOrder(h, pri, less, j); }
      }
    }
  }

  lemma UpDone<E, P(!new)>(h: seq<E>, pri: map<E, P>, less: (P, P) -> bool, i: nat)
    requires HeapUp(h, pri, less, i) && (i == 1 || !less(pri[h[i / 2]], pri[h[i]]))
    ensures Heap(h, pri, less)
  {
  }

  /** Slot c is a child of i that no child of i ranks above. */
  ghost predicate TopChild<E, P>(h: seq<E>, pri: map<E, P>, less: (P, P) -> bool, i: nat, c: nat)
    requires Ranked(h, pri)
  {
    && 2 <= c < |h| && c / 2 == i
    && forall j :: 2 <= j < |h| && j / 2 == i ==> !less(pri[h[c]], pri[h[j]])
  }

  lemma DownStep<E, P(!new)>(h: seq<E>, pri: map<E, P>, less: (P, P) -> bool, i: nat, c: nat)
    requires StrictWeakOrder(less) && HeapDown(h, pri, less, i) && TopChild(h, pri, less, i, c)
    requires less(pri[h[i]], pri[h[c]])
    ensures HeapDown(Swap(h, i, c), pri, less, c)
  {
    var r := Swap(h, i, c);
    forall j | 2 <= j < |r| && j / 2 != c ensures InOrder(r, pri, less, j) {
      if j == i {
        assert !less(pri[h[i / 2]], pri[h[c]]);
      } else if j / 2 != i {
        assert InOrder(h, pri, less, j);
      }
    }
    forall j | 2 <= j < |r| && j / 2 == c ensures !less(pri[r[c / 2]], pri[r[j]]) {
      assert InOrder(h, pri, less, j);
    }
  }

  lemma DownDone<E, P(!new)>(h: seq<E>, pri: map<E, P>, less: (P, P) -> bool, i: nat)
    requires StrictWeakOrder(less) && HeapDown(h, pri, less, i)
    requires forall j :: 2 <= j < |h| && j / 2 == i ==> !less(pri[h[i]], pri[h[j]])
    ensures Heap(h, pri, less)
  {
  }

  /** An element put in slot i, or the old one given another priority, has to move in one direction only. */
  lemma Replaced<E, P(!new)>(h: seq<E>, pri: map<E, P>, less: (P, P) -> bool, i: nat, x: E, q: map<E, P>)
    requires StrictWeakOrder(less) && Heap(h, pri, less) && Ranked(h, pri) && 1 <= i < |h| && x in q
    requires forall j :: 1 <= j < |h| && j != i ==> h[j] in q && q[h[j]] == pri[h[j]]
    ensures less(pri[h[i]], q[x]) ==> HeapUp(h[i := x], q, less, i)
    ensures !less(pri[h[i]], q[x]) ==> HeapDown(h[i := x], q, less, i)
  {
    var g := h[i := x];
    assert Ranked(g, q);
    if i >= 2 { assert InOrder(h, pri, less, i); }
    forall j | 2 <= j < |h| && j != i && j / 2 != i ensures InOrder(g, q, less, j) {
      assert InOrder(h, pri, less, j);
    }
    forall j | 2 <= j < |h| && j / 2 == i ensures !less(pri[h[i]], q[g[j]]) {
      assert InOrder(h, pri, less, j);
    }
  }

  lemma Shortened<E, P>(h: seq<E>, pri: map<E, P>, less: (P, P) -> bool)
    requires Heap(h, pri, less) && Ranked(h, pri) && |h| >= 1
    ensures Heap(h[..|h| - 1], pri, less) && Ranked(h[..|h| - 1], pri)
  {
    var g := h[..|h| - 1];
    forall j | 2 <= j < |g| ensures InOrder(g, pri, less, j) {
      assert InOrder(h, pri, less, j);
    }
  }

  /** The last element takes the place of the one in slot i. */
  lemma LastTakesPlace<E>(h: seq<E>, i: nat)
    requires 1 <= i < |h| - 1
    ensures multiset(h[..|h| - 1][i := h[|h| - 1]][1..]) == multiset(h[1..]) - multiset{h[i]}
  {
    var n := |h| - 1;
    var a := h[1..];
    assert h[..n][i := h[n]][1..] == a[..n - 1][i - 1 := a[n - 1]];
    assert a == a[..n - 1] + [a[n - 1]];
  }

  /** Nothing in a heap ranks above its root. */
  lemma {:induction false} RootIsTop<E, P(!new)>(h: seq<E>, pri: map<E, P>, less: (P, P) -> bool, i: nat)
    requires StrictWeakOrder(less) && Heap(h, pri, less) && Ranked(h, pri) && 1 <= i < |h|
    ensures !less(pri[h[1]], pri[h[i]])
  {
    if i > 1 {
      RootIsTop(h, pri, less, i / 2);
      assert InOrder(h, pri, less, i);
    }
  }
}

module PriorityQueue {
  import opened Wrappers
  import opened HeapOrder

  /** Every element but that of slot i (0 for none) has its slot stored, and slot i's element is elsewhere nowhere. */
  ghost predicate Placed<E>(h: seq<E>, pos: map<E, nat>, i: nat) {
    forall j :: 1 <= j < |h| && j != i ==> h[j] in pos && pos[h[j]] == j && (1 <= i < |h| ==> h[j] != h[i])
  }

  /** x ranks no lower than any element of c. */
  ghost predicate Tops<E, P>(x: E, c: multiset<E>, pri: map<E, P>, less: (P, P) -> bool) {
    x in pri && forall e :: e in c ==> e in pri && !less(pri[x], pri[e])
  }

  /** Highest rank first, and c after all of them. */
  ghost predicate Drained<E, P>(out: seq<E>, c: multiset<E>, pri: map<E, P>, less: (P, P) -> bool) {
    forall a :: 0 <= a < |out| ==> Tops(out[a], multiset(out[a + 1..]) + c, pri, less)
  }

  lemma DrainedOne<E, P>(out: seq<E>, c: multiset<E>, pri: map<E, P>, less: (P, P) -> bool, x: E)
    requires Drained(out, c, pri, less) && x in c && Tops(x, c, pri, less)
    ensures Drained(out + [x], c - multiset{x}, pri, less)
  {
    var r := out + [x];
    forall a | 0 <= a < |r| ensures Tops(r[a], multiset(r[a + 1..]) + (c - multiset{x}), pri, less) {
      if a < |out| {
        assert r[a + 1..] == out[a + 1..] + [x];
        assert Tops(out[a], multiset(out[a + 1..]) + c, pri, less);
      }
    }
  }

  lemma DrainedAll<E, P>(out: seq<E>, pri: map<E, P>, less: (P, P) -> bool, a: nat, b: nat)
    requires Drained(out, multiset{}, pri, less) && a < b < |out|
    ensures out[a] in pri && out[b] in pri && !less(pri[out[a]], pri[out[b]])
  {
    assert out[a + 1..][b - a - 1] == out[b];
    assert Tops(out[a], multiset(out[a + 1..]) + multiset{}, pri, less);
  }

  lemma PlacedAfterMove<E>(h: seq<E>, pos: map<E, nat>, i: nat, p: nat)
    requires 1 <= i < |h| && 1 <= p < |h| && i != p && Placed(h, pos, i)
    ensures Placed(Swap(h, i, p), pos[h[p] := i], p)
  {
    var r := Swap(h, i, p);
    forall j | 1 <= j < |r| && j != p ensures r[j] in pos[h[p] := i] && pos[h[p] := i][r[j]] == j && r[j] != r[p] {
      if j != i { assert h[j] in pos && pos[h[j]] == j && h[p] in pos && pos[h[p]] == p; }
    }
  }

  /** Slots d holds the heap h but for slot i, where `moving` is to go. */
  ghost predicate Riding<E>(d: seq<E>, h: seq<E>, i: nat, moving: E) {
    1 <= i < |h| <= |d| && h[i] == moving && forall j :: 0 <= j < |h| && j != i ==> d[j] == h[j]
  }

  lemma RideStep<E>(d: seq<E>, h: seq<E>, pos: map<E, nat>, i: nat, c: nat)
    requires 1 <= c < |h| && i != c && 1 <= i < |h| && Riding(d, h, i, h[i])
    ensures Riding(d[i := d[c]], Swap(h, i, c), c, h[i])
    ensures Placed(h, pos, i) ==> Placed(Swap(h, i, c), pos[d[c] := i], c)
    ensures multiset(Swap(h, i, c)[1..]) == multiset(h[1..])
  {
    if Placed(h, pos, i) { PlacedAfterMove(h, pos, i, c); }
    SwapPermutes(h, i, c);
  }

  lemma RideDone<E>(d: seq<E>, h: seq<E>, pos: map<E, nat>, i: nat, moving: E)
    requires Riding(d, h, i, moving)
    ensures d[i := moving][..|h|] == h && d[i := moving][1..|h|] == h[1..]
    ensures Placed(h, pos, i) ==> Placed(h, pos[moving := i], 0)
  {
    var r := d[i := moving];
    assert r[..|h|] == h;
    assert r[1..|h|] == r[..|h|][1..];
  }

  ghost predicate InHeap<E>(e: E, h: seq<E>) {
    |h| >= 1 && e in h[1..]
  }

  /** The priority of an element outside the heap does not matter to it. */
  lemma Unrelated<E, P(!new)>(h: seq<E>, pri: map<E, P>, less: (P, P) -> bool, e: E, p: P)
    requires Heap(h, pri, less) && Ranked(h, pri) && |h| >= 1 && e !in multiset(h[1..])
    ensures Heap(h, pri[e := p], less) && Ranked(h, pri[e := p])
  {
    forall j | 1 <= j < |h| ensures h[j] != e {
      assert h[1..][j - 1] == h[j];
    }
    var q := pri[e := p];
    forall j | 2 <= j < |h| ensures InOrder(h, q, less, j) {
      assert InOrder(h, pri, less, j);
    }
  }

  class PQueue<E(==), P(!new)> {
    const less: (P, P) -> bool
    var d: seq<E>
    var size: nat
    var avail: nat
    var step: nat
    var pri: map<E, P>
    var pos: map<E, nat>

    /** Slots 0 to size - 1, of which the first is not used. */
    ghost function Slots(): seq<E>
      requires size <= |d|
      reads this
    {
      d[..size]
    }

    ghost predicate Shape()
      reads this
    {
      1 <= size <= avail && avail == |d| && step >= 1 && StrictWeakOrder(less)
    }

    ghost predicate Ordered()
      reads this
    {
      Shape() && Heap(Slots(), pri, less) && Ranked(Slots(), pri)
    }

    /** Moreover each element is there once, with its slot stored. */
    ghost predicate Valid()
      reads this
    {
      Ordered() && Placed(Slots(), pos, 0)
    }

    ghost function Contents(): multiset<E>
      requires Shape()
      reads this
    {
      multiset(Slots()[1..])
    }

    constructor (n: nat, less: (P, P) -> bool, blank: E)
      requires StrictWeakOrder(less)
      ensures Valid() && Contents() == multiset{} && this.less == less && pri == map[]
    {
      this.less := less;
      d, size, avail, step := seq(n + 1, _ => blank), 1, n + 1, n + 1;
      pri, pos := map[], map[];
    }

    /** The client's setpri, for an element that is not in the queue. */
    method SetPriority(e: E, p: P)
      requires Ordered() && e !in Contents()
      modifies this`pri
      ensures Ordered() && (old(Valid()) ==> Valid()) && pri == old(pri)[e := p]
    {
      Unrelated(Slots(), pri, less, e, p);
      pri := pri[e := p];
    }

    /**
     * bubble_up: the element of slot i moves up past parents that rank below it. `once` says that the
     * other elements have their slots stored.
     */
    method BubbleUp(i0: nat, ghost once: bool)
      requires Shape() && HeapUp(Slots(), pri, less, i0) && (once ==> Placed(Slots(), pos, i0))
      modifies this`d, this`pos
      ensures Ordered() && Contents() == old(Contents()) && (once ==> Valid())
    {
      var i: nat := i0;
      var moving := d[i];
      ghost var h := d[..size];
      while i > 1 && less(pri[d[i / 2]], pri[moving])
        invariant |d| == avail && |h| == size && Riding(d, h, i, moving)
        invariant HeapUp(h, pri, less, i)
        invariant once ==> Placed(h, pos, i)
        invariant multiset(h[1..]) == old(Contents())
      {
        UpStep(h, pri, less, i);
        Shift(i, i / 2, h, once);
        h := Swap(h, i, i / 2);
        i := i / 2;
      }
      UpDone(h, pri, less, i);
      RideDone(d, h, pos, i, moving);
      d := d[i := moving];
      pos := pos[moving := i];
    }

    /** The element of slot c moves to slot i, where the moving element is to be thought. */
    method Shift(i: nat, c: nat, ghost h: seq<E>, ghost once: bool)
      requires 1 <= c < |h| && 1 <= i < |h| && i != c && Riding(d, h, i, h[i]) && (once ==> Placed(h, pos, i))
      modifies this`d, this`pos
      ensures |d| == old(|d|) && Riding(d, Swap(h, i, c), c, h[i]) && (once ==> Placed(Swap(h, i, c), pos, c))
      ensures multiset(Swap(h, i, c)[1..]) == multiset(h[1..])
    {
      RideStep(d, h, pos, i, c);
      d := d[i := d[c]];
      pos := pos[d[i] := i];
    }

    /** maxchild: 0 when slot i has no child. */
    method MaxChild(i: nat) returns (c: nat)
      requires Shape() && i >= 1 && forall j: nat :: j / 2 == i && j < size ==> d[j] in pri
      ensures c == 0 <==> 2 * i >= size
      ensures c != 0 ==> c < size && c / 2 == i
      ensures c != 0 ==> forall j :: 2 <= j < size && j / 2 == i ==> !less(pri[d[c]], pri[d[j]])
    {
      c := 2 * i;
      if c >= size {
        return 0;
      }
      if c + 1 < size && less(pri[d[c]], pri[d[c + 1]]) {
        c := c + 1;
      }
    }

    /**
     * percolate_down: the element of slot i moves down past its top child while that ranks above it.
     * remove may call it for the slot just past the last, where it does nothing.
     */
    method PercolateDown(i0: nat, ghost once: bool)
      requires Shape() && 1 <= i0 < |d| && d[i0] in pri
      requires i0 < size ==> HeapDown(Slots(), pri, less, i0) && (once ==> Placed(Slots(), pos, i0))
      requires i0 >= size ==> Ordered() && (once ==> Valid() && !InHeap(d[i0], Slots()))
      modifies this`d, this`pos
      ensures Ordered() && Contents() == old(Contents()) && (once ==> Valid())
    {
      var i: nat := i0;
      var moving := d[i];
      ghost var h := d[..size];
      var c := MaxChild(i);
      while c != 0 && less(pri[moving], pri[d[c]])
        invariant |d| == avail && |h| == size && (i0 < size ==> Riding(d, h, i, moving))
        invariant i0 >= size ==> d == old(d) && pos == old(pos) && i == i0 && c == 0 && h == d[..size]
        invariant i0 < size ==> HeapDown(h, pri, less, i)
        invariant i0 < size && once ==> Placed(h, pos, i)
        invariant multiset(h[1..]) == old(Contents())
        invariant c == 0 <==> 2 * i >= size
        invariant c != 0 ==> TopChild(h, pri, less, i, c)
        decreases size - i
      {
        DownStep(h, pri, less, i, c);
        Shift(i, c, h, once);
        h := Swap(h, i, c);
        i := c;
        c := MaxChild(i);
      }
      if i0 < size {
        DownDone(h, pri, less, i);
        RideDone(d, h, pos, i, moving);
      }
      d := d[i := moving];
      pos := pos[moving := i];
    }

    /**
     * pqueue_insert; a failed realloc reports an error and changes nothing. An element may be inserted
     * twice, but then only one of its slots is stored.
     */
    method Insert(e: E, allocOk: bool) returns (ok: bool)
      requires Ordered() && e in pri
      modifies this`d, this`size, this`avail, this`pos
      ensures Ordered() && ok == (old(size) < old(avail) || allocOk)
      ensures old(Valid()) && e !in old(Contents()) ==> Valid()
      ensures Contents() == if ok then old(Contents()) + multiset{e} else old(Contents())
    {
      if size >= avail {
        if !allocOk {
          return false;
        }
        Grow();
      }
      Append(e);
      BubbleUp(size - 1, old(Valid()) && e !in old(Contents()));
      ok := true;
    }

    method Append(e: E)
      requires Ordered() && size < avail && e in pri
      modifies this`d, this`size
      ensures Shape() && size == old(size) + 1 && HeapUp(Slots(), pri, less, size - 1)
      ensures old(Valid()) && e !in old(Contents()) ==> Placed(Slots(), pos, size - 1)
      ensures Contents() == old(Contents()) + multiset{e}
    {
      ghost var h := d[..size];
      InsertedLast(h, e);
      d := d[size := e];
      size := size + 1;
      assert d[..size] == h + [e];
    }

    method Grow()
      requires Ordered()
      modifies this`d, this`avail
      ensures avail == |d| == old(size) + step && Slots() == old(Slots())
    {
      var filler := d[0];
      avail := size + step;
      d := d[..size] + seq(step, _ => filler);
    }

    lemma InsertedLast(h: seq<E>, e: E)
      requires StrictWeakOrder(less) && Heap(h, pri, less) && Ranked(h, pri) && |h| >= 1
      requires e in pri
      ensures HeapUp(h + [e], pri, less, |h|) && (Placed(h, pos, 0) && !InHeap(e, h) ==> Placed(h + [e], pos, |h|))
      ensures multiset((h + [e])[1..]) == multiset(h[1..]) + multiset{e}
    {
      var g := h + [e];
      assert g[1..] == h[1..] + [e];
      forall j | 2 <= j < |g| && j != |h| ensures InOrder(g, pri, less, j) {
        assert InOrder(h, pri, less, j);
      }
    }

    /** pqueue_change_priority for an element of the queue. */
    method ChangePriority(p: P, e: E)
      requires Valid() && e in Contents()
      modifies this`d, this`pos, this`pri
      ensures Valid() && Contents() == old(Contents()) && pri == old(pri)[e := p]
    {
      ghost var h := d[..size];
      var was := pri[e];
      var i := pos[e];
      Replaced(h, pri, less, i, e, pri[e := p]);
      assert h[i := e] == h;
      pri := pri[e := p];
      if less(was, p) {
        BubbleUp(i, true);
      } else {
        assert d[i] == h[i];
        PercolateDown(i, true);
      }
    }

    /** pqueue_remove for an element of the queue: the last one takes its place and is moved to its own. */
    method Remove(e: E)
      requires Valid() && e in Contents()
      modifies this`d, this`size, this`pos
      ensures Valid() && Contents() == old(Contents()) - multiset{e}
    {
      ghost var h := d[..size];
      var i := pos[e];
      assert d[i] == h[i] == e;
      LastInto(i, h);
      if less(pri[e], pri[d[i]]) {
        BubbleUp(i, true);
      } else {
        PercolateDown(i, true);
      }
    }

    lemma RemovedAt(h: seq<E>, i: nat)
      requires StrictWeakOrder(less) && Heap(h, pri, less) && Ranked(h, pri) && 1 <= i < |h| - 1
      ensures var n := |h| - 1; var g := h[..n][i := h[n]];
        && (if less(pri[h[i]], pri[h[n]]) then HeapUp(g, pri, less, i) else HeapDown(g, pri, less, i))
        && (Placed(h, pos, 0) ==> Placed(g, pos, i)) && multiset(g[1..]) == multiset(h[1..]) - multiset{h[i]}
    {
      var n := |h| - 1;
      Shortened(h, pri, less);
      Replaced(h[..n], pri, less, i, h[n], pri);
      LastTakesPlace(h, i);
    }

    lemma RemovedLast(h: seq<E>)
      requires Heap(h, pri, less) && Ranked(h, pri) && |h| >= 2
      ensures var n := |h| - 1;
        && Heap(h[..n], pri, less) && Ranked(h[..n], pri)
        && (Placed(h, pos, 0) ==> Placed(h[..n], pos, 0) && !InHeap(h[n], h[..n]))
        && multiset(h[..n][1..]) == multiset(h[1..]) - multiset{h[n]}
    {
      var n := |h| - 1;
      Shortened(h, pri, less);
      assert h[1..] == h[..n][1..] + [h[n]];
    }

    /** pqueue_pop; NULL and an error for an empty queue. */
    method Pop() returns (r: Option<E>)
      requires Ordered()
      modifies this`d, this`size, this`pos
      ensures Ordered() && (old(Valid()) ==> Valid()) && (r == None <==> old(Contents()) == multiset{})
      ensures r == None ==> Contents() == multiset{}
      ensures r != None ==> r.value in old(Contents()) && Contents() == old(Contents()) - multiset{r.value}
      ensures r != None ==> size == old(size) - 1 && Tops(r.value, old(Contents()), pri, less)
    {
      ghost var h := d[..size];
      if size == 1 {
        return None;
      }
      r := Some(d[1]);
      TopOfAll(h);
      LastInto(1, h);
      PercolateDown(1, old(Valid()));
    }

    /** The last element takes slot i, from which it has to move in the direction the comparison tells. */
    method LastInto(i: nat, ghost h: seq<E>)
      requires Ordered() && 1 <= i < size && h == Slots()
      modifies this`d, this`size
      ensures Shape() && i <= size == |h| - 1 && i < |d| && d[i] == h[size] && d[i] in pri && h[i] in pri
      ensures i < size ==> (old(Valid()) ==> Placed(Slots(), pos, i))
      ensures i < size ==>
        if less(pri[h[i]], pri[d[i]]) then HeapUp(Slots(), pri, less, i) else HeapDown(Slots(), pri, less, i)
      ensures i == size ==> Ordered() && (old(Valid()) ==> Valid() && !InHeap(d[i], Slots()))
      ensures Contents() == multiset(h[1..]) - multiset{h[i]}
    {
      size := size - 1;
      d := d[i := d[size]];
      if i == size {
        RemovedLast(h);
        assert d[..size] == h[..size];
      } else {
        RemovedAt(h, i);
        assert d[..size] == h[..size][i := h[size]];
      }
    }

    lemma TopOfAll(h: seq<E>)
      requires StrictWeakOrder(less) && Heap(h, pri, less) && Ranked(h, pri) && |h| >= 2
      ensures h[1] in multiset(h[1..]) && Tops(h[1], multiset(h[1..]), pri, less)
      ensures !less(pri[h[1]], pri[h[|h| - 1]])
    {
      assert h[1..][0] == h[1];
      forall e | e in multiset(h[1..]) ensures e in pri && !less(pri[h[1]], pri[e]) {
        var k :| 0 <= k < |h| - 1 && h[1..][k] == e;
        RootIsTop(h, pri, less, k + 1);
      }
      RootIsTop(h, pri, less, |h| - 1);
    }

    /** pqueue_peek: what pop would return. */
    method Peek() returns (r: Option<E>)
      requires Ordered()
      ensures r == None <==> Contents() == multiset{}
      ensures r != None ==> r.value in Contents() && Tops(r.value, Contents(), pri, less)
    {
      if size == 1 {
        return None;
      }
      TopOfAll(Slots());
      r := Some(d[1]);
    }

    /** pqueue_flush hands every element to the callback, highest rank first. */
    method Flush() returns (out: seq<E>)
      requires Ordered()
      modifies this`d, this`size, this`pos
      ensures Ordered() && (old(Valid()) ==> Valid()) && Contents() == multiset{} && multiset(out) == old(Contents())
      ensures forall a, b :: 0 <= a < b < |out| ==> out[a] in pri && out[b] in pri && !less(pri[out[a]], pri[out[b]])
    {
      out := [];
      var left := size - 1;
      while left > 0
        invariant Ordered() && (old(Valid()) ==> Valid()) && left == size - 1
        invariant Contents() + multiset(out) == old(Contents())
        invariant Drained(out, Contents(), pri, less)
      {
        ghost var c := Contents();
        var r := Pop();
        DrainedOne(out, c, pri, less, r.value);
        out := out + [r.value];
        left := left - 1;
      }
      forall a, b | 0 <= a < b < |out| ensures out[a] in pri && out[b] in pri && !less(pri[out[a]], pri[out[b]]) {
        DrainedAll(out, pri, less, a, b);
      }
    }
  }
}
