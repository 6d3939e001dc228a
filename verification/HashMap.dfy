/**
 * The Robin Hood hash map of src/ld_hashmap.c.
 *
 * The table-level theory (module RobinHood) is about sequences of slots; the class in module
 * HashMap runs the probe loops of the source on an array and is proved to refine a finite map.
 */
module RobinHood {

  /** A bucket: 48-bit hash, distance-to-initial-bucket plus one (0 when empty), and the item. */
  datatype Slot<T> = Slot(hash: nat, dib: nat, item: T)

  /** `(i + 1) & mask` for a table whose size is a power of two. */
  function Next(i: nat, n: nat): (r: nat)
    requires i < n
    ensures r < n
  {
    if i + 1 == n then 0 else i + 1
  }

  function Prev(i: nat, n: nat): (r: nat)
    requires i < n
    ensures r < n && Next(r, n) == i
  {
    if i == 0 then n - 1 else i - 1
  }

  /** Number of forward steps from slot h to slot i around the ring. */
  function Dist(h: nat, i: nat, n: nat): (r: nat)
    requires h < n && i < n
    ensures r < n
  {
    if h <= i then i - h else i + n - h
  }

  function Home(hash: nat, n: nat): (r: nat)
    requires n > 0
    ensures r < n
  {
    hash % n
  }

  /** Every occupied slot records its circular distance from the home slot of its hash. */
  ghost predicate Placed<T>(t: seq<Slot<T>>) {
    forall i :: 0 <= i < |t| && t[i].dib > 0 ==> Dist(Home(t[i].hash, |t|), i, |t|) == t[i].dib - 1
  }

  /** From one slot to the next, dib rises by at most one. */
  ghost predicate Rises<T>(t: seq<Slot<T>>) {
    forall i: nat {:trigger Next(i, |t|)} :: i < |t| ==> t[Next(i, |t|)].dib <= t[i].dib + 1
  }

  /** `pos` indexes the occupied slots by key, one slot per key. */
  ghost predicate Indexed<K, T>(t: seq<Slot<T>>, key: T -> K, pos: map<K, nat>) {
    && (forall k :: k in pos ==> pos[k] < |t| && t[pos[k]].dib > 0 && key(t[pos[k]].item) == k)
    && (forall i :: 0 <= i < |t| && t[i].dib > 0 ==> key(t[i].item) in pos && pos[key(t[i].item)] == i)
  }

  ghost predicate Hashed<K, T>(t: seq<Slot<T>>, key: T -> K, hash: K -> nat) {
    forall i :: 0 <= i < |t| && t[i].dib > 0 ==> t[i].hash == hash(key(t[i].item))
  }

  ghost predicate Table<K, T>(t: seq<Slot<T>>, key: T -> K, hash: K -> nat, pos: map<K, nat>) {
    Placed(t) && Rises(t) && Indexed(t, key, pos) && Hashed(t, key, hash)
  }

  /** The finite map a table stands for. */
  ghost function View<K, T>(t: seq<Slot<T>>, key: T -> K, pos: map<K, nat>): map<K, T>
    requires Indexed(t, key, pos)
  {
    map k | k in pos :: t[pos[k]].item
  }

  /** The part of the view held by the first m slots. */
  ghost function ViewBelow<K, T>(t: seq<Slot<T>>, key: T -> K, pos: map<K, nat>, m: nat): map<K, T>
    requires Indexed(t, key, pos)
  {
    map k | k in pos && pos[k] < m :: t[pos[k]].item
  }

  lemma ViewBelowStep<K, T>(t: seq<Slot<T>>, key: T -> K, pos: map<K, nat>, m: nat)
    requires Indexed(t, key, pos) && m < |t|
    ensures var k := key(t[m].item);
            if t[m].dib == 0 then ViewBelow(t, key, pos, m + 1) == ViewBelow(t, key, pos, m)
            else && k !in ViewBelow(t, key, pos, m)
                 && ViewBelow(t, key, pos, m + 1) == ViewBelow(t, key, pos, m)[k := t[m].item]
  {
    assert forall k :: k in pos && pos[k] == m ==> t[m].dib > 0 && k == key(t[m].item);
  }

  lemma UpdatedSize<K, T>(t: seq<Slot<T>>, key: T -> K, pos: map<K, nat>,
                          t': seq<Slot<T>>, pos': map<K, nat>, item: T)
    requires Indexed(t, key, pos) && Indexed(t', key, pos')
    requires View(t', key, pos') == View(t, key, pos)[key(item) := item]
    ensures |pos'| == |pos| + if key(item) in pos then 0 else 1
  {
    assert pos'.Keys == View(t', key, pos').Keys == pos.Keys + {key(item)};
    assert |pos'| == |pos'.Keys| && |pos| == |pos.Keys|;
    assert key(item) in pos ==> pos'.Keys == pos.Keys;
  }

  lemma SameSize<K, T>(t: seq<Slot<T>>, key: T -> K, pos: map<K, nat>, t': seq<Slot<T>>, pos': map<K, nat>)
    requires Indexed(t, key, pos) && Indexed(t', key, pos') && View(t', key, pos') == View(t, key, pos)
    ensures |pos'| == |pos|
  {
    assert pos'.Keys == View(t', key, pos').Keys == pos.Keys;
    assert |pos'| == |pos'.Keys| && |pos| == |pos.Keys|;
  }

  lemma RemovedSize<K, T>(t: seq<Slot<T>>, key: T -> K, pos: map<K, nat>,
                          t': seq<Slot<T>>, pos': map<K, nat>, k: K)
    requires Indexed(t, key, pos) && Indexed(t', key, pos') && k in pos
    requires View(t', key, pos') == View(t, key, pos) - {k}
    ensures |pos'| == |pos| - 1
  {
    assert pos'.Keys == View(t', key, pos').Keys == pos.Keys - {k};
    assert |pos'| == |pos'.Keys| && |pos| == |pos.Keys|;
  }

  /** The slots from m to m' are empty. */
  ghost predicate Vacant<T>(t: seq<Slot<T>>, m: nat, m': nat) {
    forall j :: m <= j < m' && j < |t| ==> t[j].dib == 0
  }

  lemma {:induction false} ViewBelowSkips<K, T>(t: seq<Slot<T>>, key: T -> K, pos: map<K, nat>, m: nat, m': nat)
    requires Indexed(t, key, pos) && m <= m' <= |t| && Vacant(t, m, m')
    ensures ViewBelow(t, key, pos, m') == ViewBelow(t, key, pos, m)
    ensures m' == |t| ==> ViewBelow(t, key, pos, m) == View(t, key, pos)
  {
    if m < m' {
      ViewBelowSkips(t, key, pos, m, m' - 1);
      ViewBelowStep(t, key, pos, m' - 1);
    }
  }

  /** A list holds exactly the items of a map, each once. */
  ghost predicate Collected<K, T>(items: seq<T>, key: T -> K, m: map<K, T>) {
    && (forall a, b :: 0 <= a < b < |items| ==> key(items[a]) != key(items[b]))
    && (forall a :: 0 <= a < |items| ==> key(items[a]) in m && m[key(items[a])] == items[a])
    && (forall k :: k in m ==> m[k] in items)
  }

  lemma CollectedStep<K, T>(items: seq<T>, key: T -> K, m: map<K, T>, x: T)
    requires Collected(items, key, m) && key(x) !in m
    ensures Collected(items + [x], key, m[key(x) := x])
  {
    var items', m' := items + [x], m[key(x) := x];
    forall k | k in m' ensures m'[k] in items' {
      if k == key(x) { assert items'[|items|] == x; }
    }
  }

  /** The items of the first m slots are collected. */
  ghost predicate Collecting<K, T>(t: seq<Slot<T>>, key: T -> K, pos: map<K, nat>, items: seq<T>, m: nat) {
    Indexed(t, key, pos) && m <= |t| && Collected(items, key, ViewBelow(t, key, pos, m))
  }

  lemma CollectsNone<K, T>(t: seq<Slot<T>>, key: T -> K, pos: map<K, nat>)
    requires Indexed(t, key, pos)
    ensures Collecting(t, key, pos, [], 0)
  {
  }

  lemma CollectsNext<K, T>(t: seq<Slot<T>>, key: T -> K, pos: map<K, nat>, items: seq<T>, m: nat, i: nat)
    requires Collecting(t, key, pos, items, m) && m <= i < |t| && t[i].dib > 0 && Vacant(t, m, i)
    ensures Collecting(t, key, pos, items + [t[i].item], i + 1)
  {
    ViewBelowSkips(t, key, pos, m, i);
    ViewBelowStep(t, key, pos, i);
    CollectedStep(items, key, ViewBelow(t, key, pos, m), t[i].item);
  }

  lemma CollectsAll<K, T>(t: seq<Slot<T>>, key: T -> K, pos: map<K, nat>, items: seq<T>, m: nat)
    requires Collecting(t, key, pos, items, m) && Vacant(t, m, |t|)
    ensures Collected(items, key, View(t, key, pos))
  {
    ViewBelowSkips(t, key, pos, m, |t|);
  }

  lemma ViewBelowAll<K, T>(t: seq<Slot<T>>, key: T -> K, pos: map<K, nat>)
    requires Indexed(t, key, pos)
    ensures ViewBelow(t, key, pos, |t|) == View(t, key, pos)
  {
  }

  lemma EmptyTable<K, T>(t: seq<Slot<T>>, key: T -> K, hash: K -> nat)
    requires forall i :: 0 <= i < |t| ==> t[i].dib == 0
    ensures Table(t, key, hash, map[]) && View(t, key, map[]) == map[]
  {
  }

  /** dib rises by at most one per step, so by at most the distance between two slots. */
  lemma {:induction false} RiseBound<T>(t: seq<Slot<T>>, j: nat, p: nat)
    requires Rises(t) && j < |t| && p < |t|
    ensures t[p].dib <= t[j].dib + Dist(j, p, |t|)
    decreases Dist(j, p, |t|)
  {
    if j != p {
      var q := Prev(p, |t|);
      RiseBound(t, j, q);
    }
  }

  /** The run from the home slot of an occupied slot up to it has no empty slot. */
  lemma EmptyIsBeyond<T>(t: seq<Slot<T>>, i: nat, z: nat)
    requires Placed(t) && Rises(t) && i < |t| && z < |t| && t[i].dib > 0 && t[z].dib == 0
    ensures Dist(Home(t[i].hash, |t|), i, |t|) < Dist(Home(t[i].hash, |t|), z, |t|)
  {
    RiseBound(t, z, i);
  }

  /** A search for key k stands at slot i: neither the empty slot z nor the key's slot was passed. */
  ghost predicate Seeking<K, T>(t: seq<Slot<T>>, key: T -> K, hash: K -> nat, pos: map<K, nat>, k: K, i: nat, z: nat) {
    && Table(t, key, hash, pos) && i < |t| && z < |t| && t[z].dib == 0
    && var home := Home(hash(k), |t|);
    && Dist(home, i, |t|) <= Dist(home, z, |t|)
    && (k in pos ==> Dist(home, i, |t|) <= Dist(home, pos[k], |t|))
  }

  /** It ends at an empty slot or the key's own, or goes on and comes nearer to the empty slot. */
  lemma SeekingNext<K, T>(t: seq<Slot<T>>, key: T -> K, hash: K -> nat, pos: map<K, nat>, k: K, i: nat, z: nat)
    requires Seeking(t, key, hash, pos, k, i, z)
    ensures t[i].dib == 0 ==> k !in pos
    ensures t[i].dib > 0 && key(t[i].item) == k ==> k in pos && pos[k] == i && t[i].hash == hash(k)
    ensures t[i].dib > 0 && key(t[i].item) != k ==>
      Seeking(t, key, hash, pos, k, Next(i, |t|), z) && Dist(Next(i, |t|), z, |t|) < Dist(i, z, |t|)
  {
    if t[i].dib == 0 && k in pos { EmptyIsBeyond(t, pos[k], i); }
  }

  /**
   * The early displacement is safe: once the probe reaches a slot poorer in dib than the carried
   * entry, the entry's key cannot be stored at or after that slot.
   */
  lemma NotFurther<T>(t: seq<Slot<T>>, i: nat, p: nat, home: nat)
    requires Placed(t) && Rises(t) && i < |t| && p < |t| && home < |t|
    requires t[p].dib > 0 && Home(t[p].hash, |t|) == home
    requires t[i].dib < Dist(home, i, |t|) + 1
    ensures Dist(home, p, |t|) < Dist(home, i, |t|)
  {
    RiseBound(t, i, p);
  }

  ghost function KeysBelow<K, T>(t: seq<Slot<T>>, key: T -> K, m: nat): set<K>
    requires m <= |t|
  {
    set i | 0 <= i < m :: key(t[i].item)
  }

  lemma KeysBelowStep<K, T>(t: seq<Slot<T>>, key: T -> K, m: nat)
    requires m < |t|
    ensures KeysBelow(t, key, m + 1) == KeysBelow(t, key, m) + {key(t[m].item)}
  {
  }

  lemma {:induction false} FullPrefix<K, T>(t: seq<Slot<T>>, key: T -> K, pos: map<K, nat>, m: nat)
    requires Indexed(t, key, pos) && m <= |t|
    requires forall i :: 0 <= i < m ==> t[i].dib > 0
    ensures |KeysBelow(t, key, m)| == m && KeysBelow(t, key, m) <= pos.Keys
  {
    if m == 0 {
      assert KeysBelow(t, key, 0) == {};
    } else {
      FullPrefix(t, key, pos, m - 1);
      var k := key(t[m - 1].item);
      assert pos[k] == m - 1;
      KeysBelowStep(t, key, m - 1);
      forall i | 0 <= i < m - 1 ensures key(t[i].item) != k {
        assert pos[key(t[i].item)] == i;
      }
    }
  }

  lemma {:induction false} SubsetSize<A>(a: set<A>, b: set<A>)
    requires a <= b
    ensures |a| <= |b|
  {
    if a != {} {
      var x :| x in a;
      SubsetSize(a - {x}, b - {x});
    }
  }

  /** The keys of the d slots that end at slot i. */
  ghost function RunKeys<K, T>(t: seq<Slot<T>>, key: T -> K, i: nat, d: nat): set<K>
    requires i < |t|
    decreases d
  {
    if d == 0 then {} else RunKeys(t, key, Prev(i, |t|), d - 1) + {key(t[i].item)}
  }

  lemma {:induction false} RunKeysSize<K, T>(t: seq<Slot<T>>, key: T -> K, pos: map<K, nat>, i: nat, d: nat)
    requires Indexed(t, key, pos) && Rises(t) && i < |t| && d <= t[i].dib && d <= |t|
    ensures |RunKeys(t, key, i, d)| == d
    ensures forall k :: k in RunKeys(t, key, i, d) ==> k in pos && Dist(pos[k], i, |t|) < d
    decreases d
  {
    if d > 0 {
      var p := Prev(i, |t|);
      RunKeysSize(t, key, pos, p, d - 1);
      forall k | k in RunKeys(t, key, p, d - 1) ensures k != key(t[i].item) && Dist(pos[k], i, |t|) < d {
        PrevDist(pos[k], i, |t|);
      }
    }
  }

  lemma PrevDist(x: nat, i: nat, n: nat)
    requires x < n && i < n
    ensures Dist(x, i, n) <= Dist(x, Prev(i, n), n) + 1 && Dist(i, Prev(i, n), n) == n - 1
  {
  }

  /** No dib exceeds the number of items, so the 16-bit field suffices up to 65535 items. */
  lemma DibBound<K, T>(t: seq<Slot<T>>, key: T -> K, hash: K -> nat, pos: map<K, nat>, i: nat)
    requires Table(t, key, hash, pos) && i < |t|
    ensures t[i].dib <= |pos|
  {
    if t[i].dib > 0 {
      RunKeysSize(t, key, pos, i, t[i].dib);
      SubsetSize(RunKeys(t, key, i, t[i].dib), pos.Keys);
    }
  }

  /** Fewer keys than slots leaves an empty slot, which is where every probe loop stops. */
  lemma EmptySlot<K, T>(t: seq<Slot<T>>, key: T -> K, pos: map<K, nat>) returns (z: nat)
    requires Indexed(t, key, pos) && |pos| < |t|
    ensures z < |t| && t[z].dib == 0
  {
    if forall i :: 0 <= i < |t| ==> t[i].dib > 0 {
      FullPrefix(t, key, pos, |t|);
      SubsetSize(KeysBelow(t, key, |t|), pos.Keys);
      assert false;
    }
    z :| z < |t| && t[z].dib == 0;
  }

  /** Overwriting the item of a slot by one with the same key. */
  lemma ReplaceKeeps<K, T>(t: seq<Slot<T>>, key: T -> K, hash: K -> nat, pos: map<K, nat>, i: nat, item: T)
    requires Table(t, key, hash, pos) && i < |t| && t[i].dib > 0 && key(t[i].item) == key(item)
    ensures Table(t[i := t[i].(item := item)], key, hash, pos)
    ensures View(t[i := t[i].(item := item)], key, pos) == View(t, key, pos)[key(item) := item]
  {
    var t' := t[i := t[i].(item := item)];
    assert forall j: nat :: j < |t| ==> t'[j].dib == t[j].dib && t'[j].hash == t[j].hash;
    assert Rises(t');
  }

  /**
   * An entry carried by a probe loop standing at slot i: its dib matches the distance walked, it
   * would not break the rise into slot i, its key is not in the table, and the empty slot z that
   * bounds the walk still lies ahead.
   */
  ghost predicate Carried<K, T>(t: seq<Slot<T>>, key: T -> K, hash: K -> nat, pos: map<K, nat>,
                                e: Slot<T>, i: nat, z: nat)
  {
    && i < |t| && z < |t| && t[z].dib == 0
    && e.dib > 0 && e.hash == hash(key(e.item)) && key(e.item) !in pos
    && Walked(t, e, i, z)
  }

  /** The part of Carried that does not mention the index. */
  ghost predicate Walked<T>(t: seq<Slot<T>>, e: Slot<T>, i: nat, z: nat)
    requires i < |t| && z < |t|
  {
    && e.dib == Dist(Home(e.hash, |t|), i, |t|) + 1
    && e.dib <= t[Prev(i, |t|)].dib + 1
    && Dist(Home(e.hash, |t|), i, |t|) <= Dist(Home(e.hash, |t|), z, |t|)
  }

  /** Walking on past a slot at least as rich as the carried entry. */
  lemma WalkOn<T>(t: seq<Slot<T>>, e: Slot<T>, i: nat, z: nat)
    requires i < |t| && z < |t| && t[z].dib == 0 && t[i].dib > 0 && t[i].dib >= e.dib
    requires Walked(t, e, i, z)
    ensures Walked(t, e.(dib := e.dib + 1), Next(i, |t|), z)
    ensures Dist(Next(i, |t|), z, |t|) < Dist(i, z, |t|)
  {
    assert Prev(Next(i, |t|), |t|) == i;
  }

  /** Storing the carried entry in an empty slot completes the insertion. */
  lemma PlaceKeeps<K, T>(t: seq<Slot<T>>, key: T -> K, hash: K -> nat, pos: map<K, nat>, e: Slot<T>, i: nat, z: nat)
    requires Table(t, key, hash, pos) && Carried(t, key, hash, pos, e, i, z) && t[i].dib == 0
    ensures Table(t[i := e], key, hash, pos[key(e.item) := i])
    ensures View(t[i := e], key, pos[key(e.item) := i]) == View(t, key, pos)[key(e.item) := e.item]
  {
    RisesAfterStore(t, e, i);
    var t', pos' := t[i := e], pos[key(e.item) := i];
    assert forall k :: k in pos ==> pos[k] != i;
    assert Indexed(t', key, pos');
  }

  lemma RisesAfterStore<T>(t: seq<Slot<T>>, e: Slot<T>, i: nat)
    requires Rises(t) && i < |t| && t[i].dib <= e.dib <= t[Prev(i, |t|)].dib + 1
    ensures Rises(t[i := e])
  {
    var t' := t[i := e];
    forall j: nat | j < |t| ensures t'[Next(j, |t|)].dib <= t'[j].dib + 1 {
      assert t[Next(j, |t|)].dib <= t[j].dib + 1;
      if Next(j, |t|) == i {
        assert j == Prev(i, |t|);
      }
    }
  }

  /** Swapping the carried entry with a poorer slot keeps the table and carries the evicted entry on. */
  lemma SwapKeeps<K, T>(t: seq<Slot<T>>, key: T -> K, hash: K -> nat, pos: map<K, nat>, e: Slot<T>, i: nat, z: nat)
    returns (pos': map<K, nat>)
    requires Table(t, key, hash, pos) && Carried(t, key, hash, pos, e, i, z) && 0 < t[i].dib < e.dib
    ensures pos' == (pos - {key(t[i].item)})[key(e.item) := i]
    ensures Table(t[i := e], key, hash, pos')
    ensures Carried(t[i := e], key, hash, pos', t[i].(dib := t[i].dib + 1), Next(i, |t|), z)
    ensures View(t[i := e], key, pos')[key(t[i].item) := t[i].item] == View(t, key, pos)[key(e.item) := e.item]
    ensures Dist(Next(i, |t|), z, |t|) < Dist(i, z, |t|)
  {
    pos' := (pos - {key(t[i].item)})[key(e.item) := i];
    RisesAfterStore(t, e, i);
    SwapIndexed(t, key, pos, e, i, pos');
    SwapWalks(t, e, i, z);
  }

  lemma SwapIndexed<K, T>(t: seq<Slot<T>>, key: T -> K, pos: map<K, nat>, e: Slot<T>, i: nat, pos': map<K, nat>)
    requires Indexed(t, key, pos) && i < |t| && t[i].dib > 0 && e.dib > 0 && key(e.item) !in pos
    requires pos' == (pos - {key(t[i].item)})[key(e.item) := i]
    ensures Indexed(t[i := e], key, pos')
    ensures View(t[i := e], key, pos')[key(t[i].item) := t[i].item] == View(t, key, pos)[key(e.item) := e.item]
  {
    assert forall k :: k in pos && pos[k] == i ==> k == key(t[i].item);
  }

  lemma SwapWalks<T>(t: seq<Slot<T>>, e: Slot<T>, i: nat, z: nat)
    requires Placed(t) && Rises(t) && i < |t| && z < |t| && t[z].dib == 0 && 0 < t[i].dib < e.dib
    ensures Walked(t[i := e], t[i].(dib := t[i].dib + 1), Next(i, |t|), z)
    ensures Dist(Next(i, |t|), z, |t|) < Dist(i, z, |t|)
  {
    EmptyIsBeyond(t, i, z);
    assert Prev(Next(i, |t|), |t|) == i;
  }

  /**
   * The state of the probe loop of set, started on a table with contents m: either the key is
   * stored and the loop walks towards it over an unchanged table, or it is not and the loop
   * carries an entry whose insertion would complete the update.
   */
  ghost predicate Probing<K, T>(m: map<K, T>, key: T -> K, hash: K -> nat, item: T,
                                t: seq<Slot<T>>, pos: map<K, nat>, e: Slot<T>, i: nat, z: nat)
  {
    && i < |t| && z < |t| && Table(t, key, hash, pos)
    && if key(item) in m then
         var home := Home(hash(key(item)), |t|);
         && View(t, key, pos) == m && z == pos[key(item)]
         && e == Slot(hash(key(item)), Dist(home, i, |t|) + 1, item)
         && Dist(home, i, |t|) <= Dist(home, z, |t|)
       else
         && Carried(t, key, hash, pos, e, i, z)
         && View(t, key, pos)[key(e.item) := e.item] == m[key(item) := item]
  }

  lemma ProbeStarts<K, T>(t: seq<Slot<T>>, key: T -> K, hash: K -> nat, pos: map<K, nat>, item: T)
    returns (z: nat)
    requires Table(t, key, hash, pos) && |pos| < |t|
    ensures Probing(View(t, key, pos), key, hash, item, t, pos, Slot(hash(key(item)), 1, item),
                    Home(hash(key(item)), |t|), z)
  {
    if key(item) in pos {
      z := pos[key(item)];
    } else {
      z := EmptySlot(t, key, pos);
    }
  }

  /** An empty slot is only met when the key is absent, and storing there completes the update. */
  lemma ProbeStores<K, T>(m: map<K, T>, key: T -> K, hash: K -> nat, item: T,
                          t: seq<Slot<T>>, pos: map<K, nat>, e: Slot<T>, i: nat, z: nat)
    returns (pos': map<K, nat>)
    requires Probing(m, key, hash, item, t, pos, e, i, z) && t[i].dib == 0
    ensures key(item) !in m
    ensures Table(t[i := e], key, hash, pos')
    ensures View(t[i := e], key, pos') == m[key(item) := item]
  {
    if key(item) in m {
      EmptyIsBeyond(t, z, i);
      assert false;
    }
    PlaceKeeps(t, key, hash, pos, e, i, z);
    pos' := pos[key(e.item) := i];
  }

  /** A key match is only met at the slot of the item's own key, before anything was displaced. */
  lemma ProbeMatches<K, T>(m: map<K, T>, key: T -> K, hash: K -> nat, item: T,
                           t: seq<Slot<T>>, pos: map<K, nat>, e: Slot<T>, i: nat, z: nat)
    requires Probing(m, key, hash, item, t, pos, e, i, z)
    requires t[i].dib > 0 && key(e.item) == key(t[i].item)
    ensures key(item) in m && m[key(item)] == t[i].item && e.item == item
    ensures Table(t[i := t[i].(item := item)], key, hash, pos)
    ensures View(t[i := t[i].(item := item)], key, pos) == m[key(item) := item]
  {
    assert key(item) in m;
    ReplaceKeeps(t, key, hash, pos, i, item);
  }

  /** Any other slot is passed, after swapping when it is poorer than the carried entry. */
  lemma ProbeGoesOn<K, T>(m: map<K, T>, key: T -> K, hash: K -> nat, item: T,
                          t: seq<Slot<T>>, pos: map<K, nat>, e: Slot<T>, i: nat, z: nat)
    returns (pos': map<K, nat>)
    requires Probing(m, key, hash, item, t, pos, e, i, z)
    requires t[i].dib > 0 && (e.hash != t[i].hash || key(e.item) != key(t[i].item))
    ensures if t[i].dib < e.dib
            then Probing(m, key, hash, item, t[i := e], pos', t[i].(dib := t[i].dib + 1), Next(i, |t|), z)
            else Probing(m, key, hash, item, t, pos', e.(dib := e.dib + 1), Next(i, |t|), z)
    ensures Dist(Next(i, |t|), z, |t|) < Dist(i, z, |t|)
  {
    pos' := pos;
    if key(item) in m {
      if t[i].dib < e.dib {
        NotFurther(t, i, z, Home(hash(key(item)), |t|));
        assert false;
      }
    } else if t[i].dib < e.dib {
      pos' := SwapKeeps(t, key, hash, pos, e, i, z);
    } else {
      WalkOn(t, e, i, z);
    }
  }

  /**
   * A table with a hole: slot p has been vacated and still awaits the rest of the run that
   * follows it to be shifted back.
   */
  ghost predicate Holed<K, T>(t: seq<Slot<T>>, key: T -> K, hash: K -> nat, pos: map<K, nat>, p: nat) {
    && p < |t| && t[p].dib == 0
    && Placed(t) && Indexed(t, key, pos) && Hashed(t, key, hash)
    && (forall i: nat {:trigger Next(i, |t|)} :: i < |t| && i != p ==> t[Next(i, |t|)].dib <= t[i].dib + 1)
    && t[Next(p, |t|)].dib <= t[Prev(p, |t|)].dib + 2
  }

  lemma VacateHoles<K, T>(t: seq<Slot<T>>, key: T -> K, hash: K -> nat, pos: map<K, nat>, p: nat)
    requires Table(t, key, hash, pos) && p < |t| && t[p].dib > 0 && |t| > 1
    ensures Holed(t[p := t[p].(dib := 0)], key, hash, pos - {key(t[p].item)}, p)
    ensures View(t[p := t[p].(dib := 0)], key, pos - {key(t[p].item)}) == View(t, key, pos) - {key(t[p].item)}
  {
    var n, t' := |t|, t[p := t[p].(dib := 0)];
    assert t[p].dib <= t[Prev(p, n)].dib + 1;
    assert t[Next(p, n)].dib <= t[p].dib + 1;
    forall i: nat | i < n && i != p ensures t'[Next(i, n)].dib <= t'[i].dib + 1 {
      assert t[Next(i, n)].dib <= t[i].dib + 1;
    }
    assert forall k :: k in pos && pos[k] == p ==> k == key(t[p].item);
  }

  /** The slot after the hole p, moved into the hole; it is one step nearer home there. */
  ghost function Shifted<T>(t: seq<Slot<T>>, p: nat): seq<Slot<T>>
    requires p < |t| && t[Next(p, |t|)].dib > 1
  {
    var q := Next(p, |t|);
    t[p := t[q].(dib := t[q].dib - 1)][q := t[q].(dib := 0)]
  }

  lemma ShiftedRises<T>(t: seq<Slot<T>>, p: nat)
    requires |t| > 2 && p < |t| && t[p].dib == 0 && t[Next(p, |t|)].dib > 1
    requires forall i: nat {:trigger Next(i, |t|)} :: i < |t| && i != p ==> t[Next(i, |t|)].dib <= t[i].dib + 1
    requires t[Next(p, |t|)].dib <= t[Prev(p, |t|)].dib + 2
    ensures forall i: nat {:trigger Next(i, |t|)} ::
              i < |t| && i != Next(p, |t|) ==> Shifted(t, p)[Next(i, |t|)].dib <= Shifted(t, p)[i].dib + 1
    ensures var q := Next(p, |t|); Shifted(t, p)[Next(q, |t|)].dib <= Shifted(t, p)[Prev(q, |t|)].dib + 2
  {
    var n, t' := |t|, Shifted(t, p);
    var q := Next(p, n);
    assert Prev(q, n) == p;
    assert t[Next(q, n)].dib <= t[q].dib + 1;
    forall i: nat | i < n && i != q ensures t'[Next(i, n)].dib <= t'[i].dib + 1 {
      if i != p {
        assert t[Next(i, n)].dib <= t[i].dib + 1;
        if Next(i, n) == p { assert i == Prev(p, n); }
      }
    }
  }

  lemma ShiftedPlaced<T>(t: seq<Slot<T>>, p: nat)
    requires |t| > 2 && p < |t| && t[Next(p, |t|)].dib > 1 && Placed(t)
    ensures Placed(Shifted(t, p))
  {
    var n, q := |t|, Next(p, |t|);
    var h := Home(t[q].hash, n);
    assert Dist(h, q, n) == t[q].dib - 1;
    assert Dist(h, p, n) == Dist(h, q, n) - 1;
  }

  /** One step of the backward shift moves the hole forward and leaves the map alone. */
  lemma ShiftKeeps<K, T>(t: seq<Slot<T>>, key: T -> K, hash: K -> nat, pos: map<K, nat>, p: nat)
    returns (pos': map<K, nat>)
    requires Holed(t, key, hash, pos, p) && |t| > 2 && t[Next(p, |t|)].dib > 1
    ensures pos' == pos[key(t[Next(p, |t|)].item) := p] && pos'.Keys == pos.Keys
    ensures Holed(Shifted(t, p), key, hash, pos', Next(p, |t|))
    ensures View(Shifted(t, p), key, pos') == View(t, key, pos)
  {
    pos' := pos[key(t[Next(p, |t|)].item) := p];
    ShiftedRises(t, p);
    ShiftedPlaced(t, p);
    ShiftedIndexed(t, key, pos, p, pos');
    assert Hashed(Shifted(t, p), key, hash);
  }

  lemma ShiftedIndexed<K, T>(t: seq<Slot<T>>, key: T -> K, pos: map<K, nat>, p: nat, pos': map<K, nat>)
    requires Indexed(t, key, pos) && |t| > 2 && p < |t| && t[p].dib == 0 && t[Next(p, |t|)].dib > 1
    requires pos' == pos[key(t[Next(p, |t|)].item) := p]
    ensures pos'.Keys == pos.Keys && Indexed(Shifted(t, p), key, pos')
    ensures View(Shifted(t, p), key, pos') == View(t, key, pos)
  {
    var q := Next(p, |t|);
    assert forall k :: k in pos && pos[k] == q ==> k == key(t[q].item);
    assert forall k :: k in pos ==> pos[k] != p;
  }

  ghost function Vacated<T>(t: seq<Slot<T>>, p: nat): seq<Slot<T>>
    requires p < |t|
  {
    t[p := t[p].(dib := 0)]
  }

  lemma VacatedShift<T>(s: seq<Slot<T>>, p: nat)
    requires |s| > 1 && p < |s| && s[Next(p, |s|)].dib > 1
    ensures var q := Next(p, |s|);
            Vacated(s[p := s[q].(dib := s[q].dib - 1)], q) == Shifted(Vacated(s, p), p)
  {
  }

  /** The state of the backward shift: a hole at p, contents m, and an empty slot z still ahead. */
  ghost predicate Shifting<K, T>(m: map<K, T>, key: T -> K, hash: K -> nat,
                                 t: seq<Slot<T>>, pos: map<K, nat>, p: nat, z: nat)
  {
    && |t| > 2 && z < |t| && z != p && t[z].dib == 0
    && Holed(t, key, hash, pos, p) && View(t, key, pos) == m
  }

  lemma ShiftStarts<K, T>(t: seq<Slot<T>>, key: T -> K, hash: K -> nat, pos: map<K, nat>, p: nat)
    returns (z: nat, pos': map<K, nat>)
    requires Table(t, key, hash, pos) && |pos| < |t| && |t| > 2 && p < |t| && t[p].dib > 0
    ensures Shifting(View(t, key, pos) - {key(t[p].item)}, key, hash, Vacated(t, p), pos', p, z)
  {
    z := EmptySlot(t, key, pos);
    pos' := pos - {key(t[p].item)};
    VacateHoles(t, key, hash, pos, p);
  }

  lemma ShiftGoesOn<K, T>(m: map<K, T>, key: T -> K, hash: K -> nat,
                          t: seq<Slot<T>>, pos: map<K, nat>, p: nat, z: nat)
    returns (pos': map<K, nat>)
    requires Shifting(m, key, hash, t, pos, p, z) && t[Next(p, |t|)].dib > 1
    ensures Shifting(m, key, hash, Shifted(t, p), pos', Next(p, |t|), z)
    ensures Dist(Next(p, |t|), z, |t|) < Dist(p, z, |t|)
  {
    pos' := ShiftKeeps(t, key, hash, pos, p);
  }

  /** When the slot after the hole is empty or at home, the hole is an ordinary empty slot. */
  lemma HoleCloses<K, T>(t: seq<Slot<T>>, key: T -> K, hash: K -> nat, pos: map<K, nat>, p: nat)
    requires Holed(t, key, hash, pos, p) && t[Next(p, |t|)].dib <= 1
    ensures Table(t, key, hash, pos)
  {
  }
}

module HashMap {
  import opened RobinHood
  import opened Wrappers

  /** Hashes are clipped to 48 bits. */
  const CLIP: nat := 0x1_0000_0000_0000

  ghost function Clipped<K>(hash: K -> nat): K -> nat {
    k => hash(k) % CLIP
  }

  ghost predicate PowerOfTwo(n: nat) {
    n == 1 || (n > 1 && n % 2 == 0 && PowerOfTwo(n / 2))
  }

  lemma {:induction false} PowersApart(a: nat, b: nat)
    requires PowerOfTwo(a) && PowerOfTwo(b) && a < b
    ensures 2 * a <= b
  {
    if a > 1 {
      PowersApart(a / 2, b / 2);
    }
  }

  function ShiftLeft(n: nat, power: nat): (r: nat)
    ensures r >= n && (power > 0 ==> r >= 2 * n)
  {
    if power == 0 then n else 2 * ShiftLeft(n, power - 1)
  }

  lemma {:induction false} ShiftKeepsPower(n: nat, power: nat)
    requires PowerOfTwo(n)
    ensures PowerOfTwo(ShiftLeft(n, power))
  {
    if power > 0 { ShiftKeepsPower(n, power - 1); }
  }

  /** Shifting multiplies by as many twos, and shifts add up. */
  lemma {:induction false} ShiftsAdd(n: nat, a: nat, b: nat)
    ensures ShiftLeft(n, 1) == 2 * n && ShiftLeft(n, a + b) == ShiftLeft(ShiftLeft(n, a), b)
    decreases b
  {
    assert ShiftLeft(n, 0) == n;
    if b > 0 { ShiftsAdd(n, a, b - 1); }
  }

  /** A power of two is its own rounding. */
  lemma {:induction false} RoundsToItself(cap: nat, ncap: nat)
    requires PowerOfTwo(cap) && PowerOfTwo(ncap) && 16 <= cap <= ncap && (ncap == 16 || ncap / 2 < cap)
    ensures ncap == cap
  {
    if cap < ncap { PowersApart(cap, ncap); }
  }

  /** The sizing loop of a new map: the least power of two that is at least 16 and at least cap. */
  method RoundCapacity(cap: nat) returns (ncap: nat)
    ensures ncap >= 16 && ncap >= cap && PowerOfTwo(ncap)
    ensures ncap == 16 || ncap / 2 < cap
  {
    ncap := 16;
    while ncap < cap
      invariant ncap >= 16 && PowerOfTwo(ncap)
      invariant ncap == 16 || ncap / 2 < cap
    {
      ncap := ncap * 2;
    }
  }

  /**
   * Items are compared through `key`: compare(a, b) == 0 is key(a) == key(b), which is no
   * restriction since every equivalence is equality of classes; a null compare is key = hash.
   */
  class HashMap<K(==), T> {
    const key: T -> K
    const hash: K -> nat
    const blank: T
    var cap: nat
    var nbuckets: nat
    var count: nat
    var mask: nat
    var growat: nat
    var shrinkat: nat
    var growpower: nat
    var oom: bool
    var buckets: array<Slot<T>>
    ghost var pos: map<K, nat>

    ghost predicate Valid()
      reads this, buckets
    {
      && 16 <= cap <= nbuckets <= buckets.Length && PowerOfTwo(cap) && PowerOfTwo(nbuckets)
      && mask == nbuckets - 1
      && (growat == nbuckets * 3 / 5 || growat == nbuckets * 3 / 4)
      && shrinkat == nbuckets / 10 && 1 <= growpower <= 16
      && count == |pos| && count <= growat
      && Table(buckets[..nbuckets], key, Clipped(hash), pos)
    }

    /** The finite map the hash map stands for. */
    ghost function Contents(): (m: map<K, T>)
      requires Valid()
      reads this, buckets
    {
      View(buckets[..nbuckets], key, pos)
    }

    constructor (key: T -> K, hash: K -> nat, blank: T, cap: nat)
      ensures Valid() && Contents() == map[] && fresh(buckets)
      ensures this.key == key && this.hash == hash && this.cap >= cap && !oom && count == 0 && growpower == 1
      ensures nbuckets == this.cap && growat == nbuckets * 3 / 5 && (this.cap == 16 || this.cap / 2 < cap)
    {
      this.key, this.hash, this.blank := key, hash, blank;
      var ncap := RoundCapacity(cap);
      this.cap, nbuckets, mask := ncap, ncap, ncap - 1;
      buckets := new Slot<T>[ncap](_ => Slot(0, 0, blank));
      count, growat, shrinkat, growpower, oom := 0, ncap * 3 / 5, ncap / 10, 1, false;
      pos := map[];
    }

    /** The power is kept within 1..16. */
    method SetGrowByPower(power: nat)
      requires Valid()
      modifies this`growpower
      ensures Valid() && Contents() == old(Contents())
      ensures 1 <= growpower <= 16 && (1 <= power <= 16 ==> growpower == power)
      ensures (power < 1 ==> growpower == 1) && (power > 16 ==> growpower == 16)
    {
      growpower := if power < 1 then 1 else if power > 16 then 16 else power;
    }

    /** The probe loop of get and delete: walks to the slot of the key or to an empty slot. */
    method Lookup(k: K, h: nat) returns (found: bool, i: nat)
      requires Valid() && h % CLIP == hash(k) % CLIP
      ensures i < nbuckets && found == (k in pos) && (found ==> pos[k] == i)
    {
      ghost var t := buckets[..nbuckets];
      var hh := h % CLIP;
      i := hh % (mask + 1);
      ghost var z := EmptySlot(t, key, pos);
      while true
        invariant i < nbuckets && Seeking(t, key, Clipped(hash), pos, k, i, z)
        decreases Dist(i, z, nbuckets)
      {
        var b := buckets[i];
        assert b == t[i];
        SeekingNext(t, key, Clipped(hash), pos, k, i, z);
        if b.dib == 0 {
          return false, i;
        }
        if b.hash == hh && key(b.item) == k {
          return true, i;
        }
        i := if i == mask then 0 else i + 1;
      }
    }

    /** The stored item with the same key, if any. */
    method GetWithHash(k: K, h: nat) returns (r: Option<T>)
      requires Valid() && h % CLIP == hash(k) % CLIP
      ensures r == if k in Contents() then Some(Contents()[k]) else None
    {
      var found, i := Lookup(k, h);
      r := if found then Some(buckets[i].item) else None;
    }

    method Get(k: K) returns (r: Option<T>)
      requires Valid()
      ensures r == if k in Contents() then Some(Contents()[k]) else None
    {
      r := GetWithHash(k, hash(k));
    }

    /**
     * Rebuilds the table at a new size. Failure to allocate leaves the map alone.
     */
    method Resize(newCap: nat, allocOk: bool) returns (ok: bool)
      requires Valid() && newCap >= cap && count <= newCap * 3 / 5
      modifies this, buckets
      ensures Valid() && ok == allocOk && Contents() == old(Contents())
      ensures cap == old(cap) && count == old(count) && oom == old(oom) && growpower == old(growpower)
      ensures ok ==> fresh(buckets) && nbuckets >= newCap && growat == nbuckets * 3 / 5
      ensures ok && PowerOfTwo(newCap) && newCap >= 16 ==> nbuckets == newCap
      ensures !ok ==> buckets == old(buckets) && nbuckets == old(nbuckets) && growat == old(growat)
      ensures unchanged(old(buckets))
    {
      if !allocOk {
        return false;
      }
      var n := RoundCapacity(newCap);
      if PowerOfTwo(newCap) && newCap >= 16 { RoundsToItself(newCap, n); }
      var table;
      ghost var pos2;
      table, pos2 := Rebuild(n);
      Install(table, pos2);
      ok := true;
    }

    /** Replaces the table by one with the same contents and recomputes the thresholds. */
    method Install(table: array<Slot<T>>, ghost pos2: map<K, nat>)
      requires Valid() && PowerOfTwo(table.Length) && table.Length >= cap && count <= table.Length * 3 / 5
      requires Table(table[..], key, Clipped(hash), pos2) && View(table[..], key, pos2) == Contents()
      modifies this`buckets, this`nbuckets, this`mask, this`growat, this`shrinkat, this`pos
      ensures buckets == table && nbuckets == table.Length && growat == nbuckets * 3 / 5
      ensures Valid() && Contents() == old(Contents())
    {
      SameSize(buckets[..nbuckets], key, pos, table[..], pos2);
      assert table[..table.Length] == table[..];
      buckets, nbuckets, mask := table, table.Length, table.Length - 1;
      growat, shrinkat, pos := nbuckets * 3 / 5, nbuckets / 10, pos2;
    }

    /** Moves every occupied slot into a new table of n slots. */
    method Rebuild(n: nat) returns (table: array<Slot<T>>, ghost pos2: map<K, nat>)
      requires Valid() && n > count
      ensures fresh(table) && table.Length == n
      ensures Table(table[..], key, Clipped(hash), pos2) && View(table[..], key, pos2) == Contents()
    {
      table := new Slot<T>[n](_ => Slot(0, 0, blank));
      pos2 := map[];
      ghost var t := buckets[..nbuckets];
      EmptyTable(table[..], key, Clipped(hash));
      assert View(table[..], key, pos2) == ViewBelow(t, key, pos, 0);
      for i := 0 to nbuckets
        invariant fresh(table)
        invariant Table(table[..], key, Clipped(hash), pos2)
        invariant View(table[..], key, pos2) == ViewBelow(t, key, pos, i)
      {
        pos2 := MoveSlot(table, pos2, i);
      }
      ViewBelowAll(t, key, pos);
    }

    /** One round of the rebuild: empty slots are skipped. */
    method MoveSlot(table: array<Slot<T>>, ghost pos2: map<K, nat>, i: nat) returns (ghost pos': map<K, nat>)
      requires Valid() && i < nbuckets && table != buckets && table.Length > count
      requires Table(table[..], key, Clipped(hash), pos2)
      requires View(table[..], key, pos2) == ViewBelow(buckets[..nbuckets], key, pos, i)
      modifies table
      ensures Table(table[..], key, Clipped(hash), pos')
      ensures View(table[..], key, pos') == ViewBelow(buckets[..nbuckets], key, pos, i + 1)
    {
      pos' := pos2;
      ghost var t := buckets[..nbuckets];
      ViewBelowStep(t, key, pos, i);
      if buckets[i].dib != 0 {
        assert buckets[i] == t[i];
        assert pos2.Keys == View(table[..], key, pos2).Keys;
        SubsetSize(pos2.Keys, pos.Keys);
        pos' := Reinsert(table, pos2, buckets[i]);
      }
    }

    /** The inner loop of the rebuild: no key comparison, since the keys are distinct. */
    method Reinsert(table: array<Slot<T>>, ghost pos2: map<K, nat>, slot: Slot<T>) returns (ghost pos': map<K, nat>)
      requires Table(table[..], key, Clipped(hash), pos2) && |pos2| < table.Length
      requires slot.dib > 0 && slot.hash == hash(key(slot.item)) % CLIP && key(slot.item) !in pos2
      modifies table
      ensures Table(table[..], key, Clipped(hash), pos')
      ensures View(table[..], key, pos') == View(old(table[..]), key, pos2)[key(slot.item) := slot.item]
    {
      var entry := slot.(dib := 1);
      var n := table.Length;
      var j: nat := entry.hash % n;
      ghost var z := EmptySlot(table[..], key, pos2);
      pos' := pos2;
      ghost var goal := View(table[..], key, pos2)[key(slot.item) := slot.item];
      while true
        invariant Table(table[..], key, Clipped(hash), pos')
        invariant Carried(table[..], key, Clipped(hash), pos', entry, j, z)
        invariant View(table[..], key, pos')[key(entry.item) := entry.item] == goal
        decreases Dist(j, z, n)
      {
        ghost var t := table[..];
        if table[j].dib == 0 {
          PlaceKeeps(t, key, Clipped(hash), pos', entry, j, z);
          table[j] := entry;
          pos' := pos'[key(entry.item) := j];
          assert table[..] == t[j := entry];
          return;
        }
        if table[j].dib < entry.dib {
          pos' := SwapKeeps(t, key, Clipped(hash), pos', entry, j, z);
          ghost var e := entry;
          var spare := table[j];
          table[j] := entry;
          entry := spare;
          assert table[..] == t[j := e];
        } else {
          WalkOn(t, entry, j, z);
        }
        j := if j == n - 1 then 0 else j + 1;
        entry := entry.(dib := entry.dib + 1);
      }
    }

    /**
     * Inserts or replaces. With the table at its growth threshold a new table is needed first; if
     * that cannot be allocated the call reports out of memory and changes nothing.
     */
    method SetWithHash(item: T, h: nat, allocOk: bool) returns (r: Option<T>)
      requires Valid() && h % CLIP == hash(key(item)) % CLIP
      modifies this, buckets
      ensures Valid() && (buckets == old(buckets) || fresh(buckets)) && cap == old(cap) && growpower == old(growpower)
      ensures oom == (!allocOk && old(count == growat))
      ensures oom ==> r == None && Contents() == old(Contents())
      ensures !oom ==> Contents() == old(Contents())[key(item) := item]
      ensures !oom ==> r == if key(item) in old(Contents()) then Some(old(Contents())[key(item)]) else None
      ensures Grown(old(nbuckets), old(growat), old(count), allocOk)
      ensures count == old(count) + if !oom && r == None then 1 else 0
    {
      oom := false;
      if count == growat {
        ShiftKeepsPower(nbuckets, growpower);
        var ok := Resize(ShiftLeft(nbuckets, growpower), allocOk);
        if !ok {
          oom := true;
          return None;
        }
      }
      r := Insert(item, h);
    }

    method Set(item: T, allocOk: bool) returns (r: Option<T>)
      requires Valid()
      modifies this, buckets
      ensures Valid() && (buckets == old(buckets) || fresh(buckets)) && cap == old(cap) && growpower == old(growpower)
      ensures oom == (!allocOk && old(count == growat))
      ensures oom ==> r == None && Contents() == old(Contents())
      ensures !oom ==> Contents() == old(Contents())[key(item) := item]
      ensures !oom ==> r == if key(item) in old(Contents()) then Some(old(Contents())[key(item)]) else None
      ensures Grown(old(nbuckets), old(growat), old(count), allocOk)
      ensures count == old(count) + if !oom && r == None then 1 else 0
    {
      r := SetWithHash(item, hash(key(item)), allocOk);
    }

    /** A full table is shifted to a larger size before anything is inserted, if that can be allocated. */
    ghost predicate Grown(n: nat, limit: nat, before: nat, allocOk: bool)
      reads this
    {
      var grows := before == limit && allocOk;
      nbuckets == (if grows then ShiftLeft(n, growpower) else n) && growat == if grows then nbuckets * 3 / 5 else limit
    }

    /** A sparse table above its capacity is halved after an item was removed, if that can be allocated. */
    ghost predicate Shrunk(n: nat, limit: nat, removed: bool, allocOk: bool)
      reads this
    {
      var shrinks := removed && n > cap && count <= n / 10 && allocOk;
      nbuckets == (if shrinks then n / 2 else n) && growat == if shrinks then nbuckets * 3 / 5 else limit
    }

    /** The probe loop of set, which displaces poorer slots before it has seen the whole run. */
    method Insert(item: T, h: nat) returns (r: Option<T>)
      requires Valid() && count < growat && h % CLIP == hash(key(item)) % CLIP
      modifies this`count, this`pos, buckets
      ensures Valid() && Contents() == old(Contents())[key(item) := item]
      ensures r == if key(item) in old(Contents()) then Some(old(Contents())[key(item)]) else None
      ensures count == old(count) + if r == None then 1 else 0
    {
      ghost var pos';
      r, pos' := Probe(buckets, nbuckets, pos, item, h % CLIP);
      UpdatedSize(old(buckets[..nbuckets]), key, pos, buckets[..nbuckets], pos', item);
      pos := pos';
      if r == None {
        count := count + 1;
      }
    }

    method Probe(buckets: array<Slot<T>>, n: nat, ghost pos0: map<K, nat>, item: T, hh: nat)
      returns (r: Option<T>, ghost pos': map<K, nat>)
      requires 0 < n <= buckets.Length && |pos0| < n && hh == hash(key(item)) % CLIP
      requires Table(buckets[..n], key, Clipped(hash), pos0)
      modifies buckets
      ensures Table(buckets[..n], key, Clipped(hash), pos')
      ensures View(buckets[..n], key, pos') == View(old(buckets[..n]), key, pos0)[key(item) := item]
      ensures r == if key(item) in pos0 then Some(View(old(buckets[..n]), key, pos0)[key(item)]) else None
    {
      var entry := Slot(hh, 1, item);
      var i: nat := entry.hash % n;
      ghost var m := View(buckets[..n], key, pos0);
      pos' := pos0;
      ghost var z := ProbeStarts(buckets[..n], key, Clipped(hash), pos0, item);
      while true
        invariant Probing(m, key, Clipped(hash), item, buckets[..n], pos', entry, i, z)
        decreases Dist(i, z, n)
      {
        ghost var t := buckets[..n];
        var b := buckets[i];
        if b.dib == 0 {
          pos' := ProbeStores(m, key, Clipped(hash), item, t, pos', entry, i, z);
          Store(buckets, n, i, entry);
          return None, pos';
        }
        if entry.hash == b.hash && key(entry.item) == key(b.item) {
          ProbeMatches(m, key, Clipped(hash), item, t, pos', entry, i, z);
          Store(buckets, n, i, b.(item := entry.item));
          return Some(b.item), pos';
        }
        entry, pos' := Displace(buckets, n, m, pos', item, entry, i, z);
        i := if i == n - 1 then 0 else i + 1;
      }
    }

    /** One turn of the probe at an occupied slot: the entry further from home stays, the other goes on. */
    method Displace(buckets: array<Slot<T>>, ghost n: nat, ghost m: map<K, T>, ghost pos: map<K, nat>, ghost item: T,
                    entry0: Slot<T>, i: nat, ghost z: nat)
      returns (entry: Slot<T>, ghost pos': map<K, nat>)
      requires i < n <= buckets.Length && buckets[i].dib > 0
      requires Probing(m, key, Clipped(hash), item, buckets[..n], pos, entry0, i, z)
      requires entry0.hash != buckets[i].hash || key(entry0.item) != key(buckets[i].item)
      modifies buckets
      ensures Probing(m, key, Clipped(hash), item, buckets[..n], pos', entry, Next(i, n), z)
      ensures Dist(Next(i, n), z, n) < Dist(i, z, n)
    {
      pos' := ProbeGoesOn(m, key, Clipped(hash), item, buckets[..n], pos, entry0, i, z);
      var b := buckets[i];
      entry := entry0;
      if b.dib < entry.dib {
        Store(buckets, n, i, entry);
        entry := b;
      }
      entry := entry.(dib := entry.dib + 1);
    }

    /** Removes and returns the item with the key; a shrink that cannot be allocated is skipped. */
    method DeleteWithHash(k: K, h: nat, allocOk: bool) returns (r: Option<T>)
      requires Valid() && h % CLIP == hash(k) % CLIP
      modifies this, buckets
      ensures Valid() && (buckets == old(buckets) || fresh(buckets)) && cap == old(cap) && growpower == old(growpower)
      ensures !oom && Contents() == old(Contents()) - {k}
      ensures r == if k in old(Contents()) then Some(old(Contents())[k]) else None
      ensures Shrunk(old(nbuckets), old(growat), r.Some?, allocOk) && count == old(count) - if r.Some? then 1 else 0
    {
      oom := false;
      var found, i := Lookup(k, h);
      if !found {
        return None;
      }
      r := Some(buckets[i].item);
      Remove(k, i);
      Shrink(allocOk);
    }

    method Shrink(allocOk: bool)
      requires Valid()
      modifies this, buckets
      ensures Valid() && (buckets == old(buckets) || fresh(buckets)) && cap == old(cap) && growpower == old(growpower)
      ensures Contents() == old(Contents()) && count == old(count) && oom == old(oom)
      ensures Shrunk(old(nbuckets), old(growat), true, allocOk)
    {
      if nbuckets > cap && count <= shrinkat {
        PowersApart(cap, nbuckets);
        var _ := Resize(nbuckets / 2, allocOk);
      }
    }

    method Delete(k: K, allocOk: bool) returns (r: Option<T>)
      requires Valid()
      modifies this, buckets
      ensures Valid() && (buckets == old(buckets) || fresh(buckets)) && cap == old(cap) && growpower == old(growpower)
      ensures !oom && Contents() == old(Contents()) - {k}
      ensures r == if k in old(Contents()) then Some(old(Contents())[k]) else None
      ensures Shrunk(old(nbuckets), old(growat), r.Some?, allocOk) && count == old(count) - if r.Some? then 1 else 0
    {
      r := DeleteWithHash(k, hash(k), allocOk);
    }

    method Store(a: array<Slot<T>>, ghost n: nat, i: nat, slot: Slot<T>)
      requires i < n <= a.Length
      modifies a
      ensures a[..n] == old(a[..n])[i := slot]
    {
      a[i] := slot;
    }

    method StoreBack(a: array<Slot<T>>, ghost n: nat, prev: nat, i: nat)
      requires prev < n <= a.Length && n > 1 && i == Next(prev, n) && a[i].dib > 1
      modifies a
      ensures Vacated(a[..n], i) == Shifted(Vacated(old(a[..n]), prev), prev)
    {
      ghost var s := a[..n];
      a[prev] := a[i].(dib := a[i].dib - 1);
      assert a[..n] == s[prev := s[i].(dib := s[i].dib - 1)];
      VacatedShift(s, prev);
    }

    /** Empties slot i, which holds key k, and shifts back the rest of its run. */
    method Remove(ghost k: K, i: nat)
      requires Valid() && k in pos && pos[k] == i
      modifies this`count, this`pos, buckets
      ensures Valid() && Contents() == old(Contents()) - {k} && count == old(count) - 1
    {
      ghost var pos' := BackShift(buckets, nbuckets, pos, i);
      RemovedSize(old(buckets[..nbuckets]), key, pos, buckets[..nbuckets], pos', k);
      count, pos := count - 1, pos';
    }

    method BackShift(buckets: array<Slot<T>>, n: nat, ghost pos0: map<K, nat>, start: nat)
      returns (ghost pos': map<K, nat>)
      requires 2 < n <= buckets.Length && start < n && |pos0| < n && buckets[start].dib > 0
      requires Table(buckets[..n], key, Clipped(hash), pos0)
      modifies buckets
      ensures Table(buckets[..n], key, Clipped(hash), pos')
      ensures View(buckets[..n], key, pos') == View(old(buckets[..n]), key, pos0) - {key(old(buckets[start].item))}
    {
      ghost var t := Vacated(buckets[..n], start);
      ghost var m := View(buckets[..n], key, pos0) - {key(buckets[start].item)};
      ghost var z;
      z, pos' := ShiftStarts(buckets[..n], key, Clipped(hash), pos0, start);
      Store(buckets, n, start, buckets[start].(dib := 0));
      var prev := start;
      while true
        invariant prev < n && t == Vacated(buckets[..n], prev)
        invariant Shifting(m, key, Clipped(hash), t, pos', prev, z)
        decreases Dist(prev, z, n)
      {
        var i := if prev == n - 1 then 0 else prev + 1;
        assert i == Next(prev, n) && t[i] == buckets[..n][i] == buckets[i];
        if buckets[i].dib <= 1 {
          HoleCloses(t, key, Clipped(hash), pos', prev);
          Store(buckets, n, prev, buckets[prev].(dib := 0));
          return;
        }
        pos' := ShiftGoesOn(m, key, Clipped(hash), t, pos', prev, z);
        t := Shifted(t, prev);
        StoreBack(buckets, n, prev, i);
        prev := i;
      }
    }

    /** Zeroes the slots in use and recomputes the thresholds; here the load limit is 0.75. */
    method Zero()
      requires 16 <= cap <= nbuckets <= buckets.Length && PowerOfTwo(cap) && PowerOfTwo(nbuckets)
      requires 1 <= growpower <= 16
      modifies this`count, this`mask, this`growat, this`shrinkat, this`pos, buckets
      ensures Valid() && Contents() == map[] && count == 0 && growat == nbuckets * 3 / 4
    {
      forall i | 0 <= i < nbuckets {
        buckets[i] := Slot(0, 0, blank);
      }
      EmptyTable(buckets[..nbuckets], key, Clipped(hash));
      count, mask, growat, shrinkat, pos := 0, nbuckets - 1, nbuckets * 3 / 4, nbuckets / 10, map[];
    }

    /**
     * Empties the map, either adopting the current size as capacity or returning to the capacity.
     * If the smaller table cannot be allocated, the old one is cut to size.
     */
    method Clear(updateCap: bool, allocOk: bool)
      requires Valid()
      modifies this, buckets
      ensures Valid() && (buckets == old(buckets) || fresh(buckets)) && Contents() == map[]
      ensures cap == (if updateCap then old(nbuckets) else old(cap)) && nbuckets == cap && oom == old(oom)
      ensures count == 0 && growat == nbuckets * 3 / 4 && growpower == old(growpower)
      ensures buckets != old(buckets) <==> !updateCap && old(nbuckets) != cap && allocOk
    {
      if updateCap {
        cap := nbuckets;
      } else if nbuckets != cap {
        if allocOk {
          buckets := new Slot<T>[cap](_ => Slot(0, 0, blank));
        }
        nbuckets := cap;
      }
      Zero();
    }

    /** One step of an iteration: the first occupied slot at or after the cursor. */
    method Iter(cursor: nat) returns (item: Option<T>, next: nat)
      requires Valid()
      ensures item == None ==> Vacant(buckets[..nbuckets], cursor, nbuckets)
      ensures item.Some? ==> cursor < next <= nbuckets && buckets[next - 1].dib > 0
                             && buckets[next - 1].item == item.value && Vacant(buckets[..nbuckets], cursor, next - 1)
    {
      next := cursor;
      while next < nbuckets
        invariant cursor <= next
        invariant Vacant(buckets[..nbuckets], cursor, next)
      {
        next := next + 1;
        if buckets[next - 1].dib != 0 {
          return Some(buckets[next - 1].item), next;
        }
      }
      item := None;
    }

    /** Iterating from cursor 0 until the end meets every stored item exactly once. */
    method Items() returns (items: seq<T>)
      requires Valid()
      ensures Collected(items, key, Contents())
    {
      items := [];
      var cursor: nat := 0;
      ghost var t := buckets[..nbuckets];
      CollectsNone(t, key, pos);
      while true
        invariant Collecting(t, key, pos, items, cursor)
        decreases nbuckets - cursor
      {
        var item, next := Iter(cursor);
        if item == None {
          CollectsAll(t, key, pos, items, cursor);
          return;
        }
        assert t[next - 1] == buckets[next - 1];
        CollectsNext(t, key, pos, items, cursor, next - 1);
        items, cursor := items + [item.value], next;
      }
    }
  }

  // Runs

  /** The operations of a client, with the outcome of any allocation they make. */
  datatype Op<K, T> =
    | Set(item: T, allocOk: bool)
    | Get(k: K)
    | Delete(k: K, allocOk: bool)
    | Clear(updateCap: bool, allocOk: bool)
    | GrowByPower(power: nat)
    | Count

  datatype Out<T> = Item(item: Option<T>) | OutOfMemory | Size(n: nat) | Done

  ghost function Find<K, T>(m: map<K, T>, k: K): Option<T> {
    if k in m then Some(m[k]) else None
  }

  /** The outputs a plain finite map starting at m would give to ops. */
  ghost predicate Agrees<K, T>(m: map<K, T>, key: T -> K, ops: seq<Op<K, T>>, outs: seq<Out<T>>)
    decreases |ops|
  {
    && |outs| == |ops|
    && (|ops| > 0 ==>
          match ops[0]
          case Set(item, allocOk) =>
            || (!allocOk && outs[0] == OutOfMemory && Agrees(m, key, ops[1..], outs[1..]))
            || (outs[0] == Item(Find(m, key(item))) && Agrees(m[key(item) := item], key, ops[1..], outs[1..]))
          case Get(k) => outs[0] == Item(Find(m, k)) && Agrees(m, key, ops[1..], outs[1..])
          case Delete(k, _) => outs[0] == Item(Find(m, k)) && Agrees(m - {k}, key, ops[1..], outs[1..])
          case Clear(_, _) => outs[0] == Done && Agrees(map[], key, ops[1..], outs[1..])
          case GrowByPower(_) => outs[0] == Done && Agrees(m, key, ops[1..], outs[1..])
          case Count => outs[0] == Size(|m|) && Agrees(m, key, ops[1..], outs[1..]))
  }

  method Step<K, T>(h: HashMap<K, T>, op: Op<K, T>) returns (out: Out<T>)
    requires h.Valid()
    modifies h, h.buckets
    ensures h.Valid() && (h.buckets == old(h.buckets) || fresh(h.buckets))
    ensures match op
            case Set(item, allocOk) =>
              || (!allocOk && out == OutOfMemory && h.Contents() == old(h.Contents()))
              || (&& out == Item(Find(old(h.Contents()), h.key(item)))
                  && h.Contents() == old(h.Contents())[h.key(item) := item])
            case Get(k) => out == Item(Find(old(h.Contents()), k)) && h.Contents() == old(h.Contents())
            case Delete(k, _) => out == Item(Find(old(h.Contents()), k)) && h.Contents() == old(h.Contents()) - {k}
            case Clear(_, _) => out == Done && h.Contents() == map[]
            case GrowByPower(_) => out == Done && h.Contents() == old(h.Contents())
            case Count => out == Size(|old(h.Contents())|) && h.Contents() == old(h.Contents())
  {
    match op {
      case Set(item, allocOk) =>
        var r := h.Set(item, allocOk);
        out := if h.oom then OutOfMemory else Item(r);
      case Get(k) =>
        var r := h.Get(k);
        out := Item(r);
      case Delete(k, allocOk) =>
        var r := h.Delete(k, allocOk);
        out := Item(r);
      case Clear(updateCap, allocOk) =>
        h.Clear(updateCap, allocOk);
        out := Done;
      case GrowByPower(power) =>
        h.SetGrowByPower(power);
        out := Done;
      case Count =>
        assert h.Contents().Keys == h.pos.Keys;
        assert |h.Contents()| == |h.Contents().Keys| && |h.pos| == |h.pos.Keys|;
        out := Size(h.count);
    }
  }

  method RunFrom<K, T>(h: HashMap<K, T>, ops: seq<Op<K, T>>) returns (outs: seq<Out<T>>)
    requires h.Valid()
    modifies h, h.buckets
    ensures Agrees(old(h.Contents()), h.key, ops, outs)
    decreases |ops|
  {
    if ops == [] {
      return [];
    }
    var out := Step(h, ops[0]);
    var rest := RunFrom(h, ops[1..]);
    outs := [out] + rest;
    assert outs[1..] == rest;
  }

  /** Over every sequence of operations the hash map answers as a plain finite map does. */
  method Run<K(==), T>(key: T -> K, hash: K -> nat, blank: T, cap: nat, ops: seq<Op<K, T>>) returns (outs: seq<Out<T>>)
    ensures Agrees(map[], key, ops, outs)
  {
    var h := new HashMap(key, hash, blank, cap);
    outs := RunFrom(h, ops);
  }
}
