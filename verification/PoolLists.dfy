/**
 * Chunk headers of src/ld_alloc.c by their offset in a memory, and the doubly linked lists threaded
 * through them.
 */
module PoolLists {
  import opened Wrappers
  import opened Common

  datatype Chunk = Chunk(size: nat, prev: Option<nat>, next: Option<nat>, free: bool)

  /** The headers ever written; those of merged chunks stay behind. */
  type Headers = map<nat, Chunk>

  /** The k-th member of the list l points to its neighbours. */
  ghost predicate Node(h: Headers, l: seq<nat>, k: nat)
    requires k < |l|
  {
    && l[k] in h
    && h[l[k]].prev == (if k == 0 then None else Some(l[k - 1]))
    && h[l[k]].next == (if k + 1 < |l| then Some(l[k + 1]) else None)
  }

  /** From head the headers spell out l, in both directions. */
  ghost predicate Linked(h: Headers, head: Option<nat>, l: seq<nat>) {
    && Distinct(l) && head == (if l == [] then None else Some(l[0]))
    && forall k :: 0 <= k < |l| ==> Node(h, l, k)
  }

  /** The same chunks, but for their links. */
  ghost predicate SameChunks(h: Headers, g: Headers) {
    h.Keys == g.Keys && forall o :: o in h ==> g[o].size == h[o].size && g[o].free == h[o].free
  }

  ghost predicate OnlyIn(l: seq<nat>, h: Headers, g: Headers) {
    h.Keys == g.Keys && forall o :: o in h && o !in l ==> g[o] == h[o]
  }

  function WithNext(h: Headers, p: Option<nat>, n: Option<nat>): (g: Headers)
    requires p != None ==> p.value in h
    ensures g.Keys == h.Keys
  {
    if p == None then h else h[p.value := h[p.value].(next := n)]
  }

  function WithPrev(h: Headers, p: Option<nat>, n: Option<nat>): (g: Headers)
    requires p != None ==> p.value in h
    ensures g.Keys == h.Keys
  {
    if p == None then h else h[p.value := h[p.value].(prev := n)]
  }

  ghost predicate Neighboured(h: Headers, x: nat) {
    x in h && (h[x].prev != None ==> h[x].prev.value in h) && (h[x].next != None ==> h[x].next.value in h)
  }

  /** MP_DLINKLIST_DEL: the headers and the head after x is taken out. */
  function Delete(h: Headers, x: nat): Headers
    requires Neighboured(h, x)
  {
    var c := h[x];
    WithPrev(WithNext(h, c.prev, c.next), c.next, c.prev)
  }

  function DeleteHead(h: Headers, head: Option<nat>, x: nat): Option<nat>
    requires x in h
  {
    if h[x].prev == None then h[x].next else head
  }

  /** MP_DLINKLIST_INS_FRT. */
  function Insert(h: Headers, head: Option<nat>, x: nat): Headers
    requires x in h && (head != None ==> head.value in h)
  {
    WithPrev(h[x := h[x].(prev := None, next := head)], head, Some(x))
  }

  /** The neighbours of y's list position point to y, once the header at y has been copied from that of x. */
  function Adopt(h: Headers, y: nat): Headers
    requires Neighboured(h, y)
  {
    WithPrev(WithNext(h, h[y].prev, Some(y)), h[y].next, Some(y))
  }

  lemma NodeIn(h: Headers, head: Option<nat>, l: seq<nat>, k: nat)
    requires Linked(h, head, l) && k < |l|
    ensures Node(h, l, k) && Neighboured(h, l[k])
  {
    assert Node(h, l, k);
    if k > 0 { assert Node(h, l, k - 1); }
    if k + 1 < |l| { assert Node(h, l, k + 1); }
  }

  lemma DeleteKeeps(h: Headers, head: Option<nat>, l: seq<nat>, j: nat)
    requires Linked(h, head, l) && j < |l|
    ensures Neighboured(h, l[j])
    ensures Linked(Delete(h, l[j]), DeleteHead(h, head, l[j]), l[..j] + l[j + 1..])
    ensures SameChunks(h, Delete(h, l[j])) && OnlyIn(l, h, Delete(h, l[j]))
  {
    NodeIn(h, head, l, j);
    var g, m := Delete(h, l[j]), l[..j] + l[j + 1..];
    forall k | 0 <= k < |m| ensures Node(g, m, k) {
      var i := if k < j then k else k + 1;
      NodeIn(h, head, l, i);
      assert m[k] == l[i];
      assert k > 0 ==> m[k - 1] == l[if k - 1 < j then k - 1 else k];
      assert k + 1 < |m| ==> m[k + 1] == l[if k + 1 < j then k + 1 else k + 2];
    }
  }

  lemma InsertKeeps(h: Headers, head: Option<nat>, l: seq<nat>, x: nat)
    requires Linked(h, head, l) && x in h && x !in l
    ensures head != None ==> head.value in h
    ensures Linked(Insert(h, head, x), Some(x), [x] + l)
    ensures SameChunks(h, Insert(h, head, x)) && OnlyIn([x] + l, h, Insert(h, head, x))
  {
    if l != [] { NodeIn(h, head, l, 0); }
    var g, m := Insert(h, head, x), [x] + l;
    forall k | 0 <= k < |m| ensures Node(g, m, k) {
      if k > 0 {
        NodeIn(h, head, l, k - 1);
        assert m[k] == l[k - 1] && (k > 1 ==> m[k - 1] == l[k - 2]) && (k + 1 < |m| ==> m[k + 1] == l[k]);
      }
    }
  }

  /** A chunk y cut off from the end of x takes its place in the list. */
  lemma AdoptKeeps(h: Headers, head: Option<nat>, l: seq<nat>, j: nat, y: nat, c: Chunk)
    requires Linked(h, head, l) && j < |l| && y !in l && l[j] in h && c.prev == h[l[j]].prev && c.next == h[l[j]].next
    ensures Neighboured(h[y := c], y)
    ensures Linked(Adopt(h[y := c], y), if h[l[j]].prev == None then Some(y) else head, l[j := y])
    ensures SameChunks(h[y := c], Adopt(h[y := c], y)) && OnlyIn(l, h[y := c], Adopt(h[y := c], y))
  {
    NodeIn(h, head, l, j);
    var g, m := Adopt(h[y := c], y), l[j := y];
    forall k | 0 <= k < |m| ensures Node(g, m, k) {
      NodeIn(h, head, l, k);
      if k > 0 { assert m[k - 1] == if k - 1 == j then y else l[k - 1]; }
      if k + 1 < |m| { assert m[k + 1] == if k + 1 == j then y else l[k + 1]; }
    }
  }

  /** A list does not feel changes elsewhere, or of what is not a link. */
  lemma LinkedFrame(h: Headers, g: Headers, head: Option<nat>, l: seq<nat>)
    requires Linked(h, head, l)
    requires forall o :: o in h && o in l ==> o in g && g[o].prev == h[o].prev && g[o].next == h[o].next
    ensures Linked(g, head, l)
  {
    forall k | 0 <= k < |l| ensures Node(g, l, k) {
      assert Node(h, l, k);
    }
  }
}
