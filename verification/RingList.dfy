/** The bounded circular doubly linked deque of src/ld_rbuffer.c. */
module RingList {
  import opened Wrappers

  class Node<T> {
    var data: T
    var prev: Node?<T>
    var next: Node?<T>

    constructor (data: T)
      ensures this.data == data
    {
      this.data := data;
      prev, next := null, null;
    }
  }

  class RingList<T> {
    var head: Node?<T>
    var tail: Node?<T>
    var count: nat
    const size: nat
    /** What the list holds, front first, and the nodes that hold it. */
    ghost var items: seq<T>
    ghost var nodes: seq<Node<T>>
    ghost var Repr: set<object>

    ghost predicate Footprint()
      reads this
    {
      && this in Repr && count == |nodes| == |items| <= size
      && (forall k :: 0 <= k < |nodes| ==> nodes[k] in Repr)
      && (forall a, b :: 0 <= a < b < |nodes| ==> nodes[a] != nodes[b])
    }

    /** The nodes form a ring in both directions, entered at head. */
    ghost predicate Ring()
      requires Footprint()
      reads this, Repr
    {
      && (forall k {:trigger nodes[k].next} :: 0 <= k < |nodes| - 1 ==> nodes[k].next == nodes[k + 1])
      && (forall k {:trigger nodes[k].prev} :: 1 <= k < |nodes| ==> nodes[k].prev == nodes[k - 1])
      && (if count == 0 then head == null && tail == null
          else head == nodes[0] && tail == nodes[count - 1] && tail.next == head && head.prev == tail)
    }

    ghost predicate Valid()
      reads this, Repr
    {
      Footprint() && Ring() && forall k :: 0 <= k < |nodes| ==> nodes[k].data == items[k]
    }

    constructor (size: nat)
      ensures Valid() && fresh(Repr) && items == [] && this.size == size
    {
      this.size := size;
      head, tail, count := null, null, 0;
      items, nodes, Repr := [], [], {this};
    }

    /** A new node goes between the tail and the head. */
    method Link(n: Node<T>)
      requires Valid() && count > 0 && n !in Repr
      modifies n, head, tail
      ensures n.next == head && n.prev == tail && head.prev == n && tail.next == n && n.data == old(n.data)
      ensures forall k {:trigger nodes[k].next} :: 0 <= k < |nodes| - 1 ==> nodes[k].next == nodes[k + 1]
      ensures forall k {:trigger nodes[k].prev} :: 1 <= k < |nodes| ==> nodes[k].prev == nodes[k - 1]
      ensures forall k :: 0 <= k < |nodes| ==> nodes[k].data == items[k]
    {
      n.next := head;
      n.prev := tail;
      tail.next := n;
      head.prev := n;
    }

    method PushFront(x: T) returns (ok: bool)
      requires Valid()
      modifies Repr
      ensures Valid() && fresh(Repr - old(Repr)) && ok == (old(|items|) < size)
      ensures items == if ok then [x] + old(items) else old(items)
    {
      if count >= size {
        return false;
      }
      var n := new Node(x);
      if count == 0 {
        head, tail := n, n;
        n.next, n.prev := n, n;
      } else {
        Link(n);
        head := n;
      }
      count := count + 1;
      items, nodes, Repr := [x] + items, [n] + nodes, Repr + {n};
      ok := true;
    }

    method PushBack(x: T) returns (ok: bool)
      requires Valid()
      modifies Repr
      ensures Valid() && fresh(Repr - old(Repr)) && ok == (old(|items|) < size)
      ensures items == if ok then old(items) + [x] else old(items)
    {
      if count >= size {
        return false;
      }
      var n := new Node(x);
      if count == 0 {
        head, tail := n, n;
        n.next, n.prev := n, n;
      } else {
        Link(n);
        tail := n;
      }
      count := count + 1;
      items, nodes, Repr := items + [x], nodes + [n], Repr + {n};
      ok := true;
    }

    method Pop() returns (r: Option<T>)
      requires Valid()
      modifies Repr
      ensures Valid() && Repr == old(Repr)
      ensures r == None <==> old(items) == []
      ensures if r == None then items == [] else [r.value] + items == old(items)
    {
      if count == 0 {
        return None;
      }
      r := Some(head.data);
      if count == 1 {
        head, tail := null, null;
      } else {
        head := head.next;
        tail.next := head;
        head.prev := tail;
      }
      count := count - 1;
      items, nodes := items[1..], nodes[1..];
    }

    /** ld_rbuffer_check_exist: walks the ring once. */
    method CheckExist(x: T, same: (T, T) -> bool) returns (found: bool)
      requires Valid()
      ensures found <==> exists k :: 0 <= k < |items| && same(items[k], x)
    {
      var current := head;
      var k := 0;
      while k < count
        invariant 0 <= k <= count && (k < count ==> current == nodes[k])
        invariant forall j :: 0 <= j < k ==> !same(items[j], x)
      {
        if same(current.data, x) {
          return true;
        }
        current := current.next;
        k := k + 1;
      }
      found := false;
    }
  }
}
