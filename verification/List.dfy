/** lib/kernel/list.c: the doubly linked lists behind the ready list, the waiters of a semaphore and the free blocks, and the
    sequences they stand for. */
module Lists {

  ghost predicate Unique<T>(q: seq<T>) {
    forall i, j :: 0 <= i < j < |q| ==> q[i] != q[j]
  }

  /** A list without element `t`. */
  function Without<T(==,!new)>(q: seq<T>, t: T): (r: seq<T>)
    ensures Unique(q) ==> Unique(r)
    ensures forall u :: u in r <==> u in q && u != t
  {
    if q == [] then [] else
      var rest := Without(q[1..], t);
      assert Unique(q) ==> Unique(q[1..]) && q[0] !in q[1..];
      assert forall u :: u in q <==> u == q[0] || u in q[1..];
      if q[0] == t then rest else [q[0]] + rest
  }

  /** In a list without repetitions the element goes and the rest stays in order. */
  lemma {:induction false} WithoutAt<T(!new)>(q: seq<T>, k: nat)
    requires k < |q| && Unique(q)
    ensures Without(q, q[k]) == q[..k] + q[k + 1..]
  {
    if k == 0 {
      WithoutAbsent(q[1..], q[0]);
    } else {
      assert Unique(q[1..]) && q[1..][k - 1] == q[k];
      WithoutAt(q[1..], k - 1);
      assert q[..k] + q[k + 1..] == [q[0]] + (q[1..][..k - 1] + q[1..][k..]);
    }
  }

  lemma {:induction false} WithoutAbsent<T(!new)>(q: seq<T>, t: T)
    requires t !in q
    ensures Without(q, t) == q
  {
    if q != [] {
      WithoutAbsent(q[1..], t);
    }
  }

  class Node {
    var prev: Node?
    var next: Node?

    constructor ()
    {
      prev, next := null, null;
    }
  }

  /** Neighbours point at each other. */
  ghost predicate Linked(c: seq<Node>)
    reads c
  {
    && (forall i {:trigger c[i].next} :: 0 <= i < |c| - 1 ==> c[i].next == c[i + 1])
    && (forall i {:trigger c[i].prev} :: 0 < i < |c| ==> c[i].prev == c[i - 1])
  }

  /** All neighbours point at each other but those at the places `k` and `l`. */
  ghost predicate LinkedBut(c: seq<Node>, k: nat, l: nat)
    reads c
  {
    && (forall i {:trigger c[i].next} :: 0 <= i < |c| - 1 && !(k <= i < l) ==> c[i].next == c[i + 1])
    && (forall i {:trigger c[i].prev} :: 0 < i < |c| && !(k < i <= l) ==> c[i].prev == c[i - 1])
  }

  lemma Inserted(c: seq<Node>, elem: Node, k: nat)
    requires k + 1 < |c| && elem !in c && Unique(c) && LinkedBut(c, k, k + 1)
    requires c[k].next == elem && elem.prev == c[k] && elem.next == c[k + 1] && c[k + 1].prev == elem
    ensures Unique(c[..k + 1] + [elem] + c[k + 1..]) && Linked(c[..k + 1] + [elem] + c[k + 1..])
  {
  }

  lemma Removed(c: seq<Node>, k: nat)
    requires k + 2 < |c| && Unique(c) && LinkedBut(c, k, k + 2)
    requires c[k].next == c[k + 2] && c[k + 2].prev == c[k]
    ensures Unique(c[..k + 1] + c[k + 2..]) && Linked(c[..k + 1] + c[k + 2..])
  {
  }

  /** Setting two fields of nodes of a chain leaves the rest linked. */
  method Relink(left: Node, right: Node, newNext: Node, newPrev: Node, ghost c: seq<Node>, ghost k: nat, ghost l: nat)
    requires k < l < |c| && c[k] == left && c[l] == right && Unique(c) && Linked(c)
    modifies left`next, right`prev
    ensures left.next == newNext && right.prev == newPrev && LinkedBut(c, k, l)
  {
    left.next := newNext;
    right.prev := newPrev;
  }

  class List {
    const head: Node
    const tail: Node
    ghost var elems: seq<Node>

    /** The nodes from head to tail. */
    ghost function Chain(): seq<Node>
      reads `elems
    {
      [head] + elems + [tail]
    }

    ghost predicate Valid()
      reads this, head, tail, elems
    {
      Unique(Chain()) && Linked(Chain()) && head.prev == null && tail.next == null
    }

    constructor ()
      ensures Valid() && elems == [] && fresh(head) && fresh(tail)
    {
      head := new Node();
      tail := new Node();
      elems := [];
      new;
      head.prev, head.next := null, tail;
      tail.prev, tail.next := head, null;
    }

    lemma Parts()
      ensures Valid() <==> Unique(Chain()) && Linked(Chain()) && head.prev == null && tail.next == null
      ensures Chain() == [head] + elems + [tail]
      ensures Valid() ==> head != tail && head !in elems && tail !in elems && head.next == Chain()[1]
    {
      if Valid() {
        assert Chain()[0] == head && Chain()[|elems| + 1] == tail;
        assert Chain()[0].next == Chain()[1];
        assert forall i :: 0 <= i < |elems| ==> Chain()[i + 1] == elems[i];
      }
    }

    /** The node behind place `k` of the chain and its neighbours. */
    lemma Neighbours(k: nat)
      requires Valid() && k <= |elems|
      ensures Chain()[k + 1].prev == Chain()[k] && Chain()[k].next == Chain()[k + 1] && Chain()[k] != Chain()[k + 1]
      ensures Chain()[k] in elems + [head] && Chain()[k] != tail && Chain()[k + 1] in elems + [tail] && Chain()[k + 1] != head
      ensures k < |elems| ==> Chain()[k + 1].next == Chain()[k + 2] && Chain()[k + 1] == elems[k]
      ensures k < |elems| ==> Chain()[k + 2] in elems + [tail] && Chain()[k + 2] != head && Chain()[k + 2] != Chain()[k]
    {
    }

    /** `list_insert_before` the node at place `k`, which may be the tail. */
    method InsertBefore(before: Node, elem: Node, ghost k: nat)
      requires Valid() && k <= |elems| && Chain()[k + 1] == before && elem !in Chain()
      modifies `elems, elem, elems, before, head
      ensures Valid() && elems == old(elems)[..k] + [elem] + old(elems)[k..]
    {
      hide *;
      ghost var c := Chain();
      Parts();
      Neighbours(k);
      var last := before.prev;
      elem.prev := last;
      elem.next := before;
      Relink(last, before, elem, elem, c, k, k + 1);
      Inserted(c, elem, k);
      ChainWith(k, elem);
      elems := elems[..k] + [elem] + elems[k..];
      Parts();
    }

    lemma ChainWith(k: nat, elem: Node)
      requires k <= |elems|
      ensures Chain()[..k + 1] + [elem] + Chain()[k + 1..] == [head] + (elems[..k] + [elem] + elems[k..]) + [tail]
    {
    }

    lemma ChainWithout(k: nat)
      requires k < |elems|
      ensures Chain()[..k + 1] + Chain()[k + 2..] == [head] + (elems[..k] + elems[k + 1..]) + [tail]
    {
    }

    method Push(elem: Node)
      requires Valid() && elem !in Chain()
      modifies `elems, elem, elems, head, tail
      ensures Valid() && elems == [elem] + old(elems)
    {
      Parts();
      InsertBefore(head.next, elem, 0);
    }

    method Append(elem: Node)
      requires Valid() && elem !in Chain()
      modifies `elems, elem, elems, head, tail
      ensures Valid() && elems == old(elems) + [elem]
    {
      InsertBefore(tail, elem, |elems|);
    }

    /** `list_remove` of the node at place `k`. */
    method Remove(elem: Node, ghost k: nat)
      requires Valid() && k < |elems| && elems[k] == elem
      modifies `elems, elems, head, tail
      ensures Valid() && elems == old(elems)[..k] + old(elems)[k + 1..]
    {
      hide *;
      ghost var c := Chain();
      Parts();
      Neighbours(k);
      Relink(elem.prev, elem.next, elem.next, elem.prev, c, k, k + 2);
      Removed(c, k);
      ChainWithout(k);
      elems := elems[..k] + elems[k + 1..];
      Parts();
    }

    /** `list_pop` */
    method Pop() returns (elem: Node?)
      requires Valid()
      modifies `elems, elems, head, tail
      ensures Valid() && (elem == null <==> old(elems) == [])
      ensures elem != null ==> old(elems) == [elem] + elems
      ensures elem == null ==> elems == []
    {
      var empty := IsEmpty();
      if empty {
        return null;
      }
      Parts();
      elem := head.next;
      Remove(elem, 0);
    }

    /** `elem_find` */
    method Find(elem: Node) returns (found: bool)
      requires Valid()
      ensures found <==> elem in elems
    {
      ghost var k := 0;
      Parts();
      var mov := head.next;
      while mov != tail
        invariant 0 <= k <= |elems| && mov == Chain()[k + 1] && elem !in elems[..k]
        decreases |elems| - k
      {
        assert k < |elems| && mov == elems[k];
        if mov == elem {
          return true;
        }
        mov := mov.next;
        k := k + 1;
      }
      assert k == |elems|;
      return false;
    }

    method Len() returns (length: nat)
      requires Valid()
      ensures length == |elems|
    {
      Parts();
      var elem := head.next;
      length := 0;
      while elem != tail
        invariant 0 <= length <= |elems| && elem == Chain()[length + 1]
        decreases |elems| - length
      {
        elem := elem.next;
        length := length + 1;
      }
      assert length == |elems|;
    }

    method IsEmpty() returns (empty: bool)
      requires Valid()
      ensures empty <==> elems == []
    {
      Parts();
      empty := head.next == tail;
    }
  }
}
