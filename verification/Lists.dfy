/** Circular doubly linked lists whose links are embedded in the elements (list.c). */
module Lists {
  import opened Sequences

  /** A list head, or the links of an element together with the element's key. */
  class Node<K(0)> {
    var prev: Node?<K>
    var next: Node?<K>
    var key: K

    constructor ()
      ensures prev == null && next == null
    {
      prev, next := null, null;
    }
  }

  function After<T>(c: seq<T>, i: nat): T
    requires i < |c|
  {
    if i == |c| - 1 then c[0] else c[i+1]
  }

  function Before<T>(c: seq<T>, i: nat): T
    requires i < |c|
  {
    if i == 0 then c[|c|-1] else c[i-1]
  }

  ghost predicate LinkedAt<K(0)>(c: seq<Node<K>>, i: nat)
    requires i < |c|
    reads c[i]
  {
    c[i].next == After(c, i) && c[i].prev == Before(c, i)
  }

  /** The nodes of c are linked to a circle in this order, in both directions. */
  ghost predicate Circle<K(0)>(c: seq<Node<K>>)
    reads c
  {
    |c| > 0 && Distinct(c) && forall i: nat :: i < |c| ==> LinkedAt(c, i)
  }

  lemma {:induction false} OnlyIndex<T>(c: seq<T>, i: nat)
    requires Distinct(c) && i < |c|
    ensures forall k :: 0 <= k < |c| ==> (c[k] == c[i] <==> k == i)
  {
  }

  /** LIST_INIT: a head alone. */
  method Init<K(0)>(lst: Node<K>)
    modifies lst`prev, lst`next
    ensures Circle([lst])
  {
    lst.prev, lst.next := lst, lst;
  }

  method Empty<K(0)>(lst: Node<K>, ghost s: seq<Node<K>>) returns (b: bool)
    requires Circle([lst] + s)
    ensures b <==> s == []
  {
    b := lst == lst.next;
    assert LinkedAt([lst] + s, 0);
  }

  /** Adds an element at the end. */
  method Add<K(0)>(lst: Node<K>, e: Node<K>, ghost s: seq<Node<K>>)
    requires Circle([lst] + s) && e !in [lst] + s && lst.prev != null
    modifies lst`prev, e`next, e`prev, lst.prev`next
    ensures Circle([lst] + (s + [e]))
  {
    ghost var c, d := [lst] + s, [lst] + (s + [e]);
    assert d == c + [e];
    assert LinkedAt(c, 0);
    OnlyIndex(c, 0);
    OnlyIndex(c, |c| - 1);
    OnlyIndex(d, |c|);
    e.next := lst;
    e.prev := lst.prev;
    lst.prev.next := e;
    lst.prev := e;
    forall k: nat | k < |d|
      ensures LinkedAt(d, k)
    {
      var m := if k < |c| then k else |c| - 1;
      assert old(LinkedAt(c, m));
      assert k < |c| ==> d[k] == c[k];
    }
  }

  /** Adds an element behind b, the i-th node of the circle. */
  method AddAfter<K(0)>(b: Node<K>, e: Node<K>, ghost c: seq<Node<K>>, ghost i: nat)
    requires Circle(c) && i < |c| && c[i] == b && e !in c && b.next != null
    modifies b`next, e`next, e`prev, b.next`prev
    ensures Circle(c[..i+1] + [e] + c[i+1..])
  {
    ghost var d, j := c[..i+1] + [e] + c[i+1..], if i == |c| - 1 then 0 else i + 1;
    assert LinkedAt(c, i) && b.next == c[j];
    OnlyIndex(c, i);
    OnlyIndex(c, j);
    InsertedIs(c, e, i);
    e.next := b.next;
    e.prev := b;
    b.next.prev := e;
    b.next := e;
    forall k: nat | k < |d|
      ensures LinkedAt(d, k)
    {
      var m := if k <= i then k else k - 1;
      assert old(LinkedAt(c, m));
      assert k != i + 1 ==> d[k] == c[m];
    }
  }

  lemma {:induction false} InsertedIs<T>(c: seq<T>, e: T, i: nat)
    requires Distinct(c) && e !in c && i < |c|
    ensures var d := c[..i+1] + [e] + c[i+1..];
      && |d| == |c| + 1 && Distinct(d) && d[i+1] == e
      && (forall k :: 0 <= k <= i ==> d[k] == c[k]) && (forall k :: i + 1 < k < |d| ==> d[k] == c[k-1])
  {
  }

  lemma {:induction false} RemovedIs<T>(c: seq<T>, i: nat)
    requires Distinct(c) && i < |c|
    ensures var d := c[..i] + c[i+1..];
      && |d| == |c| - 1 && Distinct(d)
      && (forall k :: 0 <= k < i ==> d[k] == c[k]) && (forall k :: i <= k < |d| ==> d[k] == c[k+1])
  {
  }

  /** Takes the i-th node, which is not the only one, out of the circle. */
  method Deattach<K(0)>(e: Node<K>, ghost c: seq<Node<K>>, ghost i: nat)
    requires Circle(c) && i < |c| && c[i] == e && |c| > 1 && e.prev != null && e.next != null
    modifies e.prev`next, e.next`prev
    ensures Circle(c[..i] + c[i+1..])
  {
    ghost var d := c[..i] + c[i+1..];
    ghost var p, n := if i == 0 then |c| - 1 else i - 1, if i == |c| - 1 then 0 else i + 1;
    assert LinkedAt(c, i) && e.prev == c[p] && e.next == c[n];
    OnlyIndex(c, p);
    OnlyIndex(c, n);
    RemovedIs(c, i);
    e.prev.next := e.next;
    e.next.prev := e.prev;
    forall k: nat | k < |d|
      ensures LinkedAt(d, k)
    {
      var m := if k < i then k else k + 1;
      assert d[k] == c[m] && old(LinkedAt(c, m));
    }
  }
}
