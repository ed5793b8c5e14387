/** `reverse_helper` and `remove_element` of modules/m2/double_link/linked_list/linked_list.c. */
module LinkedLists {

  class Node {
    /** The bytes `data` points to. */
    var data: seq<int>
    var next: Node?
    var prev: Node?
  }

  function Reversed<T>(s: seq<T>): (r: seq<T>) {
    seq(|s|, k requires 0 <= k < |s| => s[|s| - 1 - k])
  }

  lemma ReversedTwice<T>(s: seq<T>)
    ensures Reversed(Reversed(s)) == s
  {
  }

  /** The neighbour at place `k` of the node sequence, or NULL beyond either end. */
  function At(nodes: seq<Node>, k: int): Node? {
    if 0 <= k < |nodes| then nodes[k] else null
  }

  ghost predicate Distinct(nodes: seq<Node>) {
    forall i, j :: 0 <= i < j < |nodes| ==> nodes[i] != nodes[j]
  }

  /** The node at place `k` points to its neighbours. */
  ghost predicate LinkedAt(nodes: seq<Node>, k: int)
    requires 0 <= k < |nodes|
    reads nodes
  {
    nodes[k].next == At(nodes, k + 1) && nodes[k].prev == At(nodes, k - 1)
  }

  /** The node at place `k` points to them the other way round. */
  ghost predicate FlippedAt(nodes: seq<Node>, k: int)
    requires 0 <= k < |nodes|
    reads nodes
  {
    nodes[k].next == At(nodes, k - 1) && nodes[k].prev == At(nodes, k + 1)
  }

  /** `nodes` is a proper doubly linked list. */
  ghost predicate Linked(nodes: seq<Node>)
    reads nodes
  {
    forall k :: 0 <= k < |nodes| ==> LinkedAt(nodes, k)
  }

  /** The first `k` nodes are flipped, the others still linked. */
  ghost predicate Flipped(nodes: seq<Node>, k: nat)
    reads nodes
  {
    && (forall j :: 0 <= j < k && j < |nodes| ==> FlippedAt(nodes, j))
    && (forall j :: k <= j < |nodes| ==> LinkedAt(nodes, j))
  }

  /** `memcmp(data, key, size) == 0`. */
  predicate Matches(data: seq<int>, key: seq<int>, size: nat) {
    size <= |data| && size <= |key| && data[..size] == key[..size]
  }

  /** ... byte by byte. */
  lemma MatchesBytes(data: seq<int>, key: seq<int>, size: nat)
    requires size <= |data| && size <= |key|
    ensures Matches(data, key, size) <==> forall i :: 0 <= i < size ==> data[i] == key[i]
  {
    if forall i :: 0 <= i < size ==> data[i] == key[i] {
      assert data[..size] == key[..size];
    } else {
      var i :| 0 <= i < size && data[i] != key[i];
      assert data[..size][i] != key[..size][i];
    }
  }

  class List {
    var head: Node?
    ghost var nodes: seq<Node>

    ghost predicate Valid()
      reads this, nodes
    {
      head == At(nodes, 0) && Distinct(nodes) && Linked(nodes)
    }

    /** `reverse_helper`, in place; on an empty list it would dereference NULL. */
    method ReverseHelper()
      requires Valid() && nodes != []
      modifies this, nodes`next, nodes`prev
      ensures Valid() && nodes == Reversed(old(nodes))
    {
      assert LinkedAt(nodes, 0);
      ReversedDistinct(nodes);
      if head.next != null {
        head := Flip(head, nodes);
        FlippedIsReversed(nodes);
      } else {
        assert |nodes| == 1 && Reversed(nodes) == nodes;
      }
      nodes := Reversed(nodes);
    }

    /** Reversing twice leaves the list as it was. */
    method ReverseTwice()
      requires Valid() && nodes != []
      modifies this, nodes`next, nodes`prev
      ensures Valid() && nodes == old(nodes)
    {
      ReversedTwice(nodes);
      ReverseHelper();
      assert forall x :: x in nodes ==> x in old(nodes);
      ReverseHelper();
    }

    /** `remove_element`: unlinks the first node whose data matches, and nothing else. */
    method RemoveElement(key: seq<int>, size: nat) returns (r: int)
      requires Valid() && size <= |key| && forall k :: 0 <= k < |nodes| ==> size <= |nodes[k].data|
      modifies this, nodes`next, nodes`prev
      ensures Valid()
      ensures r == 0 || r == 1
      ensures r == 0 ==> nodes == old(nodes) && forall k :: 0 <= k < |nodes| ==> !Matches(nodes[k].data, key, size)
      ensures r == 1 ==> exists k :: FirstMatch(old(nodes), key, size, k) && nodes == old(nodes)[..k] + old(nodes)[k + 1..]
    {
      var curr := head;
      ghost var k := 0;
      while curr != null
        invariant 0 <= k <= |nodes| && curr == At(nodes, k)
        invariant Valid() && nodes == old(nodes)
        invariant forall j :: 0 <= j < k ==> !Matches(nodes[j].data, key, size)
        decreases |nodes| - k
      {
        assert LinkedAt(nodes, k);
        if curr.data[..size] == key[..size] {
          Unlink(curr, k);
          assert FirstMatch(old(nodes), key, size, k);
          return 1;
        }
        curr := curr.next;
        k := k + 1;
      }
      r := 0;
    }

    /** The pointer surgery of `remove_element` on the node at place `k`. */
    method Unlink(curr: Node, ghost k: nat)
      requires Valid() && k < |nodes| && curr == nodes[k]
      modifies this, nodes`next, nodes`prev
      ensures Valid() && nodes == old(nodes)[..k] + old(nodes)[k + 1..]
    {
      assert LinkedAt(nodes, k);
      if curr.next != null {
        curr.next.prev := curr.prev;
      }
      if curr == head {
        head := curr.next;
      } else {
        curr.prev.next := curr.next;
      }
      ghost var rest := nodes[..k] + nodes[k + 1..];
      forall j | 0 <= j < |rest|
        ensures LinkedAt(rest, j)
      {
        var i := if j < k then j else j + 1;
        RestAt(nodes, k, j);
        RestAt(nodes, k, j + 1);
        RestAt(nodes, k, j - 1);
        assert rest[j] == nodes[i] && old(LinkedAt(nodes, i));
      }
      RestAt(nodes, k, 0);
      RestDistinct(nodes, k);
      nodes := rest;
    }
  }

  /** Places after the removed node move down by one. */
  lemma RestAt(nodes: seq<Node>, k: nat, j: int)
    requires k < |nodes|
    ensures At(nodes[..k] + nodes[k + 1..], j) == At(nodes, if j < k then j else j + 1)
  {
  }

  lemma RestDistinct(nodes: seq<Node>, k: nat)
    requires k < |nodes| && Distinct(nodes)
    ensures Distinct(nodes[..k] + nodes[k + 1..])
  {
  }

  lemma ReversedDistinct(nodes: seq<Node>)
    requires Distinct(nodes)
    ensures Distinct(Reversed(nodes))
  {
  }

  /** Neighbours in the reversed sequence are the neighbours on the other side. */
  lemma ReversedAt(nodes: seq<Node>, k: int)
    ensures At(Reversed(nodes), k) == At(nodes, |nodes| - 1 - k)
  {
  }

  lemma FlippedIsReversed(nodes: seq<Node>)
    requires Flipped(nodes, |nodes|)
    ensures Linked(Reversed(nodes))
  {
    var r, n := Reversed(nodes), |nodes|;
    forall k | 0 <= k < n
      ensures LinkedAt(r, k)
    {
      ReversedAt(nodes, k);
      ReversedAt(nodes, k + 1);
      ReversedAt(nodes, k - 1);
      assert FlippedAt(nodes, n - 1 - k);
    }
  }

  /** The loop of `reverse_helper`: swap the pointers of every node; the last one is the new head. */
  method Flip(head: Node, ghost nodes: seq<Node>) returns (newHead: Node)
    requires nodes != [] && head == nodes[0] && Distinct(nodes) && Linked(nodes)
    modifies nodes`next, nodes`prev
    ensures Flipped(nodes, |nodes|) && newHead == nodes[|nodes| - 1]
  {
    var curr: Node? := head;
    var placeholder: Node? := null;
    newHead := head;
    ghost var k: nat := 0;
    while curr != null
      invariant k <= |nodes| && curr == At(nodes, k) && placeholder == At(nodes, k - 1)
      invariant k == |nodes| ==> newHead == nodes[k - 1]
      invariant Flipped(nodes, k)
      decreases |nodes| - k
    {
      assert LinkedAt(nodes, k);
      if curr.next == null {
        newHead := curr;
      }
      FlipNode(curr, placeholder, nodes, k);
      placeholder := curr;
      curr := curr.prev;
      k := k + 1;
    }
  }

  /** The two stores of the loop body. */
  method FlipNode(curr: Node, placeholder: Node?, ghost nodes: seq<Node>, ghost k: nat)
    requires k < |nodes| && curr == nodes[k] && placeholder == At(nodes, k - 1) && Distinct(nodes) && Flipped(nodes, k)
    modifies curr`next, curr`prev
    ensures Flipped(nodes, k + 1) && curr.prev == At(nodes, k + 1)
  {
    assert LinkedAt(nodes, k);
    curr.prev := curr.next;
    curr.next := placeholder;
    forall j | 0 <= j < |nodes| && j != k
      ensures if j < k then FlippedAt(nodes, j) else LinkedAt(nodes, j)
    {
      assert if j < k then old(FlippedAt(nodes, j)) else old(LinkedAt(nodes, j));
    }
    assert FlippedAt(nodes, k);
  }

  /** Place `k` holds the first node whose data matches. */
  ghost predicate FirstMatch(nodes: seq<Node>, key: seq<int>, size: nat, k: int)
    reads nodes
  {
    0 <= k < |nodes| && Matches(nodes[k].data, key, size) && forall j :: 0 <= j < k ==> !Matches(nodes[j].data, key, size)
  }
}
