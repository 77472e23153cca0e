/**
  The singly linked lists of subscriber_linked_list.c (items are notification
  descriptors) and keys_linked_list.c (items are keys).  The two files hold the
  same code for two item types, so one generic list stands for both.

  Evident intent where the code slips: append accepts an empty list, delete
  compares (it does not assign) and a removed first node changes the caller's
  head.  Append and delete therefore return the head.
 */
module LinkedList {

  /** `s` without its element at `i`. */
  function DropAt<T>(s: seq<T>, i: nat): (r: seq<T>)
    requires i < |s|
    ensures |r| == |s| - 1
    ensures forall j {:trigger r[j]} :: 0 <= j < |r| ==> r[j] == s[if j < i then j else j + 1]
  {
    s[..i] + s[i + 1..]
  }

  /** `s` without the first occurrence of `x`. */
  function RemoveFirst<T(==)>(s: seq<T>, x: T): (r: seq<T>)
    ensures x !in s ==> r == s
    ensures forall y :: y in r ==> y in s
  {
    if s == [] then []
    else if s[0] == x then s[1..]
    else [s[0]] + RemoveFirst(s[1..], x)
  }

  lemma Assoc<T>(a: seq<T>, b: seq<T>, c: seq<T>)
    ensures (a + b) + c == a + (b + c)
  {}

  function Count<T(==)>(s: seq<T>, x: T): nat {
    multiset(s)[x]
  }

  lemma CountSnoc<T>(s: seq<T>, y: T, x: T)
    ensures Count(s + [y], x) == Count(s, x) + if x == y then 1 else 0
  {}

  lemma CountCons<T>(s: seq<T>, x: T)
    requires s != []
    ensures Count(s, x) == Count(s[1..], x) + if x == s[0] then 1 else 0
  {
    assert s == [s[0]] + s[1..];
  }

  lemma CountIn<T>(s: seq<T>, x: T)
    ensures Count(s, x) > 0 <==> x in s
  {}

  /** Exactly one occurrence of `x` goes, if there is one, and nothing else does. */
  lemma {:induction false} RemoveFirstCounts<T>(s: seq<T>, x: T, y: T)
    ensures Count(RemoveFirst(s, x), y) == if y == x && x in s then Count(s, y) - 1 else Count(s, y)
  {
    if s != [] {
      CountCons(s, y);
      if s[0] != x {
        var rest := RemoveFirst(s[1..], x);
        RemoveFirstCounts(s[1..], x, y);
        CountCons([s[0]] + rest, y);
        assert ([s[0]] + rest)[1..] == rest;
      }
    }
  }

  lemma {:induction false} RemoveFirstAt<T>(s: seq<T>, x: T, i: nat)
    requires i < |s| && s[i] == x && x !in s[..i]
    ensures RemoveFirst(s, x) == DropAt(s, i)
  {
    if i > 0 {
      assert s[0] in s[..i];
      assert s[1..][..i - 1] == s[1..i];
      forall y | y in s[1..i] ensures y in s[..i] {
        var j :| 0 <= j < i - 1 && s[1..i][j] == y;
        assert s[..i][j + 1] == y;
      }
      RemoveFirstAt(s[1..], x, i - 1);
      assert s[..i] == [s[0]] + s[1..i];
      assert s[1..][i..] == s[i + 1..];
    }
  }

  class ListNode<T> {
    var item: T
    var next: ListNode?<T>

    constructor (item: T)
      ensures this.item == item && this.next == null
    {
      this.item, this.next := item, null;
    }
  }

  /** `nodes` is the null-terminated chain that starts at `head`; it has no cycle. */
  ghost predicate IsList<T>(head: ListNode?<T>, nodes: seq<ListNode<T>>)
    reads nodes
  {
    && head == (if nodes == [] then null else nodes[0])
    && (forall i {:trigger nodes[i].next} :: 0 <= i < |nodes| - 1 ==> nodes[i].next == nodes[i + 1])
    && (nodes != [] ==> nodes[|nodes| - 1].next == null)
    && (forall i, j :: 0 <= i < j < |nodes| ==> nodes[i] != nodes[j])
  }

  ghost function Items<T>(nodes: seq<ListNode<T>>): (s: seq<T>)
    reads nodes
    ensures |s| == |nodes|
    ensures forall i :: 0 <= i < |s| ==> s[i] == nodes[i].item
  {
    seq(|nodes|, i requires 0 <= i < |nodes| reads nodes => nodes[i].item)
  }

  method SearchListNode<T(==)>(head: ListNode?<T>, ghost nodes: seq<ListNode<T>>, item: T) returns (found: int)
    requires IsList(head, nodes)
    ensures found == if item in Items(nodes) then 1 else -1
  {
    var current := head;
    ghost var i := 0;
    while current != null
      invariant i <= |nodes|
      invariant current == if i < |nodes| then nodes[i] else null
      invariant item !in Items(nodes)[..i]
      decreases |nodes| - i
    {
      if current.item == item {
        assert Items(nodes)[i] == item;
        return 1;
      }
      current := current.next;
      i := i + 1;
    }
    assert Items(nodes)[..i] == Items(nodes);
    return -1;
  }

  /** Once the last node points to a new one, the chain with it is a list. */
  lemma Extended<T>(nodes: seq<ListNode<T>>, node: ListNode<T>)
    requires nodes != [] && node !in nodes && node.next == null
    requires forall j, k :: 0 <= j < k < |nodes| ==> nodes[j] != nodes[k]
    requires forall j {:trigger nodes[j].next} :: 0 <= j < |nodes| - 1 ==> nodes[j].next == nodes[j + 1]
    requires nodes[|nodes| - 1].next == node
    ensures IsList(nodes[0], nodes + [node])
  {
    var all := nodes + [node];
    forall j {:trigger all[j].next} | 0 <= j < |all| - 1 ensures all[j].next == all[j + 1] {
      assert all[j] == nodes[j];
    }
  }

  method AppendListNode<T>(head: ListNode?<T>, ghost nodes: seq<ListNode<T>>, item: T)
    returns (newHead: ListNode?<T>, ghost newNodes: seq<ListNode<T>>)
    requires IsList(head, nodes)
    modifies nodes
    ensures |newNodes| == |nodes| + 1 && newNodes[..|nodes|] == nodes
    ensures fresh(newNodes[|nodes|])
    ensures IsList(newHead, newNodes)
    ensures Items(newNodes) == old(Items(nodes)) + [item]
  {
    var node := new ListNode(item);
    newNodes := nodes + [node];
    newHead := head;
    if head == null {
      newHead := node;
    } else {
      var current := head;
      ghost var i := 0;
      while current.next != null
        invariant IsList(head, nodes) && i < |nodes| && current == nodes[i]
        decreases |nodes| - i
      {
        current := current.next;
        i := i + 1;
      }
      current.next := node;
      Extended(nodes, node);
    }
  }

  /** Once the node at `i` is bypassed, the chain of the others is a list. */
  lemma Relinked<T>(nodes: seq<ListNode<T>>, i: nat, newHead: ListNode?<T>)
    requires i < |nodes|
    requires forall j, k :: 0 <= j < k < |nodes| ==> nodes[j] != nodes[k]
    requires forall k {:trigger nodes[k].next} :: 0 <= k < |nodes| - 1 && k != i - 1 && k != i ==> nodes[k].next == nodes[k + 1]
    requires i < |nodes| - 1 ==> nodes[|nodes| - 1].next == null
    requires i > 0 ==> newHead == nodes[0] && nodes[i - 1].next == if i + 1 < |nodes| then nodes[i + 1] else null
    requires i == 0 ==> newHead == if |nodes| > 1 then nodes[1] else null
    ensures IsList(newHead, DropAt(nodes, i))
  {
    var rest := DropAt(nodes, i);
    forall j {:trigger rest[j].next} | 0 <= j < |rest| - 1 ensures rest[j].next == rest[j + 1] {
      assert rest[j] == nodes[if j < i then j else j + 1];
    }
  }

  /** What follows the first node is a list. */
  lemma Rest<T>(nodes: seq<ListNode<T>>)
    requires nodes != [] && IsList(nodes[0], nodes)
    ensures IsList(nodes[0].next, nodes[1..]) && Items(nodes[1..]) == Items(nodes)[1..]
  {
    var rest := nodes[1..];
    forall j {:trigger rest[j].next} | 0 <= j < |rest| - 1 ensures rest[j].next == rest[j + 1] {
      assert rest[j] == nodes[j + 1];
    }
  }

  /** Stops at the first node with the item, keeping the node before it. */
  method FindItem<T(==)>(head: ListNode?<T>, ghost nodes: seq<ListNode<T>>, item: T)
    returns (previous: ListNode?<T>, current: ListNode?<T>, ghost i: nat)
    requires IsList(head, nodes)
    ensures i <= |nodes| && current == (if i < |nodes| then nodes[i] else null)
    ensures previous == if i == 0 then null else nodes[i - 1]
    ensures RemoveFirst(Items(nodes), item) == if i < |nodes| then DropAt(Items(nodes), i) else Items(nodes)
  {
    current, previous, i := head, null, 0;
    while current != null && current.item != item
      invariant i <= |nodes| && current == if i < |nodes| then nodes[i] else null
      invariant previous == if i == 0 then null else nodes[i - 1]
      invariant item !in Items(nodes)[..i]
      decreases |nodes| - i
    {
      previous := current;
      current := current.next;
      i := i + 1;
    }
    ghost var items := Items(nodes);
    if current == null {
      assert items[..i] == items;
    } else {
      RemoveFirstAt(items, item, i);
    }
  }

  /** A removed first node changes the head, an inner one its predecessor. */
  method UnlinkAt<T>(head: ListNode?<T>, ghost nodes: seq<ListNode<T>>, previous: ListNode?<T>, current: ListNode<T>, ghost i: nat)
    returns (newHead: ListNode?<T>)
    requires IsList(head, nodes) && i < |nodes| && current == nodes[i]
    requires previous == if i == 0 then null else nodes[i - 1]
    modifies previous
    ensures IsList(newHead, DropAt(nodes, i))
    ensures Items(nodes) == old(Items(nodes))
  {
    newHead := head;
    if previous == null {
      newHead := current.next;
    } else {
      previous.next := current.next;
    }
    Relinked(nodes, i, newHead);
  }

  lemma ItemsOfRest<T>(nodes: seq<ListNode<T>>, i: nat)
    requires i < |nodes|
    ensures Items(DropAt(nodes, i)) == DropAt(Items(nodes), i)
  {}

  method DeleteListNode<T(==)>(head: ListNode?<T>, ghost nodes: seq<ListNode<T>>, item: T)
    returns (newHead: ListNode?<T>, ghost newNodes: seq<ListNode<T>>)
    requires IsList(head, nodes)
    modifies nodes
    ensures forall n :: n in newNodes ==> n in nodes
    ensures IsList(newHead, newNodes)
    ensures Items(newNodes) == RemoveFirst(old(Items(nodes)), item)
  {
    var previous, current;
    ghost var i;
    previous, current, i := FindItem(head, nodes, item);
    if current == null {
      return head, nodes;
    }
    newHead := UnlinkAt(head, nodes, previous, current, i);
    newNodes := DropAt(nodes, i);
    ItemsOfRest(nodes, i);
  }
}
