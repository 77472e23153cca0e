/**
  kvs.c on the heap: 26 bucket heads, chains of key nodes relinked in place, and
  in every key node the list of subscriber descriptors.  Each operation is proved
  to do to the heap exactly what Table.dfy says on values.

  Evident intent where the code slips: a new key node starts with an empty
  subscriber list, and SIGUSR1 empties every list.  Keys must have a bucket,
  because the code indexes the table with hash(key) unchecked.
 */
module HashTables {
  import opened CStrings
  import opened LinkedList
  import opened Table

  class KeyNode {
    const key: string
    var value: string
    var next: KeyNode?
    var head: ListNode?<int>
    ghost var subs: seq<ListNode<int>>
    ghost var Repr: set<object>   // this node and the nodes of its subscriber list

    /** The node carries the record; only this node reaches its subscriber list. */
    ghost predicate Holds(r: Record)
      reads this, Repr
    {
      && this in Repr && (forall s :: s in subs ==> s in Repr)
      && key == r.key && value == r.value
      && IsList(head, subs) && Items(subs) == r.subs
    }

    constructor (key: string, value: string, next: KeyNode?)
      ensures Holds(Record(key, value, [])) && fresh(Repr)
      ensures this.next == next
    {
      this.key, this.value, this.next := key, value, next;
      head, subs, Repr := null, [], {this};
    }

    method SetValue(value: string, ghost r: Record)
      requires Holds(r)
      modifies `value
      ensures Holds(r.(value := value))
    {
      this.value := value;
    }

    method AppendSub(fd: int, ghost r: Record)
      requires Holds(r)
      modifies Repr
      ensures Holds(r.(subs := r.subs + [fd])) && next == old(next) && fresh(Repr - old(Repr))
    {
      ghost var n := |subs|;
      head, subs := AppendListNode(head, subs, fd);
      Repr := Repr + {subs[n]};
    }

    method RemoveSub(fd: int, ghost r: Record)
      requires Holds(r)
      modifies Repr
      ensures Holds(r.(subs := RemoveFirst(r.subs, fd))) && next == old(next) && Repr == old(Repr)
    {
      head, subs := DeleteListNode(head, subs, fd);
    }

    method ClearSubs(ghost r: Record)
      requires Holds(r)
      modifies `head, `subs
      ensures Holds(r.(subs := []))
    {
      head, subs := null, [];
    }
  }

  /** `nodes` is the null-terminated chain that starts at `head`. */
  ghost predicate Linked(head: KeyNode?, nodes: seq<KeyNode>)
    reads nodes
  {
    && head == (if nodes == [] then null else nodes[0])
    && (forall i {:trigger nodes[i].next} :: 0 <= i < |nodes| - 1 ==> nodes[i].next == nodes[i + 1])
    && (nodes != [] ==> nodes[|nodes| - 1].next == null)
  }

  /** One write_all per entry of a subscriber list, in list order. */
  method NotifyAll(head: ListNode?<int>, ghost nodes: seq<ListNode<int>>, text: string) returns (sent: seq<Message>)
    requires IsList(head, nodes)
    ensures sent == Notify(Items(nodes), text)
  {
    sent := [];
    var current := head;
    ghost var i := 0;
    while current != null
      invariant i <= |nodes| && current == if i < |nodes| then nodes[i] else null
      invariant sent == Notify(Items(nodes)[..i], text)
      decreases |nodes| - i
    {
      NotifySnoc(Items(nodes)[..i], current.item, text);
      assert Items(nodes)[..i + 1] == Items(nodes)[..i] + [current.item];
      sent := sent + [Message(current.item, text)];
      current := current.next;
      i := i + 1;
    }
    assert Items(nodes)[..i] == Items(nodes);
  }

  /**
    One bucket: the chain from `head` has these nodes, they carry these records,
    share no object, and all their objects are in `fp`.
   */
  ghost predicate IsChain(head: KeyNode?, nodes: seq<KeyNode>, records: Chain, fp: set<object>)
    reads fp
  {
    && |nodes| == |records|
    && (forall j :: 0 <= j < |nodes| ==> nodes[j] in fp)
    && (forall j :: 0 <= j < |nodes| ==> nodes[j].Repr <= fp)
    && (forall j, k :: 0 <= j < k < |nodes| ==> nodes[j].Repr !! nodes[k].Repr)
    && (forall j {:trigger nodes[j].Holds(records[j])} :: 0 <= j < |nodes| ==> nodes[j].Holds(records[j]))
    && Linked(head, nodes)
  }

  /** The search every operation starts with. */
  method FindNode(head: KeyNode?, ghost nodes: seq<KeyNode>, ghost records: Chain, ghost fp: set<object>, key: string)
    returns (previous: KeyNode?, node: KeyNode?)
    requires IsChain(head, nodes, records, fp)
    ensures var p := Position(records, key);
            && node == (if p < |nodes| then nodes[p] else null)
            && (p < |nodes| ==> previous == (if p == 0 then null else nodes[p - 1]) && node.Holds(records[p]))
  {
    previous, node := null, head;
    ghost var i := 0;
    while node != null && node.key != key
      invariant i <= |nodes|
      invariant node == if i < |nodes| then nodes[i] else null
      invariant previous == if i == 0 then null else nodes[i - 1]
      invariant forall j :: 0 <= j < i ==> records[j].key != key
      decreases |nodes| - i
    {
      assert nodes[i].Holds(records[i]);
      previous := node;
      node := previous.next;
      i := i + 1;
    }
    if node != null {
      assert nodes[i].Holds(records[i]);
      FirstPosition(records, i);
    }
  }

  /** A node that changed within its own objects still sits in its chain. */
  lemma Rehold(head: KeyNode?, nodes: seq<KeyNode>, records: Chain, fp: set<object>, p: nat, r: Record)
    requires p < |nodes| == |records| && Linked(head, nodes)
    requires forall j :: 0 <= j < |nodes| ==> nodes[j] in fp
    requires forall j :: 0 <= j < |nodes| ==> nodes[j].Repr <= fp
    requires forall j, k :: 0 <= j < k < |nodes| ==> nodes[j].Repr !! nodes[k].Repr
    requires forall j {:trigger nodes[j].Holds(records[j])} :: 0 <= j < |nodes| && j != p ==> nodes[j].Holds(records[j])
    requires nodes[p].Holds(r)
    ensures IsChain(head, nodes, records[p := r], fp)
  {
    forall j | 0 <= j < |nodes| ensures nodes[j].Holds(records[p := r][j]) {
      assert j != p ==> nodes[j].Holds(records[j]);
    }
  }

  /** A found node takes a new value and keeps its place, key and subscribers. */
  method Overwrite(node: KeyNode, value: string,
                   ghost head: KeyNode?, ghost nodes: seq<KeyNode>, ghost records: Chain, ghost fp: set<object>, ghost p: nat)
    requires IsChain(head, nodes, records, fp) && p < |nodes| && nodes[p] == node
    modifies node`value
    ensures node.value == value
    ensures IsChain(head, nodes, records[p := records[p].(value := value)], fp)
  {
    assert node.Holds(records[p]);
    node.SetValue(value, records[p]);
    forall j | 0 <= j < |nodes| && j != p ensures nodes[j].Holds(records[j]) == old(nodes[j].Holds(records[j])) {
      assert old(nodes[j].Holds(records[j]));
    }
    Rehold(head, nodes, records, fp, p, records[p].(value := value));
  }

  /** A new node goes to the front, with no subscriber. */
  method InsertFront(head: KeyNode?, key: string, value: string,
                     ghost nodes: seq<KeyNode>, ghost records: Chain, ghost fp: set<object>) returns (node: KeyNode)
    requires IsChain(head, nodes, records, fp)
    ensures fresh(node.Repr) && IsChain(node, [node] + nodes, [Record(key, value, [])] + records, fp + node.Repr)
  {
    node := new KeyNode(key, value, head);
    ghost var newNodes, newRecords := [node] + nodes, [Record(key, value, [])] + records;
    forall j | 0 <= j < |newNodes| ensures newNodes[j].Holds(newRecords[j]) {
      assert j > 0 ==> old(nodes[j - 1].Holds(records[j - 1]));
    }
    forall j {:trigger newNodes[j].next} | 0 <= j < |newNodes| - 1 ensures newNodes[j].next == newNodes[j + 1] {
      assert j > 0 ==> newNodes[j] == nodes[j - 1];
    }
  }

  /** write_pair on the key's bucket. */
  method WriteInChain(head: KeyNode?, key: string, value: string,
                      ghost nodes: seq<KeyNode>, ghost records: Chain, ghost fp: set<object>)
    returns (newHead: KeyNode?, sent: seq<Message>, ghost newNodes: seq<KeyNode>, ghost newRecords: Chain, ghost newFp: set<object>)
    requires IsChain(head, nodes, records, fp)
    modifies fp
    ensures fresh(newFp - fp) && IsChain(newHead, newNodes, newRecords, newFp)
    ensures var p := Position(records, key);
            && newRecords == PutIn(records, key, value)
            && sent == (if p < |records| then Notify(records[p].subs, WriteText(key, value)) else [])
  {
    ghost var p := Position(records, key);
    var previous, node := FindNode(head, nodes, records, fp, key);
    if node != null {
      Overwrite(node, value, head, nodes, records, fp, p);
      newRecords := records[p := records[p].(value := value)];
      assert node.Holds(newRecords[p]);
      sent := NotifyAll(node.head, node.subs, WriteText(node.key, node.value));
      newHead, newNodes, newFp := head, nodes, fp;
    } else {
      newHead := InsertFront(head, key, value, nodes, records, fp);
      newNodes, newRecords, newFp := [newHead] + nodes, [Record(key, value, [])] + records, fp + newHead.Repr;
      sent := [];
    }
  }

  /** Once the node at `p` is bypassed, the others are linked. */
  lemma Bypassed(nodes: seq<KeyNode>, p: nat, newHead: KeyNode?)
    requires p < |nodes|
    requires forall k {:trigger nodes[k].next} :: 0 <= k < |nodes| - 1 && k != p - 1 && k != p ==> nodes[k].next == nodes[k + 1]
    requires p < |nodes| - 1 ==> nodes[|nodes| - 1].next == null
    requires p > 0 ==> newHead == nodes[0] && nodes[p - 1].next == if p + 1 < |nodes| then nodes[p + 1] else null
    requires p == 0 ==> newHead == if |nodes| > 1 then nodes[1] else null
    ensures Linked(newHead, DropAt(nodes, p))
  {
    var rest := DropAt(nodes, p);
    forall j {:trigger rest[j].next} | 0 <= j < |rest| - 1 ensures rest[j].next == rest[j + 1] {
      assert rest[j] == nodes[if j < p then j else j + 1];
    }
  }

  /** The first node is unlinked at the head, an inner one at its predecessor. */
  method Unlink(head: KeyNode?, previous: KeyNode?, node: KeyNode,
                ghost nodes: seq<KeyNode>, ghost records: Chain, ghost fp: set<object>, ghost p: nat) returns (newHead: KeyNode?)
    requires IsChain(head, nodes, records, fp) && p < |nodes| && nodes[p] == node
    requires previous == if p == 0 then null else nodes[p - 1]
    modifies previous
    ensures IsChain(newHead, DropAt(nodes, p), DropAt(records, p), fp)
  {
    ghost var rest, left := DropAt(nodes, p), DropAt(records, p);
    newHead := head;
    if previous == null {
      newHead := node.next;
    } else {
      forall j | 0 <= j < |nodes| && nodes[j] == previous ensures j == p - 1 {
        assert nodes[j].Holds(records[j]) && nodes[p - 1].Holds(records[p - 1]);
      }
      previous.next := node.next;
    }
    forall j | 0 <= j < |rest| ensures rest[j].Holds(left[j]) {
      var k := if j < p then j else j + 1;
      assert rest[j] == nodes[k] && old(nodes[k].Holds(records[k]));
    }
    assert forall j, k :: 0 <= j < k < |rest| ==> rest[j].Repr !! rest[k].Repr;
    Bypassed(nodes, p, newHead);
  }

  /** delete_pair on the key's bucket: its subscribers are told, then the node is unlinked. */
  method DeleteInChain(head: KeyNode?, key: string,
                       ghost nodes: seq<KeyNode>, ghost records: Chain, ghost fp: set<object>)
    returns (newHead: KeyNode?, missing: int, sent: seq<Message>, ghost newNodes: seq<KeyNode>, ghost newRecords: Chain)
    requires IsChain(head, nodes, records, fp)
    modifies fp
    ensures IsChain(newHead, newNodes, newRecords, fp)
    ensures var p := Position(records, key);
            && newRecords == RemoveIn(records, key)
            && missing == (if p < |records| then 0 else 1)
            && sent == (if p < |records| then Notify(records[p].subs, DeleteText(key)) else [])
  {
    ghost var p := Position(records, key);
    var previous, node := FindNode(head, nodes, records, fp, key);
    if node == null {
      return head, 1, [], nodes, records;
    }
    sent := NotifyAll(node.head, node.subs, DeleteText(node.key));
    newHead := Unlink(head, previous, node, nodes, records, fp, p);
    missing, newNodes, newRecords := 0, DropAt(nodes, p), DropAt(records, p);
  }

  method AppendToNode(node: KeyNode, fd: int,
                      ghost head: KeyNode?, ghost nodes: seq<KeyNode>, ghost records: Chain, ghost fp: set<object>, ghost p: nat)
    returns (ghost newFp: set<object>)
    requires IsChain(head, nodes, records, fp) && p < |nodes| && nodes[p] == node
    modifies node.Repr
    ensures fresh(newFp - fp) && IsChain(head, nodes, records[p := records[p].(subs := records[p].subs + [fd])], newFp)
  {
    assert node.Holds(records[p]);
    node.AppendSub(fd, records[p]);
    newFp := fp + node.Repr;
    forall j | 0 <= j < |nodes| && j != p ensures nodes[j].Holds(records[j]) == old(nodes[j].Holds(records[j])) {
      assert old(nodes[j].Holds(records[j]));
    }
    Rehold(head, nodes, records, newFp, p, records[p].(subs := records[p].subs + [fd]));
  }

  method RemoveFromNode(node: KeyNode, fd: int,
                        ghost head: KeyNode?, ghost nodes: seq<KeyNode>, ghost records: Chain, ghost fp: set<object>, ghost p: nat)
    requires IsChain(head, nodes, records, fp) && p < |nodes| && nodes[p] == node
    modifies node.Repr
    ensures IsChain(head, nodes, records[p := records[p].(subs := RemoveFirst(records[p].subs, fd))], fp)
  {
    assert node.Holds(records[p]);
    node.RemoveSub(fd, records[p]);
    forall j | 0 <= j < |nodes| && j != p ensures nodes[j].Holds(records[j]) == old(nodes[j].Holds(records[j])) {
      assert old(nodes[j].Holds(records[j]));
    }
    Rehold(head, nodes, records, fp, p, records[p].(subs := RemoveFirst(records[p].subs, fd)));
  }

  method ClearNode(node: KeyNode,
                   ghost head: KeyNode?, ghost nodes: seq<KeyNode>, ghost records: Chain, ghost fp: set<object>, ghost p: nat)
    requires IsChain(head, nodes, records, fp) && p < |nodes| && nodes[p] == node
    modifies node`head, node`subs
    ensures IsChain(head, nodes, records[p := records[p].(subs := [])], fp)
  {
    assert node.Holds(records[p]);
    node.ClearSubs(records[p]);
    forall j | 0 <= j < |nodes| && j != p ensures nodes[j].Holds(records[j]) == old(nodes[j].Holds(records[j])) {
      assert old(nodes[j].Holds(records[j]));
    }
    Rehold(head, nodes, records, fp, p, records[p].(subs := []));
  }

  /** SIGUSR1 on one bucket: every node's list becomes empty. */
  method ClearChain(head: KeyNode?, ghost nodes: seq<KeyNode>, ghost records: Chain, ghost fp: set<object>)
    requires IsChain(head, nodes, records, fp)
    modifies fp
    ensures IsChain(head, nodes, ClearedChain(records), fp)
  {
    ghost var now, i := records, 0;
    var node := head;
    while node != null
      invariant i <= |nodes| == |now| && node == if i < |nodes| then nodes[i] else null
      invariant IsChain(head, nodes, now, fp)
      invariant forall j :: 0 <= j < |now| ==> now[j] == if j < i then records[j].(subs := []) else records[j]
      decreases |nodes| - i
    {
      ClearNode(node, head, nodes, now, fp, i);
      now := now[i := now[i].(subs := [])];
      node := node.next;
      i := i + 1;
    }
    assert now == ClearedChain(records);
  }

  class HashTable {
    const table: array<KeyNode?>
    ghost var chains: seq<seq<KeyNode>>
    ghost var model: Buckets
    ghost var owned: seq<set<object>>   // the objects of each bucket
    ghost var Repr: set<object>

    /** 26 buckets, whose objects belong to this table and to one bucket only. */
    ghost predicate Shape()
      reads this
    {
      && this in Repr && table in Repr && table.Length == TABLE_SIZE
      && |chains| == |owned| == |model| == TABLE_SIZE
      && (forall i :: 0 <= i < TABLE_SIZE ==> owned[i] <= Repr - {this, table})
      && (forall i, j :: 0 <= i < j < TABLE_SIZE ==> owned[i] !! owned[j])
    }

    /** The chain from `head` is bucket `i`. */
    ghost predicate Bucket(i: nat, head: KeyNode?)
      requires Shape() && i < TABLE_SIZE
      reads this, owned[i]
    {
      IsChain(head, chains[i], model[i], owned[i])
    }

    /** The heap holds exactly the records of `model`. */
    ghost predicate Valid()
      reads this, Repr
      ensures Valid() ==> this in Repr
    {
      Shape() && WellFormed(model) && forall i: nat {:trigger Bucket(i, table[i])} :: i < TABLE_SIZE ==> Bucket(i, table[i])
    }

    constructor ()
      ensures Valid() && fresh(Repr) && model == Empty()
    {
      table := new KeyNode?[TABLE_SIZE](_ => null);
      chains, owned, model := seq(TABLE_SIZE, _ => []), seq(TABLE_SIZE, _ => {}), Empty();
      new;
      Repr := {this, table};
    }

    /** Records in the ghost state what was done to bucket `b`; no other bucket's objects were touched. */
    ghost method Adopt(b: nat, nodes: seq<KeyNode>, records: Chain, fp: set<object>)
      requires Shape() && WellFormed(model) && b < TABLE_SIZE
      requires forall i: nat {:trigger Bucket(i, table[i])} :: i < TABLE_SIZE && i != b ==> Bucket(i, table[i])
      requires BucketOk(records, b) && IsChain(table[b], nodes, records, fp)
      requires fp !! Repr - owned[b]
      modifies this
      ensures Valid() && model == old(model)[b := records] && Repr == old(Repr) + fp
    {
      ReplaceChain(model, b, records);
      forall i | 0 <= i < TABLE_SIZE && i != b ensures owned[i] !! fp {
        assert owned[i] !! owned[b];
      }
      chains, model, owned := chains[b := nodes], model[b := records], owned[b := fp];
      Repr := Repr + fp;
      assert Shape();
      forall i: nat {:trigger Bucket(i, table[i])} | i < TABLE_SIZE ensures Bucket(i, table[i]) {
        if i == b {
          assert IsChain(table[b], nodes, records, fp);
        } else {
          assert old(Bucket(i, table[i]));
        }
      }
    }

    /** Puts a bucket's new head into the table. */
    method Reseat(b: nat, head: KeyNode?, ghost nodes: seq<KeyNode>, ghost records: Chain, ghost fp: set<object>)
      requires Shape() && WellFormed(model) && b < TABLE_SIZE
      requires forall i: nat {:trigger Bucket(i, table[i])} :: i < TABLE_SIZE && i != b ==> Bucket(i, table[i])
      requires BucketOk(records, b) && IsChain(head, nodes, records, fp)
      requires fp !! Repr - owned[b]
      modifies this, table
      ensures Valid() && model == old(model)[b := records] && Repr == old(Repr) + fp
    {
      table[b] := head;
      assert IsChain(table[b], nodes, records, fp);
      forall i: nat {:trigger Bucket(i, table[i])} | i < TABLE_SIZE && i != b ensures Bucket(i, table[i]) {
        assert old(Bucket(i, table[i]));
      }
      Adopt(b, nodes, records, fp);
    }

    method ReadPair(key: string) returns (value: Option<string>)
      requires Valid() && Hashable(key)
      ensures value == Lookup(model, key)
    {
      ghost var b := Hash(key);
      assert Bucket(b, table[b]);
      var previous, node := FindNode(table[Hash(key)], chains[b], model[b], owned[b], key);
      value := if node == null then None else Some(node.value);
    }

    method WritePair(key: string, value: string) returns (sent: seq<Message>)
      requires Valid() && Hashable(key)
      modifies Repr
      ensures Valid() && fresh(Repr - old(Repr))
      ensures model == Put(old(model), key, value)
      ensures sent == PutMessages(old(model), key, value)
    {
      var index := Hash(key);
      assert Bucket(index, table[index]) && BucketOk(PutIn(model[index], key, value), index) by {
        PutIsUpdate(model, key, value);
        assert BucketOk(Put(model, key, value)[index], index);
      }
      var head;
      ghost var nodes, records, fp;
      head, sent, nodes, records, fp := WriteInChain(table[index], key, value, chains[index], model[index], owned[index]);
      forall i: nat {:trigger Bucket(i, table[i])} | i < TABLE_SIZE && i != index ensures Bucket(i, table[i]) {
        assert old(Bucket(i, table[i]));
      }
      Reseat(index, head, nodes, records, fp);
    }

    method DeletePair(key: string) returns (missing: int, sent: seq<Message>)
      requires Valid() && Hashable(key)
      modifies Repr
      ensures Valid() && fresh(Repr - old(Repr))
      ensures model == Remove(old(model), key)
      ensures missing == if Has(old(model), key) then 0 else 1
      ensures sent == RemoveMessages(old(model), key)
    {
      var index := Hash(key);
      RemoveIsRemoval(model, key);
      assert Bucket(index, table[index]) && BucketOk(Remove(model, key)[index], index);
      var head;
      ghost var nodes, records;
      head, missing, sent, nodes, records := DeleteInChain(table[index], key, chains[index], model[index], owned[index]);
      forall i: nat {:trigger Bucket(i, table[i])} | i < TABLE_SIZE && i != index ensures Bucket(i, table[i]) {
        assert old(Bucket(i, table[i]));
      }
      Reseat(index, head, nodes, records, owned[index]);
    }

    method WriteSubscription(key: string, fd: int) returns (found: int)
      requires Valid() && Hashable(key)
      modifies Repr
      ensures Valid() && fresh(Repr - old(Repr))
      ensures model == AddSub(old(model), key, fd)
      ensures found == if Has(old(model), key) then 1 else 0
    {
      var index := Hash(key);
      ghost var p := Position(model[index], key);
      AddSubIsUpdate(model, key, fd);
      assert Bucket(index, table[index]) && BucketOk(AddSub(model, key, fd)[index], index);
      var previous, node := FindNode(table[index], chains[index], model[index], owned[index], key);
      if node == null {
        return 0;
      }
      ghost var fp := AppendToNode(node, fd, table[index], chains[index], model[index], owned[index], p);
      forall i: nat {:trigger Bucket(i, table[i])} | i < TABLE_SIZE && i != index ensures Bucket(i, table[i]) {
        assert old(Bucket(i, table[i]));
      }
      Adopt(index, chains[index], AddSubIn(model[index], key, fd), fp);
      return 1;
    }

    method DeleteSubscription(key: string, fd: int) returns (found: int)
      requires Valid() && Hashable(key)
      modifies Repr
      ensures Valid() && fresh(Repr - old(Repr))
      ensures model == RemoveSub(old(model), key, fd)
      ensures found == if Has(old(model), key) then 1 else 0
    {
      var index := Hash(key);
      ghost var p := Position(model[index], key);
      RemoveSubIsUpdate(model, key, fd);
      assert Bucket(index, table[index]) && BucketOk(RemoveSub(model, key, fd)[index], index);
      var previous, node := FindNode(table[index], chains[index], model[index], owned[index], key);
      if node == null {
        return 0;
      }
      RemoveFromNode(node, fd, table[index], chains[index], model[index], owned[index], p);
      forall i: nat {:trigger Bucket(i, table[i])} | i < TABLE_SIZE && i != index ensures Bucket(i, table[i]) {
        assert old(Bucket(i, table[i]));
      }
      Adopt(index, chains[index], RemoveSubIn(model[index], key, fd), owned[index]);
      return 1;
    }

    method ClearBucket(i: nat)
      requires Valid() && i < TABLE_SIZE
      modifies Repr
      ensures Valid() && Repr == old(Repr)
      ensures model == old(model)[i := ClearedChain(old(model)[i])]
    {
      assert Bucket(i, table[i]) && BucketOk(model[i], i);
      ClearChain(table[i], chains[i], model[i], owned[i]);
      forall j: nat {:trigger Bucket(j, table[j])} | j < TABLE_SIZE && j != i ensures Bucket(j, table[j]) {
        assert old(Bucket(j, table[j]));
      }
      Adopt(i, chains[i], ClearedChain(model[i]), owned[i]);
    }

    /** What SIGUSR1 does to the table. */
    method ClearSubscriptions()
      requires Valid()
      modifies Repr
      ensures Valid() && Repr == old(Repr)
      ensures model == ClearSubs(old(model))
    {
      ghost var before := model;
      for i := 0 to TABLE_SIZE
        invariant Valid() && Repr == old(Repr)
        invariant forall j :: 0 <= j < TABLE_SIZE ==> model[j] == if j < i then ClearedChain(before[j]) else before[j]
      {
        ClearBucket(i);
      }
    }
  }
}
