/**
  The store as values: 26 chains of records, each with its list of subscriber
  descriptors, and the plain map those chains stand for.  HashTable.dfy refines
  this to the heap; every protocol proof works on these values.
 */
module Table {
  import opened CStrings
  import opened LinkedList

  datatype Record = Record(key: string, value: string, subs: seq<int>)
  datatype Entry = Entry(value: string, subs: seq<int>)

  /** One write_all on a client's notification pipe. */
  datatype Message = Message(fd: int, text: string)

  type Chain = seq<Record>
  type Buckets = seq<Chain>

  function ToLower(c: char): char {
    if 'A' <= c <= 'Z' then c - 'A' + 'a' else c
  }

  /** Bucket of a key by its first byte; -1 for a key no bucket exists for. */
  function Hash(key: string): (h: int)
    ensures -1 <= h < TABLE_SIZE
  {
    var first := if key == "" then NUL else ToLower(key[0]);
    if 'a' <= first <= 'z' then first as int - 'a' as int
    else if '0' <= first <= '9' then first as int - '0' as int
    else -1
  }

  /** The keys the table may be asked about: those with a bucket. */
  predicate Hashable(key: string) {
    Hash(key) >= 0
  }

  /** A letter's bucket is its place in the alphabet, whatever its case, a digit's its value. */
  lemma BucketIsRank(key: string)
    requires key != ""
    ensures 'a' <= key[0] <= 'z' ==> Hash(key) == key[0] as int - 'a' as int
    ensures 'A' <= key[0] <= 'Z' ==> Hash(key) == key[0] as int - 'A' as int
    ensures '0' <= key[0] <= '9' ==> Hash(key) == key[0] as int - '0' as int
  {}

  /** Exactly the keys that start with a letter or a digit have a bucket; letters share it whatever their case, and with ten digits. */
  lemma KeysWithABucket(key: string, other: string)
    ensures Hashable(key) <==> key != "" && ('a' <= key[0] <= 'z' || 'A' <= key[0] <= 'Z' || '0' <= key[0] <= '9')
    ensures Hashable(key) && Hashable(other) ==>
              (Hash(key) == Hash(other) <==>
                 || ToLower(key[0]) == ToLower(other[0])
                 || ToLower(key[0]) as int - ToLower(other[0]) as int == 'a' as int - '0' as int
                 || ToLower(other[0]) as int - ToLower(key[0]) as int == 'a' as int - '0' as int)
  {}

  /** Index of `key` in a chain, or the chain's length. */
  function Position(chain: Chain, key: string): (p: nat)
    ensures p <= |chain|
    ensures p < |chain| ==> chain[p].key == key
    ensures forall j :: 0 <= j < p ==> chain[j].key != key
  {
    if chain == [] || chain[0].key == key then 0 else 1 + Position(chain[1..], key)
  }

  /** The records of bucket `b` belong there, and no key occurs twice. */
  ghost predicate BucketOk(chain: Chain, b: int) {
    && (forall j :: 0 <= j < |chain| ==> Hash(chain[j].key) == b)
    && (forall j, k :: 0 <= j < k < |chain| ==> chain[j].key != chain[k].key)
  }

  ghost predicate WellFormed(t: Buckets) {
    |t| == TABLE_SIZE && forall i {:trigger BucketOk(t[i], i)} :: 0 <= i < |t| ==> BucketOk(t[i], i)
  }

  function Empty(): (t: Buckets)
    ensures WellFormed(t) && forall i :: 0 <= i < |t| ==> t[i] == []
  {
    seq(TABLE_SIZE, _ => [])
  }

  predicate Has(t: Buckets, key: string)
    requires |t| == TABLE_SIZE && Hashable(key)
  {
    Position(t[Hash(key)], key) < |t[Hash(key)]|
  }

  function Get(t: Buckets, key: string): Record
    requires |t| == TABLE_SIZE && Hashable(key) && Has(t, key)
  {
    t[Hash(key)][Position(t[Hash(key)], key)]
  }

  function Lookup(t: Buckets, key: string): Option<string>
    requires |t| == TABLE_SIZE && Hashable(key)
  {
    if Has(t, key) then Some(Get(t, key).value) else None
  }

  /** Replaces the record of a present key. */
  function Set(t: Buckets, key: string, r: Record): Buckets
    requires |t| == TABLE_SIZE && Hashable(key) && Has(t, key)
  {
    t[Hash(key) := t[Hash(key)][Position(t[Hash(key)], key) := r]]
  }

  // What each operation of kvs.c does to the chain of the key's bucket.

  /** Overwrite in place, or a new record with no subscriber at the front. */
  function PutIn(chain: Chain, key: string, value: string): Chain {
    var p := Position(chain, key);
    if p < |chain| then chain[p := chain[p].(value := value)] else [Record(key, value, [])] + chain
  }

  /** Unlink the record, wherever it is. */
  function RemoveIn(chain: Chain, key: string): Chain {
    var p := Position(chain, key);
    if p < |chain| then DropAt(chain, p) else chain
  }

  /** One more entry at the end of a present key's list. */
  function AddSubIn(chain: Chain, key: string, fd: int): Chain {
    var p := Position(chain, key);
    if p < |chain| then chain[p := chain[p].(subs := chain[p].subs + [fd])] else chain
  }

  /** The first entry of `fd` in a present key's list goes. */
  function RemoveSubIn(chain: Chain, key: string, fd: int): Chain {
    var p := Position(chain, key);
    if p < |chain| then chain[p := chain[p].(subs := RemoveFirst(chain[p].subs, fd))] else chain
  }

  function Put(t: Buckets, key: string, value: string): Buckets
    requires |t| == TABLE_SIZE && Hashable(key)
  {
    t[Hash(key) := PutIn(t[Hash(key)], key, value)]
  }

  function Remove(t: Buckets, key: string): Buckets
    requires |t| == TABLE_SIZE && Hashable(key)
  {
    t[Hash(key) := RemoveIn(t[Hash(key)], key)]
  }

  function AddSub(t: Buckets, key: string, fd: int): Buckets
    requires |t| == TABLE_SIZE && Hashable(key)
  {
    t[Hash(key) := AddSubIn(t[Hash(key)], key, fd)]
  }

  function RemoveSub(t: Buckets, key: string, fd: int): Buckets
    requires |t| == TABLE_SIZE && Hashable(key)
  {
    t[Hash(key) := RemoveSubIn(t[Hash(key)], key, fd)]
  }

  function ClearedChain(chain: Chain): (r: Chain)
    ensures |r| == |chain| && forall j :: 0 <= j < |r| ==> r[j] == chain[j].(subs := [])
  {
    seq(|chain|, j requires 0 <= j < |chain| => chain[j].(subs := []))
  }

  /** SIGUSR1: every subscriber list becomes empty. */
  function ClearSubs(t: Buckets): (r: Buckets)
    ensures |r| == |t| && forall i :: 0 <= i < |r| ==> r[i] == ClearedChain(t[i])
  {
    seq(|t|, i requires 0 <= i < |t| => ClearedChain(t[i]))
  }

  /** The same text once per entry of a subscriber list. */
  function Notify(subs: seq<int>, text: string): seq<Message> {
    if subs == [] then [] else [Message(subs[0], text)] + Notify(subs[1..], text)
  }

  lemma {:induction false} NotifySnoc(subs: seq<int>, fd: int, text: string)
    ensures Notify(subs + [fd], text) == Notify(subs, text) + [Message(fd, text)]
  {
    if subs != [] {
      assert (subs + [fd])[1..] == subs[1..] + [fd];
      NotifySnoc(subs[1..], fd, text);
    }
  }

  function WriteText(key: string, value: string): string { "(" + key + "," + value + ")" }
  function DeleteText(key: string): string { "(" + key + ",DELETED)" }

  function PutMessages(t: Buckets, key: string, value: string): seq<Message>
    requires |t| == TABLE_SIZE && Hashable(key)
  {
    if Has(t, key) then Notify(Get(t, key).subs, WriteText(key, value)) else []
  }

  function RemoveMessages(t: Buckets, key: string): seq<Message>
    requires |t| == TABLE_SIZE && Hashable(key)
  {
    if Has(t, key) then Notify(Get(t, key).subs, DeleteText(key)) else []
  }

  // ---- the same operations on a plain map

  function MapPut(m: map<string, Entry>, key: string, value: string): map<string, Entry> {
    m[key := Entry(value, if key in m then m[key].subs else [])]
  }

  function MapRemove(m: map<string, Entry>, key: string): map<string, Entry> {
    m - {key}
  }

  function MapAddSub(m: map<string, Entry>, key: string, fd: int): map<string, Entry> {
    if key in m then m[key := Entry(m[key].value, m[key].subs + [fd])] else m
  }

  function MapRemoveSub(m: map<string, Entry>, key: string, fd: int): map<string, Entry> {
    if key in m then m[key := Entry(m[key].value, RemoveFirst(m[key].subs, fd))] else m
  }

  function MapClearSubs(m: map<string, Entry>): map<string, Entry> {
    map k | k in m :: Entry(m[k].value, [])
  }

  function MapPutMessages(m: map<string, Entry>, key: string, value: string): seq<Message> {
    if key in m then Notify(m[key].subs, WriteText(key, value)) else []
  }

  function MapRemoveMessages(m: map<string, Entry>, key: string): seq<Message> {
    if key in m then Notify(m[key].subs, DeleteText(key)) else []
  }

  // ---- the map the chains stand for

  ghost function Keys(t: Buckets): set<string> {
    set i, j | 0 <= i < |t| && 0 <= j < |t[i]| :: t[i][j].key
  }

  ghost function Contents(t: Buckets): map<string, Entry>
    requires WellFormed(t)
  {
    map k | k in Keys(t) && Hashable(k) && Has(t, k) :: Entry(Get(t, k).value, Get(t, k).subs)
  }

  /** A key is bound exactly when its own bucket's chain search finds it. */
  lemma ContentsLookup(t: Buckets, key: string)
    requires WellFormed(t) && Hashable(key)
    ensures key in Contents(t) <==> Has(t, key)
    ensures Has(t, key) ==> Contents(t)[key] == Entry(Get(t, key).value, Get(t, key).subs)
  {
    if Has(t, key) {
      var i, j := Hash(key), Position(t[Hash(key)], key);
      assert t[i][j].key == key;
    }
  }

  /** In a chain without repeated keys the search finds exactly the record asked for. */
  lemma {:induction false} PositionUnique(chain: Chain, j: nat)
    requires j < |chain|
    requires forall i, k :: 0 <= i < k < |chain| ==> chain[i].key != chain[k].key
    ensures Position(chain, chain[j].key) == j
  {
    var p := Position(chain, chain[j].key);
    assert !(p < j);
  }

  /** The search stops at the first record with the key. */
  lemma FirstPosition(chain: Chain, i: nat)
    requires i < |chain| && forall j :: 0 <= j < i ==> chain[j].key != chain[i].key
    ensures Position(chain, chain[i].key) == i
  {
    assert !(Position(chain, chain[i].key) < i);
  }

  /** The search looks at keys only. */
  lemma {:induction false} PositionByKeys(a: Chain, b: Chain, k: string)
    requires |a| == |b| && forall j :: 0 <= j < |a| ==> a[j].key == b[j].key
    ensures Position(a, k) == Position(b, k)
  {
    if a != [] && a[0].key != k {
      PositionByKeys(a[1..], b[1..], k);
    }
  }

  /** A bucket's new chain gives the new table; other buckets keep their searches. */
  lemma ReplaceChain(t: Buckets, b: nat, chain: Chain)
    requires WellFormed(t) && b < TABLE_SIZE
    requires BucketOk(chain, b)
    ensures WellFormed(t[b := chain])
  {
    forall i {:trigger BucketOk(t[b := chain][i], i)} | 0 <= i < |t| ensures BucketOk(t[b := chain][i], i) {
      assert i != b ==> BucketOk(t[i], i);
    }
  }

  lemma MapsEqual(a: map<string, Entry>, b: map<string, Entry>)
    requires forall k :: Hashable(k) ==> ((k in a) <==> (k in b)) && (k in a && k in b ==> a[k] == b[k])
    requires forall k :: k in a || k in b ==> Hashable(k)
    ensures a == b
  {
    forall k ensures (k in a <==> k in b) && (k in a && k in b ==> a[k] == b[k]) {}
  }

  lemma SetLookup(t: Buckets, key: string, r: Record, k: string)
    requires WellFormed(t) && Hashable(key) && Has(t, key) && r.key == key && Hashable(k)
    ensures var t' := Set(t, key, r); |t'| == TABLE_SIZE && Has(t', k) == Has(t, k)
    ensures Has(t, k) ==> Get(Set(t, key, r), k) == if k == key then r else Get(t, k)
  {
    if Hash(k) == Hash(key) {
      PositionByKeys(Set(t, key, r)[Hash(key)], t[Hash(key)], k);
    }
  }

  /** Changing the record of a present key changes that binding and no other. */
  lemma SetIsUpdate(t: Buckets, key: string, r: Record)
    requires WellFormed(t) && Hashable(key) && Has(t, key) && r.key == key
    ensures WellFormed(Set(t, key, r))
    ensures Contents(Set(t, key, r)) == Contents(t)[key := Entry(r.value, r.subs)]
  {
    var b := Hash(key);
    assert BucketOk(t[b], b);
    ReplaceChain(t, b, t[b][Position(t[b], key) := r]);
    var t' := Set(t, key, r);
    var m := Contents(t)[key := Entry(r.value, r.subs)];
    ContentsLookup(t, key);
    forall k | Hashable(k)
      ensures k in Contents(t') <==> k in m
      ensures k in m ==> Contents(t')[k] == m[k]
    {
      ContentsLookup(t, k);
      ContentsLookup(t', k);
      SetLookup(t, key, r, k);
    }
    MapsEqual(Contents(t'), m);
  }

  lemma PutNewLookup(t: Buckets, key: string, value: string, k: string)
    requires WellFormed(t) && Hashable(key) && !Has(t, key) && Hashable(k)
    ensures var t' := Put(t, key, value);
            && (Has(t', k) <==> k == key || Has(t, k))
            && (Has(t', k) ==> Get(t', k) == if k == key then Record(key, value, []) else Get(t, k))
  {
    assert Put(t, key, value)[Hash(key)] == [Record(key, value, [])] + t[Hash(key)];
    assert ([Record(key, value, [])] + t[Hash(key)])[1..] == t[Hash(key)];
  }

  /** A new record at the front of its bucket is a new binding, with no subscriber. */
  lemma PutNewKey(t: Buckets, key: string, value: string)
    requires WellFormed(t) && Hashable(key) && !Has(t, key)
    ensures WellFormed(Put(t, key, value))
    ensures Contents(Put(t, key, value)) == Contents(t)[key := Entry(value, [])]
  {
    var b := Hash(key);
    assert BucketOk(t[b], b);
    ReplaceChain(t, b, [Record(key, value, [])] + t[b]);
    var t' := Put(t, key, value);
    forall k | Hashable(k)
      ensures k in Contents(t') <==> k == key || k in Contents(t)
      ensures k in Contents(t') ==> Contents(t')[k] == (if k == key then Entry(value, []) else Contents(t)[k])
    {
      ContentsLookup(t, k);
      ContentsLookup(t', k);
      PutNewLookup(t, key, value, k);
    }
    MapsEqual(Contents(t'), Contents(t)[key := Entry(value, [])]);
  }

  /** write_pair is map update; a new key starts with no subscriber. */
  lemma PutIsUpdate(t: Buckets, key: string, value: string)
    requires WellFormed(t) && Hashable(key)
    ensures WellFormed(Put(t, key, value))
    ensures Contents(Put(t, key, value)) == MapPut(Contents(t), key, value)
    ensures PutMessages(t, key, value) == MapPutMessages(Contents(t), key, value)
  {
    ContentsLookup(t, key);
    if Has(t, key) {
      SetIsUpdate(t, key, Get(t, key).(value := value));
    } else {
      PutNewKey(t, key, value);
    }
  }

  lemma PositionAtMost(chain: Chain, i: nat)
    requires i < |chain|
    ensures Position(chain, chain[i].key) <= i
  {
    assert !(i < Position(chain, chain[i].key));
  }

  /** A record that is not unlinked is still in the chain. */
  lemma DropKeeps(chain: Chain, p: nat, o: nat) returns (i: nat)
    requires p < |chain| && o < |chain| && o != p
    ensures i < |chain| - 1 && DropAt(chain, p)[i] == chain[o]
  {
    i := if o < p then o else o - 1;
  }

  lemma DropKeepsOthers(chain: Chain, p: nat, k: string)
    requires p < |chain|
    requires forall i, j :: 0 <= i < j < |chain| ==> chain[i].key != chain[j].key
    ensures var q := Position(DropAt(chain, p), k);
            if k == chain[p].key || Position(chain, k) == |chain| then q == |chain| - 1
            else q < |chain| - 1 && DropAt(chain, p)[q] == chain[Position(chain, k)]
  {
    var q := Position(DropAt(chain, p), k);
    if Position(chain, k) < |chain| && Position(chain, k) != p {
      var i := DropKeeps(chain, p, Position(chain, k));
      PositionAtMost(DropAt(chain, p), i);
    }
    if q < |chain| - 1 {
      PositionUnique(chain, if q < p then q else q + 1);
    }
  }

  /** delete_pair is map removal. */
  lemma RemoveIsRemoval(t: Buckets, key: string)
    requires WellFormed(t) && Hashable(key)
    ensures WellFormed(Remove(t, key))
    ensures Contents(Remove(t, key)) == MapRemove(Contents(t), key)
    ensures RemoveMessages(t, key) == MapRemoveMessages(Contents(t), key)
  {
    ContentsLookup(t, key);
    if Has(t, key) {
      var b, p := Hash(key), Position(t[Hash(key)], key);
      var chain := DropAt(t[b], p);
      assert BucketOk(t[b], b);
      ReplaceChain(t, b, chain);
      var t' := t[b := chain];
      forall k | Hashable(k)
        ensures k in Contents(t') <==> k != key && k in Contents(t)
        ensures k in Contents(t') ==> Contents(t')[k] == Contents(t)[k]
      {
        ContentsLookup(t, k);
        ContentsLookup(t', k);
        if Hash(k) == b {
          DropKeepsOthers(t[b], p, k);
        }
      }
      MapsEqual(Contents(t'), Contents(t) - {key});
    } else {
      assert Remove(t, key) == t;
      MapsEqual(Contents(t), Contents(t) - {key});
    }
  }

  /** write_subscription appends to the list of a present key; an absent key changes nothing. */
  lemma AddSubIsUpdate(t: Buckets, key: string, fd: int)
    requires WellFormed(t) && Hashable(key)
    ensures WellFormed(AddSub(t, key, fd))
    ensures Contents(AddSub(t, key, fd)) == MapAddSub(Contents(t), key, fd)
  {
    ContentsLookup(t, key);
    if Has(t, key) {
      SetIsUpdate(t, key, Get(t, key).(subs := Get(t, key).subs + [fd]));
    } else {
      assert AddSub(t, key, fd) == t;
    }
  }

  lemma RemoveSubIsUpdate(t: Buckets, key: string, fd: int)
    requires WellFormed(t) && Hashable(key)
    ensures WellFormed(RemoveSub(t, key, fd))
    ensures Contents(RemoveSub(t, key, fd)) == MapRemoveSub(Contents(t), key, fd)
  {
    ContentsLookup(t, key);
    if Has(t, key) {
      SetIsUpdate(t, key, Get(t, key).(subs := RemoveFirst(Get(t, key).subs, fd)));
    } else {
      assert RemoveSub(t, key, fd) == t;
    }
  }

  /** SIGUSR1 keeps every binding's value and empties every list. */
  lemma ClearSubsIsUpdate(t: Buckets)
    requires WellFormed(t)
    ensures WellFormed(ClearSubs(t))
    ensures Contents(ClearSubs(t)) == MapClearSubs(Contents(t))
  {
    var t' := ClearSubs(t);
    forall i {:trigger BucketOk(t'[i], i)} | 0 <= i < |t'| ensures BucketOk(t'[i], i) {
      assert BucketOk(t[i], i);
    }
    var m := MapClearSubs(Contents(t));
    forall k | Hashable(k)
      ensures k in Contents(t') <==> k in m
      ensures k in m ==> Contents(t')[k] == m[k]
    {
      ContentsLookup(t, k);
      ContentsLookup(t', k);
      PositionByKeys(t'[Hash(k)], t[Hash(k)], k);
    }
    MapsEqual(Contents(t'), m);
  }

  // ---- the order both walks visit the table in

  function Flatten(t: Buckets): seq<Record> {
    if t == [] then [] else t[0] + Flatten(t[1..])
  }

  lemma {:induction false} FlattenSnoc(t: Buckets, chain: Chain)
    ensures Flatten(t + [chain]) == Flatten(t) + chain
  {
    if t == [] {
      assert (t + [chain])[1..] == [];
    } else {
      assert (t + [chain])[1..] == t[1..] + [chain];
      FlattenSnoc(t[1..], chain);
    }
  }

  lemma {:induction false} FlattenIndex(t: Buckets, n: nat) returns (i: nat, j: nat)
    requires n < |Flatten(t)|
    ensures i < |t| && j < |t[i]| && Flatten(t)[n] == t[i][j]
    ensures n == |Flatten(t[..i])| + j
  {
    if n < |t[0]| {
      i, j := 0, n;
      assert t[..0] == [];
    } else {
      i, j := FlattenIndex(t[1..], n - |t[0]|);
      i := i + 1;
      assert t[..i][1..] == t[1..][..i - 1];
    }
  }

  lemma {:induction false} FlattenHolds(t: Buckets, i: nat, j: nat) returns (n: nat)
    requires i < |t| && j < |t[i]|
    ensures n < |Flatten(t)| && Flatten(t)[n] == t[i][j]
  {
    if i == 0 {
      n := j;
    } else {
      n := FlattenHolds(t[1..], i - 1, j);
      n := n + |t[0]|;
    }
  }

  /** The walk over the buckets meets each binding of the map, each once. */
  lemma WalkIsComplete(t: Buckets)
    requires WellFormed(t)
    ensures forall n :: 0 <= n < |Flatten(t)| ==>
              var r := Flatten(t)[n]; r.key in Contents(t) && Contents(t)[r.key] == Entry(r.value, r.subs)
    ensures forall k :: k in Contents(t) ==> exists n :: 0 <= n < |Flatten(t)| && Flatten(t)[n].key == k
    ensures forall n, o :: 0 <= n < o < |Flatten(t)| ==> Flatten(t)[n].key != Flatten(t)[o].key
  {
    forall n | 0 <= n < |Flatten(t)|
      ensures var r := Flatten(t)[n]; r.key in Contents(t) && Contents(t)[r.key] == Entry(r.value, r.subs)
    {
      var i, j := FlattenIndex(t, n);
      assert BucketOk(t[i], i);
      PositionUnique(t[i], j);
      ContentsLookup(t, t[i][j].key);
    }
    forall k | k in Contents(t) ensures exists n :: 0 <= n < |Flatten(t)| && Flatten(t)[n].key == k {
      ContentsLookup(t, k);
      var n := FlattenHolds(t, Hash(k), Position(t[Hash(k)], k));
    }
    forall n, o | 0 <= n < o < |Flatten(t)| ensures Flatten(t)[n].key != Flatten(t)[o].key {
      var i, j := FlattenIndex(t, n);
      var i', j' := FlattenIndex(t, o);
      assert BucketOk(t[i], i) && BucketOk(t[i'], i');
    }
  }

  // ---- how operations move records in the walk

  lemma {:induction false} FlattenAppend(a: Buckets, b: Buckets)
    ensures Flatten(a + b) == Flatten(a) + Flatten(b)
  {
    if a == [] {
      assert a + b == b;
    } else {
      assert (a + b)[1..] == a[1..] + b;
      FlattenAppend(a[1..], b);
      Assoc(a[0], Flatten(a[1..]), Flatten(b));
    }
  }

  /** The records before a bucket, its own and those after. */
  lemma FlattenAt(t: Buckets, b: nat)
    requires b < |t|
    ensures Flatten(t) == Flatten(t[..b]) + (t[b] + Flatten(t[b + 1..]))
  {
    assert t == t[..b] + t[b..] && t[b..] == [t[b]] + t[b + 1..];
    FlattenAppend(t[..b], t[b..]);
  }

  lemma FlattenReplaced(t: Buckets, b: nat, chain: Chain)
    requires b < |t|
    ensures Flatten(t[b := chain]) == Flatten(t[..b]) + (chain + Flatten(t[b + 1..]))
  {
    FlattenAt(t[b := chain], b);
    assert t[b := chain][..b] == t[..b] && t[b := chain][b + 1..] == t[b + 1..];
  }

  lemma UpdateInside<T>(a: seq<T>, b: seq<T>, c: seq<T>, p: nat, x: T)
    requires p < |b|
    ensures (a + (b + c))[|a| + p := x] == a + (b[p := x] + c)
  {}

  lemma DropInside<T>(a: seq<T>, b: seq<T>, c: seq<T>, p: nat)
    requires p < |b|
    ensures DropAt(a + (b + c), |a| + p) == a + (DropAt(b, p) + c)
  {}

  /** A new key comes first in its bucket, and nothing else moves. */
  lemma NewKeyComesFirst(t: Buckets, key: string, value: string)
    requires |t| == TABLE_SIZE && Hashable(key) && !Has(t, key)
    ensures var n := |Flatten(t[..Hash(key)])|;
            && n <= |Flatten(t)|
            && Flatten(Put(t, key, value)) == Flatten(t)[..n] + ([Record(key, value, [])] + Flatten(t)[n..])
  {
    var b := Hash(key);
    var before, after := Flatten(t[..b]), t[b] + Flatten(t[b + 1..]);
    FlattenAt(t, b);
    FlattenReplaced(t, b, [Record(key, value, [])] + t[b]);
    assert Flatten(t)[..|before|] == before && Flatten(t)[|before|..] == after;
    Assoc([Record(key, value, [])], t[b], Flatten(t[b + 1..]));
  }

  /** An overwritten key stays where it is. */
  lemma OverwriteStays(t: Buckets, key: string, value: string)
    requires |t| == TABLE_SIZE && Hashable(key) && Has(t, key)
    ensures var n := |Flatten(t[..Hash(key)])| + Position(t[Hash(key)], key);
            n < |Flatten(t)| && Flatten(Put(t, key, value)) == Flatten(t)[n := Get(t, key).(value := value)]
  {
    var b := Hash(key);
    FlattenAt(t, b);
    FlattenReplaced(t, b, PutIn(t[b], key, value));
    UpdateInside(Flatten(t[..b]), t[b], Flatten(t[b + 1..]), Position(t[b], key), Get(t, key).(value := value));
  }

  /** A deleted key leaves its place, and the others close up. */
  lemma DeleteClosesUp(t: Buckets, key: string)
    requires |t| == TABLE_SIZE && Hashable(key) && Has(t, key)
    ensures var n := |Flatten(t[..Hash(key)])| + Position(t[Hash(key)], key);
            n < |Flatten(t)| && Flatten(Remove(t, key)) == DropAt(Flatten(t), n)
  {
    var b := Hash(key);
    FlattenAt(t, b);
    FlattenReplaced(t, b, RemoveIn(t[b], key));
    DropInside(Flatten(t[..b]), t[b], Flatten(t[b + 1..]), Position(t[b], key));
  }
}
