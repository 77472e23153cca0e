/**
  operations.c: the batch commands over the heap table and the texts they print.
  Descriptors are seen as the texts written to them; the table lock is the subject
  of Batches.dfy.
 */
module Operations {
  import opened CStrings
  import opened Table
  import opened HashTables

  datatype Pair = Pair(key: string, value: string)

  predicate AllHashable(keys: seq<string>) {
    forall i :: 0 <= i < |keys| ==> Hashable(keys[i])
  }

  predicate PairsHashable(pairs: seq<Pair>) {
    forall i :: 0 <= i < |pairs| ==> Hashable(pairs[i].key)
  }

  // ---- what n iterations of each loop have done

  function PutAll(t: Buckets, pairs: seq<Pair>, n: nat): (r: Buckets)
    requires |t| == TABLE_SIZE && n <= |pairs| && PairsHashable(pairs)
    ensures |r| == TABLE_SIZE
  {
    if n == 0 then t else Put(PutAll(t, pairs, n - 1), pairs[n - 1].key, pairs[n - 1].value)
  }

  function PutAllMessages(t: Buckets, pairs: seq<Pair>, n: nat): seq<Message>
    requires |t| == TABLE_SIZE && n <= |pairs| && PairsHashable(pairs)
  {
    if n == 0 then []
    else PutAllMessages(t, pairs, n - 1) + PutMessages(PutAll(t, pairs, n - 1), pairs[n - 1].key, pairs[n - 1].value)
  }

  function RemoveAll(t: Buckets, keys: seq<string>, n: nat): (r: Buckets)
    requires |t| == TABLE_SIZE && n <= |keys| && AllHashable(keys)
    ensures |r| == TABLE_SIZE
  {
    if n == 0 then t else Remove(RemoveAll(t, keys, n - 1), keys[n - 1])
  }

  function RemoveAllMessages(t: Buckets, keys: seq<string>, n: nat): seq<Message>
    requires |t| == TABLE_SIZE && n <= |keys| && AllHashable(keys)
  {
    if n == 0 then []
    else RemoveAllMessages(t, keys, n - 1) + RemoveMessages(RemoveAll(t, keys, n - 1), keys[n - 1])
  }

  /** The keys whose delete_pair failed, in the order they were met. */
  function Failed(t: Buckets, keys: seq<string>, n: nat): seq<string>
    requires |t| == TABLE_SIZE && n <= |keys| && AllHashable(keys)
  {
    if n == 0 then []
    else if Has(RemoveAll(t, keys, n - 1), keys[n - 1]) then Failed(t, keys, n - 1)
    else Failed(t, keys, n - 1) + [keys[n - 1]]
  }

  function MissingItem(key: string): string { Clip("(" + key + ",KVSMISSING)") }

  function MissingItems(keys: seq<string>): (items: seq<string>)
    ensures |items| == |keys| && forall i :: 0 <= i < |keys| ==> items[i] == MissingItem(keys[i])
  {
    seq(|keys|, i requires 0 <= i < |keys| => MissingItem(keys[i]))
  }

  /** DELETE prints nothing when every key was there, otherwise the missing ones in brackets. */
  function DeleteReport(missing: seq<string>): string {
    Opened(MissingItems(missing)) + if missing == [] then "" else "]\n"
  }

  /** One item of a READ answer. */
  function ReadItem(key: string, result: Option<string>): string {
    Clip(if result.None? then "(" + key + ",KVSERROR)" else WriteText(key, result.value))
  }

  function ReadItems(t: Buckets, keys: seq<string>, n: nat): string
    requires |t| == TABLE_SIZE && AllHashable(keys) && n <= |keys|
  {
    if n == 0 then "" else ReadItems(t, keys, n - 1) + ReadItem(keys[n - 1], Lookup(t, keys[n - 1]))
  }

  function ReadText(t: Buckets, keys: seq<string>): string
    requires |t| == TABLE_SIZE && AllHashable(keys)
  {
    "[" + ReadItems(t, keys, |keys|) + "]\n"
  }

  // ---- what a whole batch means for the map

  /** The first `n` keys. */
  ghost function Listed(keys: seq<string>, n: nat): set<string>
    requires n <= |keys|
  {
    if n == 0 then {} else Listed(keys, n - 1) + {keys[n - 1]}
  }

  lemma {:induction false} ListedMeans(keys: seq<string>, n: nat, k: string)
    requires n <= |keys|
    ensures k in Listed(keys, n) <==> k in keys[..n]
  {
    if n > 0 {
      ListedMeans(keys, n - 1, k);
      assert keys[..n] == keys[..n - 1] + [keys[n - 1]];
    }
  }

  /** The value the last of the first `n` pairs with that key carries. */
  function LastValue(pairs: seq<Pair>, n: nat, key: string): Option<string>
    requires n <= |pairs|
  {
    if n == 0 then None
    else if pairs[n - 1].key == key then Some(pairs[n - 1].value)
    else LastValue(pairs, n - 1, key)
  }

  ghost function MapPutAll(m: map<string, Entry>, pairs: seq<Pair>, n: nat): map<string, Entry>
    requires n <= |pairs|
  {
    if n == 0 then m
    else MapPut(MapPutAll(m, pairs, n - 1), pairs[n - 1].key, pairs[n - 1].value)
  }

  ghost function MapPutAllMessages(m: map<string, Entry>, pairs: seq<Pair>, n: nat): seq<Message>
    requires n <= |pairs|
  {
    if n == 0 then []
    else MapPutAllMessages(m, pairs, n - 1) + MapPutMessages(MapPutAll(m, pairs, n - 1), pairs[n - 1].key, pairs[n - 1].value)
  }

  ghost function MapRemoveAllMessages(m: map<string, Entry>, keys: seq<string>, n: nat): seq<Message>
    requires n <= |keys|
  {
    if n == 0 then []
    else MapRemoveAllMessages(m, keys, n - 1) + MapRemoveMessages(m - Listed(keys, n - 1), keys[n - 1])
  }

  // ---- WRITE

  lemma PutAllNext(t: Buckets, pairs: seq<Pair>, n: nat)
    requires |t| == TABLE_SIZE && 0 < n <= |pairs| && PairsHashable(pairs)
    ensures var before, p := PutAll(t, pairs, n - 1), pairs[n - 1];
            && PutAll(t, pairs, n) == Put(before, p.key, p.value)
            && PutAllMessages(t, pairs, n) == PutAllMessages(t, pairs, n - 1) + PutMessages(before, p.key, p.value)
  {}

  lemma PutAllBindingsNext(t: Buckets, pairs: seq<Pair>, n: nat)
    requires 0 < n <= |pairs| && |t| == TABLE_SIZE && PairsHashable(pairs) && WellFormed(t)
    requires WellFormed(PutAll(t, pairs, n - 1)) && Contents(PutAll(t, pairs, n - 1)) == MapPutAll(Contents(t), pairs, n - 1)
    ensures WellFormed(PutAll(t, pairs, n)) && Contents(PutAll(t, pairs, n)) == MapPutAll(Contents(t), pairs, n)
    ensures PutMessages(PutAll(t, pairs, n - 1), pairs[n - 1].key, pairs[n - 1].value) ==
            MapPutMessages(MapPutAll(Contents(t), pairs, n - 1), pairs[n - 1].key, pairs[n - 1].value)
  {
    PutIsUpdate(PutAll(t, pairs, n - 1), pairs[n - 1].key, pairs[n - 1].value);
  }

  lemma {:induction false} PutAllBindings(t: Buckets, pairs: seq<Pair>, n: nat)
    requires WellFormed(t) && n <= |pairs| && PairsHashable(pairs)
    ensures WellFormed(PutAll(t, pairs, n)) && Contents(PutAll(t, pairs, n)) == MapPutAll(Contents(t), pairs, n)
  {
    if n > 0 {
      PutAllBindings(t, pairs, n - 1);
      PutAllBindingsNext(t, pairs, n);
    }
  }

  lemma PutAllSends(t: Buckets, pairs: seq<Pair>, n: nat)
    requires WellFormed(t) && n <= |pairs| && PairsHashable(pairs)
    ensures PutAllMessages(t, pairs, n) == MapPutAllMessages(Contents(t), pairs, n)
  {
    for i := 0 to n
      invariant PutAllMessages(t, pairs, i) == MapPutAllMessages(Contents(t), pairs, i)
    {
      PutAllBindings(t, pairs, i);
      PutAllBindingsNext(t, pairs, i + 1);
    }
  }

  /** The chains after n writes stand for the map after n updates, and the writes send what the updates say. */
  lemma PutAllContents(t: Buckets, pairs: seq<Pair>, n: nat)
    requires WellFormed(t) && n <= |pairs| && PairsHashable(pairs)
    ensures WellFormed(PutAll(t, pairs, n))
    ensures Contents(PutAll(t, pairs, n)) == MapPutAll(Contents(t), pairs, n)
    ensures PutAllMessages(t, pairs, n) == MapPutAllMessages(Contents(t), pairs, n)
  {
    PutAllBindings(t, pairs, n);
    PutAllSends(t, pairs, n);
  }

  /** A WRITE batch binds each of its keys to the last value it gives, and nobody loses a subscriber. */
  lemma {:induction false} WriteBatchMeaning(m: map<string, Entry>, pairs: seq<Pair>, n: nat, key: string)
    requires n <= |pairs|
    ensures var m', last := MapPutAll(m, pairs, n), LastValue(pairs, n, key);
            && (key in m' <==> key in m || last.Some?)
            && (key in m' ==> m'[key].value == if last.Some? then last.value else m[key].value)
            && (key in m' ==> m'[key].subs == if key in m then m[key].subs else [])
  {
    if n > 0 {
      WriteBatchMeaning(m, pairs, n - 1, key);
    }
  }

  // ---- DELETE

  lemma MinusTwice(m: map<string, Entry>, s: set<string>, k: string)
    ensures (m - s) - {k} == m - (s + {k})
  {}

  lemma RemoveNone(m: map<string, Entry>, keys: seq<string>)
    ensures m - Listed(keys, 0) == m
  {}

  lemma ListedNext(m: map<string, Entry>, keys: seq<string>, n: nat)
    requires 0 < n <= |keys|
    ensures MapRemove(m - Listed(keys, n - 1), keys[n - 1]) == m - Listed(keys, n)
  {
    MinusTwice(m, Listed(keys, n - 1), keys[n - 1]);
  }

  lemma RemoveAllNext(t: Buckets, keys: seq<string>, n: nat)
    requires |t| == TABLE_SIZE && 0 < n <= |keys| && AllHashable(keys)
    ensures var before, k := RemoveAll(t, keys, n - 1), keys[n - 1];
            && RemoveAll(t, keys, n) == Remove(before, k)
            && RemoveAllMessages(t, keys, n) == RemoveAllMessages(t, keys, n - 1) + RemoveMessages(before, k)
            && Failed(t, keys, n) == if Has(before, k) then Failed(t, keys, n - 1) else Failed(t, keys, n - 1) + [k]
  {}

  lemma RemoveAllBindingsNext(t: Buckets, keys: seq<string>, n: nat)
    requires 0 < n <= |keys| && AllHashable(keys) && WellFormed(t)
    requires WellFormed(RemoveAll(t, keys, n - 1)) && Contents(RemoveAll(t, keys, n - 1)) == Contents(t) - Listed(keys, n - 1)
    ensures WellFormed(RemoveAll(t, keys, n)) && Contents(RemoveAll(t, keys, n)) == Contents(t) - Listed(keys, n)
    ensures RemoveMessages(RemoveAll(t, keys, n - 1), keys[n - 1]) == MapRemoveMessages(Contents(t) - Listed(keys, n - 1), keys[n - 1])
  {
    RemoveIsRemoval(RemoveAll(t, keys, n - 1), keys[n - 1]);
    ListedNext(Contents(t), keys, n);
  }

  lemma {:induction false} RemoveAllBindings(t: Buckets, keys: seq<string>, n: nat)
    requires WellFormed(t) && n <= |keys| && AllHashable(keys)
    ensures WellFormed(RemoveAll(t, keys, n)) && Contents(RemoveAll(t, keys, n)) == Contents(t) - Listed(keys, n)
  {
    if n == 0 {
      RemoveNone(Contents(t), keys);
    } else {
      RemoveAllBindings(t, keys, n - 1);
      RemoveAllBindingsNext(t, keys, n);
    }
  }

  lemma RemoveAllSends(t: Buckets, keys: seq<string>, n: nat)
    requires WellFormed(t) && n <= |keys| && AllHashable(keys)
    ensures RemoveAllMessages(t, keys, n) == MapRemoveAllMessages(Contents(t), keys, n)
  {
    for i := 0 to n
      invariant RemoveAllMessages(t, keys, i) == MapRemoveAllMessages(Contents(t), keys, i)
    {
      RemoveAllBindings(t, keys, i);
      RemoveAllBindingsNext(t, keys, i + 1);
    }
  }

  /** After n deletions the first n keys are gone, and their subscribers have been told what the map says. */
  lemma RemoveAllMeaning(t: Buckets, keys: seq<string>, n: nat)
    requires WellFormed(t) && n <= |keys| && AllHashable(keys)
    ensures WellFormed(RemoveAll(t, keys, n))
    ensures Contents(RemoveAll(t, keys, n)) == Contents(t) - Listed(keys, n)
    ensures RemoveAllMessages(t, keys, n) == MapRemoveAllMessages(Contents(t), keys, n)
  {
    RemoveAllBindings(t, keys, n);
    RemoveAllSends(t, keys, n);
  }

  /** The i-th key was there before the batch, and is not listed earlier in it. */
  predicate ThereInTurn(present: set<string>, keys: seq<string>, i: nat)
    requires i < |keys|
  {
    keys[i] in present && keys[i] !in keys[..i]
  }

  /** The reported positions: absent before the batch, or listed earlier in it. */
  ghost function Missing(present: set<string>, keys: seq<string>, n: nat): seq<string>
    requires n <= |keys|
  {
    if n == 0 then []
    else if ThereInTurn(present, keys, n - 1) then Missing(present, keys, n - 1)
    else Missing(present, keys, n - 1) + [keys[n - 1]]
  }

  lemma HasAfterRemovals(t: Buckets, keys: seq<string>, n: nat, key: string)
    requires WellFormed(t) && n <= |keys| && AllHashable(keys) && Hashable(key)
    ensures Has(RemoveAll(t, keys, n), key) <==> key in Contents(t) && key !in keys[..n]
  {
    RemoveAllBindings(t, keys, n);
    ContentsLookup(RemoveAll(t, keys, n), key);
    ListedMeans(keys, n, key);
  }

  lemma HasInTurn(t: Buckets, keys: seq<string>, i: nat)
    requires WellFormed(t) && i < |keys| && AllHashable(keys)
    ensures Has(RemoveAll(t, keys, i), keys[i]) == ThereInTurn(Contents(t).Keys, keys, i)
  {
    HasAfterRemovals(t, keys, i, keys[i]);
  }

  lemma FailedNext(t: Buckets, keys: seq<string>, n: nat)
    requires |t| == TABLE_SIZE && 0 < n <= |keys| && AllHashable(keys)
    ensures Failed(t, keys, n) ==
            if Has(RemoveAll(t, keys, n - 1), keys[n - 1]) then Failed(t, keys, n - 1) else Failed(t, keys, n - 1) + [keys[n - 1]]
  {}

  lemma MissingNext(present: set<string>, keys: seq<string>, n: nat)
    requires 0 < n <= |keys|
    ensures Missing(present, keys, n) ==
            if ThereInTurn(present, keys, n - 1) then Missing(present, keys, n - 1) else Missing(present, keys, n - 1) + [keys[n - 1]]
  {}

  /** delete_pair fails for exactly those positions. */
  lemma FailedAreMissing(t: Buckets, keys: seq<string>, n: nat)
    requires WellFormed(t) && n <= |keys| && AllHashable(keys)
    ensures Failed(t, keys, n) == Missing(Contents(t).Keys, keys, n)
  {
    for i := 0 to n
      invariant Failed(t, keys, i) == Missing(Contents(t).Keys, keys, i)
    {
      HasInTurn(t, keys, i);
      FailedNext(t, keys, i + 1);
      MissingNext(Contents(t).Keys, keys, i + 1);
    }
  }

  // ---- the commands

  method KvsWrite(ht: HashTable, pairs: seq<Pair>) returns (sent: seq<Message>)
    requires ht.Valid() && PairsHashable(pairs)
    modifies ht.Repr
    ensures ht.Valid() && fresh(ht.Repr - old(ht.Repr))
    ensures ht.model == PutAll(old(ht.model), pairs, |pairs|)
    ensures sent == PutAllMessages(old(ht.model), pairs, |pairs|)
  {
    ghost var before := ht.model;
    sent := [];
    for i := 0 to |pairs|
      invariant ht.Valid() && fresh(ht.Repr - old(ht.Repr))
      invariant ht.model == PutAll(before, pairs, i)
      invariant sent == PutAllMessages(before, pairs, i)
    {
      PutAllNext(before, pairs, i + 1);
      var messages := ht.WritePair(pairs[i].key, pairs[i].value);
      sent := sent + messages;
    }
  }

  method KvsRead(ht: HashTable, keys: seq<string>) returns (out: string)
    requires ht.Valid() && AllHashable(keys)
    ensures out == ReadText(ht.model, keys)
  {
    ghost var t := ht.model;
    var items := "";
    for i := 0 to |keys|
      invariant items == ReadItems(t, keys, i)
    {
      var result := ht.ReadPair(keys[i]);
      items := items + ReadItem(keys[i], result);
    }
    out := "[" + items + "]\n";
  }

  lemma MissingSnoc(missing: seq<string>, key: string)
    ensures Opened(MissingItems(missing + [key])) ==
            (if missing == [] then "[" else Opened(MissingItems(missing))) + MissingItem(key)
  {
    assert MissingItems(missing + [key]) == MissingItems(missing) + [MissingItem(key)];
    OpenedSnoc(MissingItems(missing), MissingItem(key));
  }

  /** The bracket is printed once, before the first missing key. */
  method PrintMissing(out: string, aux: int, key: string, ghost missing: seq<string>) returns (newOut: string, newAux: int)
    requires out == Opened(MissingItems(missing)) && aux == if missing == [] then 0 else 1
    ensures newOut == Opened(MissingItems(missing + [key])) && newAux == 1
  {
    newOut, newAux := out, aux;
    if aux == 0 {
      newOut := newOut + "[";
      newAux := 1;
    }
    var str := MissingItem(key);
    MissingSnoc(missing, key);
    newOut := newOut + str;
  }

  /** The table, the text, its flag and the messages after `n` turns of the loop of kvs_delete. */
  datatype Progress = Progress(t: Buckets, out: string, aux: int, sent: seq<Message>)

  ghost function Deleted(t: Buckets, keys: seq<string>, n: nat): Progress
    requires |t| == TABLE_SIZE && n <= |keys| && AllHashable(keys)
  {
    var failed := Failed(t, keys, n);
    Progress(RemoveAll(t, keys, n), Opened(MissingItems(failed)), if failed == [] then 0 else 1, RemoveAllMessages(t, keys, n))
  }

  /** One turn. */
  method DeleteTurn(ht: HashTable, keys: seq<string>, i: nat, out: string, aux: int, sent: seq<Message>, ghost t: Buckets)
    returns (newOut: string, newAux: int, newSent: seq<Message>)
    requires ht.Valid() && i < |keys| && AllHashable(keys) && |t| == TABLE_SIZE
    requires Progress(ht.model, out, aux, sent) == Deleted(t, keys, i)
    modifies ht.Repr
    ensures ht.Valid() && fresh(ht.Repr - old(ht.Repr))
    ensures Progress(ht.model, newOut, newAux, newSent) == Deleted(t, keys, i + 1)
  {
    newOut, newAux := out, aux;
    RemoveAllNext(t, keys, i + 1);
    var missing, messages := ht.DeletePair(keys[i]);
    newSent := sent + messages;
    if missing != 0 {
      newOut, newAux := PrintMissing(out, aux, keys[i], Failed(t, keys, i));
    }
  }

  /** The loop of kvs_delete. */
  method DeleteKeys(ht: HashTable, keys: seq<string>) returns (out: string, aux: int, sent: seq<Message>)
    requires ht.Valid() && AllHashable(keys)
    modifies ht.Repr
    ensures ht.Valid() && fresh(ht.Repr - old(ht.Repr))
    ensures Progress(ht.model, out, aux, sent) == Deleted(old(ht.model), keys, |keys|)
  {
    ghost var t := ht.model;
    out, aux, sent := "", 0, [];
    for i := 0 to |keys|
      invariant ht.Valid() && fresh(ht.Repr - old(ht.Repr))
      invariant Progress(ht.model, out, aux, sent) == Deleted(t, keys, i)
    {
      out, aux, sent := DeleteTurn(ht, keys, i, out, aux, sent, t);
    }
  }

  /** DELETE removes every listed key and reports, in order, those that were not there to remove. */
  method KvsDelete(ht: HashTable, keys: seq<string>) returns (out: string, sent: seq<Message>)
    requires ht.Valid() && AllHashable(keys)
    modifies ht.Repr
    ensures ht.Valid() && fresh(ht.Repr - old(ht.Repr))
    ensures ht.model == RemoveAll(old(ht.model), keys, |keys|)
    ensures Contents(ht.model) == Contents(old(ht.model)) - Listed(keys, |keys|)
    ensures out == DeleteReport(Missing(Contents(old(ht.model)).Keys, keys, |keys|))
    ensures sent == RemoveAllMessages(old(ht.model), keys, |keys|)
  {
    FailedAreMissing(ht.model, keys, |keys|);
    RemoveAllBindings(ht.model, keys, |keys|);
    var aux;
    out, aux, sent := DeleteKeys(ht, keys);
    if aux != 0 {
      out := out + "]\n";
    }
  }
}
