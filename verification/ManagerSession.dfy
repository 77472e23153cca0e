/**
  A manager's session on the heap: its own linked list of keys beside the store's
  lists of descriptors.  Sessions.dfy interleaves these effects; here is the code that
  performs them.
 */
module ManagerSessions {
  import opened CStrings
  import opened LinkedList
  import opened Table
  import opened HashTables
  import opened Operations
  import Sessions

  /** The store after the disconnect loop over `keys`. */
  function Drained(t: Buckets, keys: seq<string>, fd: int): (r: Buckets)
    requires |t| == TABLE_SIZE && AllHashable(keys)
    ensures |r| == TABLE_SIZE
    decreases keys
  {
    if keys == [] then t else Drained(RemoveSub(t, keys[0], fd), keys[1..], fd)
  }

  ghost function MapDrained(m: map<string, Entry>, keys: seq<string>, fd: int): map<string, Entry>
    decreases keys
  {
    if keys == [] then m else MapDrained(MapRemoveSub(m, keys[0], fd), keys[1..], fd)
  }

  lemma {:induction false} DrainedContents(t: Buckets, keys: seq<string>, fd: int)
    requires WellFormed(t) && AllHashable(keys)
    ensures WellFormed(Drained(t, keys, fd))
    ensures Contents(Drained(t, keys, fd)) == MapDrained(Contents(t), keys, fd)
    decreases keys
  {
    if keys != [] {
      RemoveSubIsUpdate(t, keys[0], fd);
      DrainedContents(RemoveSub(t, keys[0], fd), keys[1..], fd);
    }
  }

  function Minus(a: nat, b: nat): nat { if a < b then 0 else a - b }

  /** Each listed occurrence of a key takes one entry of the descriptor away, as long as there is one. */
  lemma {:induction false} DrainedCounts(m: map<string, Entry>, keys: seq<string>, fd: int, key: string, f: int)
    ensures var m' := MapDrained(m, keys, fd);
            && (key in m' <==> key in m)
            && (key in m ==> m'[key].value == m[key].value)
            && (key in m ==> Count(m'[key].subs, f) == if f == fd then Minus(Count(m[key].subs, f), Count(keys, key)) else Count(m[key].subs, f))
    decreases keys
  {
    if keys != [] {
      CountCons(keys, key);
      if key in m {
        RemoveFirstCounts(m[key].subs, fd, f);
        CountIn(m[key].subs, fd);
      }
      DrainedCounts(MapRemoveSub(m, keys[0], fd), keys[1..], fd, key, f);
    }
  }

  /**
    If no key lists the descriptor more often than the session lists the key, the
    disconnect loop leaves it in no list, and leaves every other descriptor's entries.
   */
  lemma DisconnectIsComplete(t: Buckets, keys: seq<string>, fd: int, key: string, f: int)
    requires WellFormed(t) && AllHashable(keys) && key in Contents(t)
    requires Count(Contents(t)[key].subs, fd) <= Count(keys, key)
    ensures WellFormed(Drained(t, keys, fd)) && key in Contents(Drained(t, keys, fd))
    ensures var subs := Contents(Drained(t, keys, fd))[key].subs;
            fd !in subs && (f != fd ==> Count(subs, f) == Count(Contents(t)[key].subs, f))
  {
    DrainedContents(t, keys, fd);
    DrainedCounts(Contents(t), keys, fd, key, fd);
    DrainedCounts(Contents(t), keys, fd, key, f);
    CountIn(Contents(Drained(t, keys, fd))[key].subs, fd);
  }

  // ---- the steps of Sessions.dfy are these operations

  /** The two steps of a subscribe leave the list and the chains that the operation below leaves. */
  lemma SubscribeSteps(s: Sessions.State, t: Buckets, m: nat, key: string)
    requires WellFormed(t) && Contents(t) == s.store && Hashable(key)
    requires m in s.sessions && s.sessions[m].pc == Sessions.Ready
    ensures var x := s.sessions[m];
            var s' := Sessions.Apply(Sessions.Apply(s, Sessions.ListKey(m, key)), Sessions.AddEntry(m));
            && s'.sessions == s.sessions[m := Sessions.Session(x.fd, x.keys + [key], Sessions.Ready)]
            && WellFormed(AddSub(t, key, x.fd)) && s'.store == Contents(AddSub(t, key, x.fd)) && s'.open == s.open
  {
    AddSubIsUpdate(t, key, s.sessions[m].fd);
  }

  lemma UnsubscribeSteps(s: Sessions.State, t: Buckets, m: nat, key: string)
    requires WellFormed(t) && Contents(t) == s.store && Hashable(key)
    requires m in s.sessions && s.sessions[m].pc == Sessions.Ready
    ensures var x := s.sessions[m];
            var s' := Sessions.Apply(Sessions.Apply(s, Sessions.UnlistKey(m, key)), Sessions.RemoveEntry(m));
            && s'.sessions == s.sessions[m := Sessions.Session(x.fd, RemoveFirst(x.keys, key), Sessions.Ready)]
            && WellFormed(RemoveSub(t, key, x.fd)) && s'.store == Contents(RemoveSub(t, key, x.fd)) && s'.open == s.open
  {
    RemoveSubIsUpdate(t, key, s.sessions[m].fd);
  }

  /** The turns of a disconnect loop, one after the other. */
  ghost function DrainAll(s: Sessions.State, m: nat): Sessions.State
    requires m in s.sessions && s.sessions[m].pc == Sessions.Leaving
    decreases |s.sessions[m].keys|
  {
    if s.sessions[m].keys == [] then s else DrainAll(Sessions.Apply(s, Sessions.Drain(m)), m)
  }

  lemma DrainStep(s: Sessions.State, t: Buckets, m: nat)
    requires WellFormed(t) && Contents(t) == s.store
    requires m in s.sessions && s.sessions[m].pc == Sessions.Leaving && s.sessions[m].keys != [] && AllHashable(s.sessions[m].keys)
    ensures var x, s' := s.sessions[m], Sessions.Apply(s, Sessions.Drain(m));
            var t' := RemoveSub(t, x.keys[0], x.fd);
            && s'.sessions == s.sessions[m := Sessions.Session(x.fd, x.keys[1..], Sessions.Leaving)] && s'.open == s.open
            && WellFormed(t') && Contents(t') == s'.store
            && Drained(t, x.keys, x.fd) == Drained(t', x.keys[1..], x.fd)
            && DrainAll(s, m) == DrainAll(s', m)
  {
    RemoveSubIsUpdate(t, s.sessions[m].keys[0], s.sessions[m].fd);
  }

  lemma {:induction false} DisconnectSteps(s: Sessions.State, t: Buckets, m: nat)
    requires WellFormed(t) && Contents(t) == s.store
    requires m in s.sessions && s.sessions[m].pc == Sessions.Leaving && AllHashable(s.sessions[m].keys)
    ensures var x, s' := s.sessions[m], DrainAll(s, m);
            && s'.sessions == s.sessions[m := Sessions.Session(x.fd, [], Sessions.Leaving)]
            && WellFormed(Drained(t, x.keys, x.fd)) && s'.store == Contents(Drained(t, x.keys, x.fd)) && s'.open == s.open
    decreases |s.sessions[m].keys|
  {
    var x := s.sessions[m];
    if x.keys == [] {
      assert s.sessions == s.sessions[m := Sessions.Session(x.fd, [], Sessions.Leaving)];
    } else {
      DrainStep(s, t, m);
      DisconnectSteps(Sessions.Apply(s, Sessions.Drain(m)), RemoveSub(t, x.keys[0], x.fd), m);
    }
  }

  class ManagerSession {
    const fdNotification: int
    var keyList: ListNode?<string>
    ghost var nodes: seq<ListNode<string>>
    ghost var Repr: set<object>

    ghost predicate Valid()
      reads this, Repr
      ensures Valid() ==> this in Repr
    {
      this in Repr && (forall n :: n in nodes ==> n in Repr) && IsList(keyList, nodes)
    }

    /** The keys the session has listed, oldest first. */
    ghost function Keys(): seq<string>
      requires Valid()
      reads this, Repr
    {
      Items(nodes)
    }

    constructor (fdNotification: int)
      ensures Valid() && fresh(Repr) && Keys() == [] && this.fdNotification == fdNotification
    {
      this.fdNotification, keyList, nodes, Repr := fdNotification, null, [], {this};
    }

    method ListKey(key: string)
      requires Valid()
      modifies Repr
      ensures Valid() && fresh(Repr - old(Repr)) && Keys() == old(Keys()) + [key]
    {
      ghost var n := |nodes|;
      keyList, nodes := AppendListNode(keyList, nodes, key);
      Repr := Repr + {nodes[n]};
    }

    /** OP_CODE_SUBSCRIBE: first the session's list, then the store. */
    method Subscribe(ht: HashTable, key: string) returns (found: int)
      requires Valid() && ht.Valid() && Hashable(key) && Repr !! ht.Repr
      modifies Repr, ht.Repr
      ensures Valid() && ht.Valid() && fresh(Repr - old(Repr)) && fresh(ht.Repr - old(ht.Repr))
      ensures Keys() == old(Keys()) + [key]
      ensures ht.model == AddSub(old(ht.model), key, fdNotification)
      ensures found == if Has(old(ht.model), key) then 1 else 0
    {
      ListKey(key);
      found := ht.WriteSubscription(key, fdNotification);
    }

    method UnlistKey(key: string)
      requires Valid()
      modifies Repr
      ensures Valid() && Repr == old(Repr) && Keys() == RemoveFirst(old(Keys()), key)
    {
      keyList, nodes := DeleteListNode(keyList, nodes, key);
    }

    /** OP_CODE_UNSUBSCRIBE: one occurrence of the key goes from each side. */
    method Unsubscribe(ht: HashTable, key: string) returns (found: int)
      requires Valid() && ht.Valid() && Hashable(key) && Repr !! ht.Repr
      modifies Repr, ht.Repr
      ensures Valid() && ht.Valid() && Repr == old(Repr) && fresh(ht.Repr - old(ht.Repr))
      ensures Keys() == RemoveFirst(old(Keys()), key)
      ensures ht.model == RemoveSub(old(ht.model), key, fdNotification)
      ensures found == if Has(old(ht.model), key) then 1 else 0
    {
      UnlistKey(key);
      found := ht.DeleteSubscription(key, fdNotification);
    }

    /** key_list = key_list->next */
    method DropFirst()
      requires Valid() && keyList != null
      modifies this
      ensures Valid() && Repr == old(Repr) && Keys() == old(Keys())[1..]
    {
      Rest(nodes);
      keyList, nodes := keyList.next, nodes[1..];
    }

    /** One turn of the disconnect loop. */
    method DrainOne(ht: HashTable)
      requires Valid() && ht.Valid() && keyList != null && Hashable(Keys()[0]) && Repr !! ht.Repr
      modifies Repr, ht.Repr
      ensures Valid() && ht.Valid() && Repr == old(Repr) && fresh(ht.Repr - old(ht.Repr))
      ensures Keys() == old(Keys())[1..]
      ensures ht.model == RemoveSub(old(ht.model), old(Keys())[0], fdNotification)
    {
      assert keyList.item == Keys()[0];
      var found := ht.DeleteSubscription(keyList.item, fdNotification);
      DropFirst();
    }

    /** OP_CODE_DISCONNECT: every listed key is unsubscribed once, and the next session starts with an empty list. */
    method Disconnect(ht: HashTable)
      requires Valid() && ht.Valid() && AllHashable(Keys()) && Repr !! ht.Repr
      modifies Repr, ht.Repr
      ensures Valid() && ht.Valid() && fresh(ht.Repr - old(ht.Repr)) && Keys() == []
      ensures ht.model == Drained(old(ht.model), old(Keys()), fdNotification)
    {
      while keyList != null
        invariant Valid() && ht.Valid() && Repr == old(Repr) && Repr !! ht.Repr && fresh(ht.Repr - old(ht.Repr))
        invariant AllHashable(Keys())
        invariant Drained(ht.model, Keys(), fdNotification) == Drained(old(ht.model), old(Keys()), fdNotification)
        decreases |Keys()|
      {
        DrainOne(ht);
      }
    }
  }
}
