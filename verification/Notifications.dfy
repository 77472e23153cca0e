/**
  What each descriptor is told over a whole history of store operations.  One side
  runs the store with its subscriber lists; the other never looks at the store and
  counts, for one key and one descriptor, the subscriptions that are alive.
 */
module Notifications {
  import opened LinkedList
  import opened Table
  import opened Operations

  datatype Event =
    | Write(key: string, value: string)
    | Delete(key: string)
    | Subscribe(key: string, fd: int)
    | Unsubscribe(key: string, fd: int)
    | ClearAll

  // ---- the store

  function Effect(m: map<string, Entry>, e: Event): map<string, Entry> {
    match e
    case Write(key, value) => MapPut(m, key, value)
    case Delete(key) => MapRemove(m, key)
    case Subscribe(key, fd) => MapAddSub(m, key, fd)
    case Unsubscribe(key, fd) => MapRemoveSub(m, key, fd)
    case ClearAll => MapClearSubs(m)
  }

  function Sent(m: map<string, Entry>, e: Event): seq<Message> {
    match e
    case Write(key, value) => MapPutMessages(m, key, value)
    case Delete(key) => MapRemoveMessages(m, key)
    case _ => []
  }

  /** The store a history of events makes of `m`, and what it sends meanwhile. */
  function StoreFrom(m: map<string, Entry>, h: seq<Event>): map<string, Entry> {
    if h == [] then m else Effect(StoreFrom(m, h[..|h| - 1]), h[|h| - 1])
  }

  function LogFrom(m: map<string, Entry>, h: seq<Event>): seq<Message> {
    if h == [] then [] else LogFrom(m, h[..|h| - 1]) + Sent(StoreFrom(m, h[..|h| - 1]), h[|h| - 1])
  }

  function Store(h: seq<Event>): map<string, Entry> { StoreFrom(map[], h) }
  function Log(h: seq<Event>): seq<Message> { LogFrom(map[], h) }

  /** The texts written to one descriptor, in order. */
  function TextsTo(log: seq<Message>, fd: int): seq<string> {
    if log == [] then []
    else if log[0].fd == fd then [log[0].text] + TextsTo(log[1..], fd)
    else TextsTo(log[1..], fd)
  }

  // ---- the history alone

  /** Was the key last written rather than deleted? */
  predicate Present(h: seq<Event>, key: string) {
    h != [] &&
    var e := h[|h| - 1];
    if e.Write? && e.key == key then true
    else if e.Delete? && e.key == key then false
    else Present(h[..|h| - 1], key)
  }

  /** The subscriptions of `fd` to `key` still alive: made while the key was there, not undone, the key not deleted since. */
  function Alive(h: seq<Event>, key: string, fd: int): nat {
    if h == [] then 0
    else
      var before := Alive(h[..|h| - 1], key, fd);
      match h[|h| - 1]
      case Write(_, _) => before
      case Delete(k) => if k == key then 0 else before
      case Subscribe(k, f) => if k == key && f == fd && Present(h[..|h| - 1], key) then before + 1 else before
      case Unsubscribe(k, f) => if k == key && f == fd && before > 0 then before - 1 else before
      case ClearAll => 0
  }

  function Copies(n: nat, text: string): (r: seq<string>)
    ensures |r| == n && forall i :: 0 <= i < n ==> r[i] == text
  {
    seq(n, _ => text)
  }

  /** What `fd` should have been told: once per live subscription for each overwrite and each delete of a present key. */
  function Expected(h: seq<Event>, fd: int): seq<string> {
    if h == [] then []
    else
      var before, e := h[..|h| - 1], h[|h| - 1];
      Expected(before, fd) +
      match e
      case Write(key, value) => if Present(before, key) then Copies(Alive(before, key, fd), WriteText(key, value)) else []
      case Delete(key) => if Present(before, key) then Copies(Alive(before, key, fd), DeleteText(key)) else []
      case _ => []
  }

  // ---- they agree

  lemma {:induction false} TextsAppend(a: seq<Message>, b: seq<Message>, fd: int)
    ensures TextsTo(a + b, fd) == TextsTo(a, fd) + TextsTo(b, fd)
  {
    if a == [] {
      assert a + b == b;
    } else {
      assert (a + b)[1..] == a[1..] + b;
      TextsAppend(a[1..], b, fd);
    }
  }

  /** A notification round writes one copy per entry. */
  lemma {:induction false} TextsOfNotify(subs: seq<int>, text: string, fd: int)
    ensures TextsTo(Notify(subs, text), fd) == Copies(Count(subs, fd), text)
  {
    if subs != [] {
      CountCons(subs, fd);
      TextsOfNotify(subs[1..], text, fd);
      assert Notify(subs, text)[1..] == Notify(subs[1..], text);
    }
  }

  /** The store's lists hold exactly the live subscriptions. */
  lemma {:induction false} StoreCounts(h: seq<Event>, key: string, fd: int)
    ensures key in Store(h) <==> Present(h, key)
    ensures Alive(h, key, fd) == if key in Store(h) then Count(Store(h)[key].subs, fd) else 0
  {
    if h != [] {
      var before, e := h[..|h| - 1], h[|h| - 1];
      StoreCounts(before, key, fd);
      var m := Store(before);
      if key in m {
        match e
        case Subscribe(k, f) => CountSnoc(m[key].subs, f, fd);
        case Unsubscribe(k, f) =>
          RemoveFirstCounts(m[key].subs, f, fd);
          CountIn(m[key].subs, fd);
        case _ =>
      }
    }
  }

  /** Notification exactness: after any history, every descriptor has been told exactly what the history says, in order. */
  lemma {:induction false} ToldExactly(h: seq<Event>, fd: int)
    ensures TextsTo(Log(h), fd) == Expected(h, fd)
  {
    if h != [] {
      var before, e := h[..|h| - 1], h[|h| - 1];
      ToldExactly(before, fd);
      TextsAppend(Log(before), Sent(Store(before), e), fd);
      if e.Write? || e.Delete? {
        StoreCounts(before, e.key, fd);
        if e.key in Store(before) {
          TextsOfNotify(Store(before)[e.key].subs, if e.Write? then WriteText(e.key, e.value) else DeleteText(e.key), fd);
        }
      }
    }
  }

  /** After a delete the descriptor has no live subscription to the key until it subscribes anew, even if the key comes back. */
  lemma {:induction false} SilentAfterDelete(h: seq<Event>, key: string, later: seq<Event>, fd: int)
    requires Subscribe(key, fd) !in later
    ensures Alive(h + [Delete(key)] + later, key, fd) == 0
  {
    var all := h + [Delete(key)] + later;
    if later == [] {
      assert all[|all| - 1] == Delete(key);
    } else {
      assert all[..|all| - 1] == h + [Delete(key)] + later[..|later| - 1];
      assert all[|all| - 1] == later[|later| - 1];
      assert later[|later| - 1] in later;
      SilentAfterDelete(h, key, later[..|later| - 1], fd);
    }
  }

  // ---- the heap commands are such events

  function Writes(pairs: seq<Pair>, n: nat): seq<Event>
    requires n <= |pairs|
  {
    if n == 0 then [] else Writes(pairs, n - 1) + [Write(pairs[n - 1].key, pairs[n - 1].value)]
  }

  function Deletes(keys: seq<string>, n: nat): seq<Event>
    requires n <= |keys|
  {
    if n == 0 then [] else Deletes(keys, n - 1) + [Delete(keys[n - 1])]
  }

  lemma FromSnoc(m: map<string, Entry>, h: seq<Event>, e: Event)
    ensures StoreFrom(m, h + [e]) == Effect(StoreFrom(m, h), e)
    ensures LogFrom(m, h + [e]) == LogFrom(m, h) + Sent(StoreFrom(m, h), e)
  {
    assert (h + [e])[..|h|] == h;
  }

  lemma {:induction false} StoreAppend(m: map<string, Entry>, g: seq<Event>, h: seq<Event>)
    ensures StoreFrom(m, g + h) == StoreFrom(StoreFrom(m, g), h)
  {
    if h == [] {
      assert g + h == g;
    } else {
      StoreAppend(m, g, h[..|h| - 1]);
      assert (g + h)[..|g + h| - 1] == g + h[..|h| - 1];
    }
  }

  lemma LogSnoc(m: map<string, Entry>, g: seq<Event>, h: seq<Event>, e: Event)
    ensures LogFrom(m, g + (h + [e])) == LogFrom(m, g + h) + Sent(StoreFrom(StoreFrom(m, g), h), e)
  {
    StoreAppend(m, g, h);
    Assoc(g, h, [e]);
    FromSnoc(m, g + h, e);
  }

  lemma LogAppendNext(m: map<string, Entry>, g: seq<Event>, h: seq<Event>, e: Event)
    requires LogFrom(m, g + h) == LogFrom(m, g) + LogFrom(StoreFrom(m, g), h)
    ensures LogFrom(m, g + (h + [e])) == LogFrom(m, g) + LogFrom(StoreFrom(m, g), h + [e])
  {
    var n := StoreFrom(m, g);
    LogSnoc(m, g, h, e);
    FromSnoc(n, h, e);
    Assoc(LogFrom(m, g), LogFrom(n, h), Sent(StoreFrom(n, h), e));
  }

  lemma {:induction false} LogAppend(m: map<string, Entry>, g: seq<Event>, h: seq<Event>)
    ensures LogFrom(m, g + h) == LogFrom(m, g) + LogFrom(StoreFrom(m, g), h)
  {
    if h == [] {
      assert g + h == g;
    } else {
      var before, e := h[..|h| - 1], h[|h| - 1];
      LogAppend(m, g, before);
      assert h == before + [e];
      LogAppendNext(m, g, before, e);
    }
  }

  lemma WriteEventsNext(m: map<string, Entry>, pairs: seq<Pair>, n: nat)
    requires 0 < n <= |pairs|
    requires StoreFrom(m, Writes(pairs, n - 1)) == MapPutAll(m, pairs, n - 1)
    requires LogFrom(m, Writes(pairs, n - 1)) == MapPutAllMessages(m, pairs, n - 1)
    ensures StoreFrom(m, Writes(pairs, n)) == MapPutAll(m, pairs, n)
    ensures LogFrom(m, Writes(pairs, n)) == MapPutAllMessages(m, pairs, n)
  {
    FromSnoc(m, Writes(pairs, n - 1), Write(pairs[n - 1].key, pairs[n - 1].value));
  }

  lemma WriteEvents(m: map<string, Entry>, pairs: seq<Pair>, n: nat)
    requires n <= |pairs|
    ensures StoreFrom(m, Writes(pairs, n)) == MapPutAll(m, pairs, n)
    ensures LogFrom(m, Writes(pairs, n)) == MapPutAllMessages(m, pairs, n)
  {
    for i := 0 to n
      invariant StoreFrom(m, Writes(pairs, i)) == MapPutAll(m, pairs, i)
      invariant LogFrom(m, Writes(pairs, i)) == MapPutAllMessages(m, pairs, i)
    {
      WriteEventsNext(m, pairs, i + 1);
    }
  }

  lemma DeleteEventsNext(m: map<string, Entry>, keys: seq<string>, n: nat)
    requires 0 < n <= |keys|
    requires StoreFrom(m, Deletes(keys, n - 1)) == m - Listed(keys, n - 1)
    requires LogFrom(m, Deletes(keys, n - 1)) == MapRemoveAllMessages(m, keys, n - 1)
    ensures StoreFrom(m, Deletes(keys, n)) == m - Listed(keys, n)
    ensures LogFrom(m, Deletes(keys, n)) == MapRemoveAllMessages(m, keys, n)
  {
    FromSnoc(m, Deletes(keys, n - 1), Delete(keys[n - 1]));
    ListedNext(m, keys, n);
  }

  lemma DeleteEvents(m: map<string, Entry>, keys: seq<string>, n: nat)
    requires n <= |keys|
    ensures StoreFrom(m, Deletes(keys, n)) == m - Listed(keys, n)
    ensures LogFrom(m, Deletes(keys, n)) == MapRemoveAllMessages(m, keys, n)
  {
    RemoveNone(m, keys);
    for i := 0 to n
      invariant StoreFrom(m, Deletes(keys, i)) == m - Listed(keys, i)
      invariant LogFrom(m, Deletes(keys, i)) == MapRemoveAllMessages(m, keys, i)
    {
      DeleteEventsNext(m, keys, i + 1);
    }
  }

  /** A table that stands for the store of a history still does after a whole command, and the command sent what its events send. */
  lemma BatchesAreEvents(h: seq<Event>, t: Buckets, pairs: seq<Pair>, keys: seq<string>)
    requires WellFormed(t) && Contents(t) == Store(h) && PairsHashable(pairs) && AllHashable(keys)
    ensures var t' := PutAll(t, pairs, |pairs|);
            && WellFormed(t') && Contents(t') == Store(h + Writes(pairs, |pairs|))
            && Log(h + Writes(pairs, |pairs|)) == Log(h) + PutAllMessages(t, pairs, |pairs|)
    ensures var t' := RemoveAll(t, keys, |keys|);
            && WellFormed(t') && Contents(t') == Store(h + Deletes(keys, |keys|))
            && Log(h + Deletes(keys, |keys|)) == Log(h) + RemoveAllMessages(t, keys, |keys|)
  {
    PutAllContents(t, pairs, |pairs|);
    WriteEvents(Store(h), pairs, |pairs|);
    StoreAppend(map[], h, Writes(pairs, |pairs|));
    LogAppend(map[], h, Writes(pairs, |pairs|));
    RemoveAllMeaning(t, keys, |keys|);
    DeleteEvents(Store(h), keys, |keys|);
    StoreAppend(map[], h, Deletes(keys, |keys|));
    LogAppend(map[], h, Deletes(keys, |keys|));
  }
}
