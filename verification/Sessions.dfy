/**
  The two subscription indexes: every key's list of descriptors in the store, and
  every session's own list of keys.  They are updated at different moments by
  different threads, so they differ; what every step keeps is that the store never
  lists a descriptor more often than its session accounts for.

  Intent followed: a session starts with an empty key list and ends at disconnect.
  SIGUSR1 is followed as written: it closes the pipes of the sessions it finds but
  their threads go on, with a descriptor number that is no longer theirs.
 */
module Sessions {
  import opened CStrings
  import opened LinkedList
  import opened Table

  /** Where a manager thread stands between two effects on shared state. */
  datatype Pc = Ready | Adding(key: string) | Removing(key: string) | Leaving

  datatype Session = Session(fd: int, keys: seq<string>, pc: Pc)

  /** `open` maps every open notification descriptor to the manager that opened it. */
  datatype State = State(store: map<string, Entry>, sessions: map<nat, Session>, open: map<int, nat>)

  datatype Action =
    | Open(m: nat, fd: int)
    | ListKey(m: nat, key: string)        // subscribe: the key goes to the session's list ...
    | AddEntry(m: nat)                    // ... and then the descriptor to the key's list
    | UnlistKey(m: nat, key: string)      // unsubscribe, in the same order
    | RemoveEntry(m: nat)
    | Leave(m: nat)                       // disconnect
    | Drain(m: nat)                       // one turn of its loop over the key list
    | Close(m: nat)
    | WriteKey(key: string, value: string)
    | DeleteKey(key: string)
    | Signal

  predicate Enabled(s: State, a: Action) {
    match a
    case Open(m, fd) => m < MAX_SESSION_COUNT && m !in s.sessions && fd !in s.open
    case ListKey(m, _) => m in s.sessions && s.sessions[m].pc == Ready
    case AddEntry(m) => m in s.sessions && s.sessions[m].pc.Adding?
    case UnlistKey(m, _) => m in s.sessions && s.sessions[m].pc == Ready
    case RemoveEntry(m) => m in s.sessions && s.sessions[m].pc.Removing?
    case Leave(m) => m in s.sessions && s.sessions[m].pc == Ready
    case Drain(m) => m in s.sessions && s.sessions[m].pc == Leaving && s.sessions[m].keys != []
    case Close(m) => m in s.sessions && s.sessions[m].pc == Leaving && s.sessions[m].keys == []
    case WriteKey(_, _) => true
    case DeleteKey(_) => true
    case Signal => true
  }

  function SetSession(s: State, m: nat, x: Session): State {
    s.(sessions := s.sessions[m := x])
  }

  function Apply(s: State, a: Action): State
    requires Enabled(s, a)
  {
    match a
    case Open(m, fd) => SetSession(s, m, Session(fd, [], Ready)).(open := s.open[fd := m])
    case ListKey(m, key) =>
      var x := s.sessions[m];
      SetSession(s, m, x.(keys := x.keys + [key], pc := Adding(key)))
    case AddEntry(m) =>
      var x := s.sessions[m];
      SetSession(s, m, x.(pc := Ready)).(store := MapAddSub(s.store, x.pc.key, x.fd))
    case UnlistKey(m, key) =>
      var x := s.sessions[m];
      SetSession(s, m, x.(keys := RemoveFirst(x.keys, key), pc := Removing(key)))
    case RemoveEntry(m) =>
      var x := s.sessions[m];
      SetSession(s, m, x.(pc := Ready)).(store := MapRemoveSub(s.store, x.pc.key, x.fd))
    case Leave(m) => SetSession(s, m, s.sessions[m].(pc := Leaving))
    case Drain(m) =>
      var x := s.sessions[m];
      SetSession(s, m, x.(keys := x.keys[1..])).(store := MapRemoveSub(s.store, x.keys[0], x.fd))
    case Close(m) => s.(sessions := s.sessions - {m}, open := s.open - {s.sessions[m].fd})
    case WriteKey(key, value) => s.(store := MapPut(s.store, key, value))
    case DeleteKey(key) => s.(store := MapRemove(s.store, key))
    case Signal =>
      // a leaving session has already cleared its slot in `fifos`, so its pipe is skipped
      s.(store := MapClearSubs(s.store), open := s.open - set m | m in s.sessions && s.sessions[m].pc != Leaving :: s.sessions[m].fd)
  }

  /** What an action writes to notification pipes. */
  function Emits(s: State, a: Action): seq<Message> {
    match a
    case WriteKey(key, value) => MapPutMessages(s.store, key, value)
    case DeleteKey(key) => MapRemoveMessages(s.store, key)
    case _ => []
  }

  predicate Init(s: State) {
    s.sessions == map[] && s.open == map[] && forall k :: k in s.store ==> s.store[k].subs == []
  }

  function Exec(s: State, actions: seq<Action>): Option<State> {
    if actions == [] then Some(s)
    else
      var m := Exec(s, actions[..|actions| - 1]);
      var a := actions[|actions| - 1];
      if m.Some? && Enabled(m.value, a) then Some(Apply(m.value, a)) else None
  }

  // ---- the invariant

  /** The session's descriptor is open and is its own. */
  predicate Live(s: State, m: nat) {
    m in s.sessions && s.sessions[m].fd in s.open && s.open[s.sessions[m].fd] == m
  }

  /** How many entries of its descriptor under `key` a session accounts for, less the one it is about to add. */
  ghost function Owed(x: Session, key: string): int {
    (Count(x.keys, key) as int) + (if x.pc == Removing(key) then 1 else 0) - (if x.pc == Adding(key) then 1 else 0)
  }

  /** Each open descriptor belongs to a session that has it. */
  ghost predicate Owned(s: State) {
    forall f :: f in s.open ==> s.open[f] in s.sessions && s.sessions[s.open[f]].fd == f
  }

  /** The store lists open descriptors only ... */
  ghost predicate EntriesOpen(s: State) {
    forall k, f :: k in s.store && f in s.store[k].subs ==> f in s.open
  }

  /** ... and none of them more often than its session accounts for. */
  ghost predicate Agree(s: State)
    requires Owned(s)
  {
    forall k, f {:trigger Count(s.store[k].subs, f)} :: k in s.store && f in s.open ==>
      Count(s.store[k].subs, f) <= Owed(s.sessions[s.open[f]], k)
  }

  /** A key is listed before its entry is added. */
  ghost predicate Listed(s: State) {
    forall m :: m in s.sessions && s.sessions[m].pc.Adding? ==> s.sessions[m].pc.key in s.sessions[m].keys
  }

  ghost predicate Invariant(s: State) {
    Owned(s) && EntriesOpen(s) && Agree(s) && Listed(s)
  }

  /**
    What must hold before a step.  A session may add an entry under an absent key (which
    adds nothing), under its own descriptor, or under a number that is somebody else's by
    now if that session still accounts for one entry more.  It may close a number that is
    somebody else's only if nobody lists it.
   */
  ghost predicate Fair(s: State, a: Action)
    requires Owned(s)
  {
    match a
    case AddEntry(m) =>
      && m in s.sessions && s.sessions[m].pc.Adding?
      && var x, key := s.sessions[m], s.sessions[m].pc.key;
         key in s.store ==>
           && x.fd in s.open
           && (s.open[x.fd] == m || Count(s.store[key].subs, x.fd) < Owed(s.sessions[s.open[x.fd]], key))
    case Close(m) =>
      && m in s.sessions
      && var fd := s.sessions[m].fd;
         fd in s.open && s.open[fd] != m ==> forall k :: k in s.store ==> fd !in s.store[k].subs
    case _ => true
  }

  // ---- every fair step keeps it

  /** What AddEntry, RemoveEntry and Drain leave under a key. */
  lemma EntryCounts(store: map<string, Entry>, key: string, fd: int, k: string, f: int)
    requires k in store
    ensures k in MapAddSub(store, key, fd) && k in MapRemoveSub(store, key, fd)
    ensures Count(MapAddSub(store, key, fd)[k].subs, f) == Count(store[k].subs, f) + if k == key && f == fd then 1 else 0
    ensures Count(MapRemoveSub(store, key, fd)[k].subs, f) ==
            if k == key && f == fd && fd in store[k].subs then Count(store[k].subs, f) - 1 else Count(store[k].subs, f)
  {
    CountSnoc(store[k].subs, fd, f);
    RemoveFirstCounts(store[k].subs, fd, f);
  }

  lemma OwnedKeeps(s: State, a: Action)
    requires Invariant(s) && Enabled(s, a)
    ensures Owned(Apply(s, a)) && Listed(Apply(s, a))
  {
    if a.ListKey? {
      var x := s.sessions[a.m];
      assert (x.keys + [a.key])[|x.keys|] == a.key;
    }
  }

  /** The session's list changes and what it is about to do with it, so that it accounts for the same. */
  lemma ListedAgrees(s: State, a: Action, k: string, f: int)
    requires Invariant(s) && Enabled(s, a) && (a.ListKey? || a.UnlistKey? || a.Leave?) && k in s.store && f in s.open
    ensures Count(s.store[k].subs, f) <= Owed(Apply(s, a).sessions[s.open[f]], k)
  {
    var x := s.sessions[a.m];
    assert Count(s.store[k].subs, f) <= Owed(s.sessions[s.open[f]], k);
    if a.ListKey? {
      CountSnoc(x.keys, a.key, k);
    } else if a.UnlistKey? {
      RemoveFirstCounts(x.keys, a.key, k);
    }
  }

  lemma ListKeeps(s: State, a: Action)
    requires Invariant(s) && Enabled(s, a) && (a.ListKey? || a.UnlistKey? || a.Leave?)
    ensures Invariant(Apply(s, a))
  {
    var s' := Apply(s, a);
    forall k, f {:trigger Count(s'.store[k].subs, f)} | k in s'.store && f in s'.open
      ensures Count(s'.store[k].subs, f) <= Owed(s'.sessions[s'.open[f]], k)
    {
      ListedAgrees(s, a, k, f);
    }
    OwnedKeeps(s, a);
  }

  lemma AddKeeps(s: State, m: nat)
    requires Invariant(s) && Enabled(s, AddEntry(m)) && Fair(s, AddEntry(m))
    ensures Invariant(Apply(s, AddEntry(m)))
  {
    var s', x := Apply(s, AddEntry(m)), s.sessions[m];
    forall k, f {:trigger Count(s'.store[k].subs, f)} | k in s'.store && f in s'.open
      ensures Count(s'.store[k].subs, f) <= Owed(s'.sessions[s'.open[f]], k)
    {
      assert Count(s.store[k].subs, f) <= Owed(s.sessions[s.open[f]], k);
      EntryCounts(s.store, x.pc.key, x.fd, k, f);
    }
  }

  /** One entry and one listed key less: the session accounts for the rest. */
  lemma RemovedAgrees(s: State, a: Action, k: string, f: int)
    requires Invariant(s) && Enabled(s, a) && (a.RemoveEntry? || a.Drain?) && k in s.store && f in s.open
    ensures var s' := Apply(s, a);
            k in s'.store && Count(s'.store[k].subs, f) <= Owed(s'.sessions[s.open[f]], k)
  {
    var x := s.sessions[a.m];
    assert Count(s.store[k].subs, f) <= Owed(s.sessions[s.open[f]], k);
    EntryCounts(s.store, if a.Drain? then x.keys[0] else x.pc.key, x.fd, k, f);
    CountIn(s.store[k].subs, f);
    if a.Drain? {
      CountCons(x.keys, k);
    }
  }

  lemma RemoveKeeps(s: State, a: Action)
    requires Invariant(s) && Enabled(s, a) && (a.RemoveEntry? || a.Drain?)
    ensures Invariant(Apply(s, a))
  {
    var s' := Apply(s, a);
    forall k, f {:trigger Count(s'.store[k].subs, f)} | k in s'.store && f in s'.open
      ensures Count(s'.store[k].subs, f) <= Owed(s'.sessions[s'.open[f]], k)
    {
      RemovedAgrees(s, a, k, f);
    }
  }

  lemma StoreKeeps(s: State, a: Action)
    requires Invariant(s) && (a.WriteKey? || a.DeleteKey?)
    ensures Invariant(Apply(s, a))
  {
    var s' := Apply(s, a);
    forall k, f {:trigger Count(s'.store[k].subs, f)} | k in s'.store && f in s'.open
      ensures Count(s'.store[k].subs, f) <= Owed(s'.sessions[s'.open[f]], k)
    {
      assert k in s.store ==> Count(s.store[k].subs, f) <= Owed(s.sessions[s.open[f]], k);
      CountIn(s.sessions[s.open[f]].keys, k);
    }
  }

  lemma OpenKeeps(s: State, m: nat, fd: int)
    requires Invariant(s) && Enabled(s, Open(m, fd))
    ensures Invariant(Apply(s, Open(m, fd)))
  {
    var s' := Apply(s, Open(m, fd));
    forall k, f {:trigger Count(s'.store[k].subs, f)} | k in s'.store && f in s'.open
      ensures Count(s'.store[k].subs, f) <= Owed(s'.sessions[s'.open[f]], k)
    {
      CountIn(s.store[k].subs, f);
      assert f in s.open ==> Count(s.store[k].subs, f) <= Owed(s.sessions[s.open[f]], k);
    }
  }

  /** When a session with its own descriptor reaches the end of its disconnect loop, no list holds the descriptor. */
  lemma DisconnectLeavesNoEntry(s: State, m: nat, key: string)
    requires Invariant(s) && Enabled(s, Close(m)) && Live(s, m) && key in s.store
    ensures s.sessions[m].fd !in s.store[key].subs
  {
    var fd := s.sessions[m].fd;
    CountIn(s.store[key].subs, fd);
    assert Count(s.store[key].subs, fd) <= Owed(s.sessions[s.open[fd]], key);
  }

  lemma CloseKeeps(s: State, m: nat)
    requires Invariant(s) && Enabled(s, Close(m)) && Fair(s, Close(m))
    ensures Invariant(Apply(s, Close(m)))
  {
    var s', fd := Apply(s, Close(m)), s.sessions[m].fd;
    forall k, f | k in s'.store && f in s'.store[k].subs ensures f in s'.open {
      if Live(s, m) {
        DisconnectLeavesNoEntry(s, m, k);
      }
    }
    forall k, f {:trigger Count(s'.store[k].subs, f)} | k in s'.store && f in s'.open
      ensures Count(s'.store[k].subs, f) <= Owed(s'.sessions[s'.open[f]], k)
    {
      assert Count(s.store[k].subs, f) <= Owed(s.sessions[s.open[f]], k);
    }
  }

  lemma SignalKeeps(s: State)
    requires Invariant(s)
    ensures Invariant(Apply(s, Signal))
  {
    var s' := Apply(s, Signal);
    forall k, f {:trigger Count(s'.store[k].subs, f)} | k in s'.store && f in s'.open
      ensures Count(s'.store[k].subs, f) <= Owed(s'.sessions[s'.open[f]], k)
    {
      CountIn(s.sessions[s.open[f]].keys, k);
    }
  }

  lemma ActionKeeps(s: State, a: Action)
    requires Invariant(s) && Enabled(s, a) && Fair(s, a)
    ensures Invariant(Apply(s, a))
  {
    match a
    case Open(m, fd) => OpenKeeps(s, m, fd);
    case ListKey(_, _) => ListKeeps(s, a);
    case AddEntry(m) => AddKeeps(s, m);
    case UnlistKey(_, _) => ListKeeps(s, a);
    case RemoveEntry(_) => RemoveKeeps(s, a);
    case Leave(_) => ListKeeps(s, a);
    case Drain(_) => RemoveKeeps(s, a);
    case Close(m) => CloseKeeps(s, m);
    case WriteKey(_, _) => StoreKeeps(s, a);
    case DeleteKey(_) => StoreKeeps(s, a);
    case Signal => SignalKeeps(s);
  }

  // ---- and no other step does

  lemma AddsExactly(s: State, m: nat)
    requires Invariant(s) && Enabled(s, AddEntry(m)) && Owned(Apply(s, AddEntry(m)))
    requires EntriesOpen(Apply(s, AddEntry(m))) && Agree(Apply(s, AddEntry(m)))
    ensures Fair(s, AddEntry(m))
  {
    var s', x := Apply(s, AddEntry(m)), s.sessions[m];
    var key, fd := x.pc.key, x.fd;
    if key in s.store {
      EntryCounts(s.store, key, fd, key, fd);
      CountIn(s'.store[key].subs, fd);
      assert fd in s'.open;
      assert Count(s'.store[key].subs, fd) <= Owed(s'.sessions[s'.open[fd]], key);
    }
  }

  /** A step keeps the two indexes in agreement exactly when it is fair. */
  lemma StepExactly(s: State, a: Action)
    requires Invariant(s) && Enabled(s, a)
    ensures Owned(Apply(s, a)) && Listed(Apply(s, a))
    ensures EntriesOpen(Apply(s, a)) && Agree(Apply(s, a)) <==> Fair(s, a)
  {
    OwnedKeeps(s, a);
    if Fair(s, a) {
      ActionKeeps(s, a);
    } else if a.AddEntry? && EntriesOpen(Apply(s, a)) && Agree(Apply(s, a)) {
      AddsExactly(s, a.m);
    }
  }

  // ---- whole runs

  /** Every step of the run is fair. */
  ghost predicate AllFair(s: State, actions: seq<Action>) {
    actions != [] ==>
      var before := actions[..|actions| - 1];
      && AllFair(s, before)
      && (Exec(s, before).Some? ==> Owned(Exec(s, before).value) && Fair(Exec(s, before).value, actions[|actions| - 1]))
  }

  /** The two indexes agree all through the run. */
  ghost predicate AlwaysAgree(s: State, actions: seq<Action>) {
    && (Exec(s, actions).Some? ==>
          var e := Exec(s, actions).value; Owned(e) && EntriesOpen(e) && Agree(e))
    && (actions != [] ==> AlwaysAgree(s, actions[..|actions| - 1]))
  }

  lemma {:induction false} RunKeeps(s: State, actions: seq<Action>)
    requires Init(s) && Exec(s, actions).Some? && AllFair(s, actions)
    ensures Invariant(Exec(s, actions).value) && AlwaysAgree(s, actions)
  {
    if actions != [] {
      RunKeeps(s, actions[..|actions| - 1]);
      ActionKeeps(Exec(s, actions[..|actions| - 1]).value, actions[|actions| - 1]);
    }
  }

  /** Two-index agreement holds all through a run, whatever signals it contains, if and only if every step of the run is fair. */
  lemma {:induction false} RunExactly(s: State, actions: seq<Action>)
    requires Init(s) && Exec(s, actions).Some?
    ensures AlwaysAgree(s, actions) <==> AllFair(s, actions)
  {
    if actions != [] {
      var before, a := actions[..|actions| - 1], actions[|actions| - 1];
      RunExactly(s, before);
      if AlwaysAgree(s, before) {
        RunKeeps(s, before);
        StepExactly(Exec(s, before).value, a);
      }
    }
  }

  lemma {:induction false} NotifyMembers(subs: seq<int>, text: string, msg: Message)
    requires msg in Notify(subs, text)
    ensures msg.fd in subs && msg.text == text
  {
    if msg != Message(subs[0], text) {
      NotifyMembers(subs[1..], text, msg);
    }
  }

  lemma {:induction false} NotifyReaches(subs: seq<int>, text: string, fd: int)
    requires fd in subs
    ensures Message(fd, text) in Notify(subs, text)
  {
    if subs[0] != fd {
      NotifyReaches(subs[1..], text, fd);
    }
  }

  /** Only open descriptors are listed exactly when no action can send to a closed one. */
  lemma OpenMeansNoStray(s: State)
    ensures EntriesOpen(s) <==> forall a, msg :: msg in Emits(s, a) ==> msg.fd in s.open
  {
    if EntriesOpen(s) {
      forall a, msg | msg in Emits(s, a) ensures msg.fd in s.open {
        NotifyMembers(s.store[a.key].subs, if a.WriteKey? then WriteText(a.key, a.value) else DeleteText(a.key), msg);
      }
    }
    forall k, f | k in s.store && f in s.store[k].subs ensures Message(f, DeleteText(k)) in Emits(s, DeleteKey(k)) {
      NotifyReaches(s.store[k].subs, DeleteText(k), f);
    }
  }

  /** What the agreement gives in every state of such a run: a message only ever goes to an open
      descriptor, and its present owner has the key on its list or is just taking it off. */
  lemma IndexesAgree(s: State, actions: seq<Action>, a: Action, msg: Message)
    requires Init(s) && Exec(s, actions).Some? && AllFair(s, actions)
    ensures var e := Exec(s, actions).value;
            && EntriesOpen(e) && Owned(e) && Agree(e)
            && (msg in Emits(e, a) && (a.WriteKey? || a.DeleteKey?) ==>
                  && msg.fd in e.open
                  && var x := e.sessions[e.open[msg.fd]]; a.key in x.keys || x.pc == Removing(a.key))
  {
    RunKeeps(s, actions);
    var e := Exec(s, actions).value;
    if msg in Emits(e, a) && (a.WriteKey? || a.DeleteKey?) {
      NotifyMembers(e.store[a.key].subs, if a.WriteKey? then WriteText(a.key, a.value) else DeleteText(a.key), msg);
      CountIn(e.store[a.key].subs, msg.fd);
      assert Count(e.store[a.key].subs, msg.fd) <= Owed(e.sessions[e.open[msg.fd]], a.key);
      CountIn(e.sessions[e.open[msg.fd]].keys, a.key);
    }
  }

  // ---- a session's own list, told from its requests alone

  /** How often session `m` has the key listed: each listing adds one, each unlisting takes one away if there is one. */
  function Listings(actions: seq<Action>, m: nat, key: string): nat {
    if actions == [] then 0
    else
      var before := Listings(actions[..|actions| - 1], m, key);
      match actions[|actions| - 1]
      case Open(n, _) => if n == m then 0 else before
      case ListKey(n, k) => if n == m && k == key then before + 1 else before
      case UnlistKey(n, k) => if n == m && k == key && before > 0 then before - 1 else before
      case _ => before
  }

  lemma StepListings(s: State, a: Action, m: nat, key: string, before: nat)
    requires Enabled(s, a) && (m in s.sessions && s.sessions[m].pc != Leaving ==> Count(s.sessions[m].keys, key) == before)
    requires m in Apply(s, a).sessions && Apply(s, a).sessions[m].pc != Leaving
    ensures Count(Apply(s, a).sessions[m].keys, key) ==
            match a
            case Open(n, _) => if n == m then 0 else before
            case ListKey(n, k) => if n == m && k == key then before + 1 else before
            case UnlistKey(n, k) => if n == m && k == key && before > 0 then before - 1 else before
            case _ => before
  {
    if a.ListKey? {
      CountSnoc(s.sessions[a.m].keys, a.key, key);
    } else if a.UnlistKey? {
      RemoveFirstCounts(s.sessions[a.m].keys, a.key, key);
      CountIn(s.sessions[a.m].keys, a.key);
    }
  }

  /** A session that is not leaving has each key on its list as often as its requests say. */
  lemma {:induction false} ListIsListings(s: State, actions: seq<Action>, m: nat, key: string)
    requires Init(s) && Exec(s, actions).Some?
    requires m in Exec(s, actions).value.sessions && Exec(s, actions).value.sessions[m].pc != Leaving
    ensures Count(Exec(s, actions).value.sessions[m].keys, key) == Listings(actions, m, key)
  {
    if actions != [] {
      var before := actions[..|actions| - 1];
      var x := Exec(s, before).value;
      if m in x.sessions && x.sessions[m].pc != Leaving {
        ListIsListings(s, before, m, key);
      }
      StepListings(x, actions[|actions| - 1], m, key, Listings(before, m, key));
    }
  }

  /** How long its list is: what it has listed and not unlisted, less a key for each turn of its disconnect loop. */
  function ListLength(actions: seq<Action>, m: nat): int {
    if actions == [] then 0
    else
      var before := actions[..|actions| - 1];
      match actions[|actions| - 1]
      case Open(n, _) => if n == m then 0 else ListLength(before, m)
      case ListKey(n, _) => if n == m then ListLength(before, m) + 1 else ListLength(before, m)
      case UnlistKey(n, k) => if n == m && Listings(before, m, k) > 0 then ListLength(before, m) - 1 else ListLength(before, m)
      case Drain(n) => if n == m then ListLength(before, m) - 1 else ListLength(before, m)
      case _ => ListLength(before, m)
  }

  lemma {:induction false} RemoveFirstLength(keys: seq<string>, key: string)
    ensures |RemoveFirst(keys, key)| == if Count(keys, key) > 0 then |keys| - 1 else |keys|
  {
    CountIn(keys, key);
    if keys != [] && keys[0] != key {
      CountCons(keys, key);
      RemoveFirstLength(keys[1..], key);
    }
  }

  lemma StepLength(s: State, a: Action, m: nat, before: int, listed: nat)
    requires Enabled(s, a) && m in Apply(s, a).sessions && (m in s.sessions ==> |s.sessions[m].keys| == before)
    requires a.UnlistKey? && a.m == m ==> Count(s.sessions[m].keys, a.key) == listed
    ensures |Apply(s, a).sessions[m].keys| ==
            match a
            case Open(n, _) => if n == m then 0 else before
            case ListKey(n, _) => if n == m then before + 1 else before
            case UnlistKey(n, k) => if n == m && listed > 0 then before - 1 else before
            case Drain(n) => if n == m then before - 1 else before
            case _ => before
  {
    if a.UnlistKey? && a.m == m {
      RemoveFirstLength(s.sessions[m].keys, a.key);
    }
  }

  /** So the disconnect loop of a session ends after as many turns as its list was long. */
  lemma {:induction false} LengthIsListLength(s: State, actions: seq<Action>, m: nat)
    requires Init(s) && Exec(s, actions).Some? && m in Exec(s, actions).value.sessions
    ensures |Exec(s, actions).value.sessions[m].keys| == ListLength(actions, m)
  {
    if actions != [] {
      var before, a := actions[..|actions| - 1], actions[|actions| - 1];
      var x := Exec(s, before).value;
      if m in x.sessions {
        LengthIsListLength(s, before, m);
      }
      if a.UnlistKey? && a.m == m {
        ListIsListings(s, before, m, a.key);
      }
      StepLength(x, a, m, ListLength(before, m), if a.UnlistKey? then Listings(before, m, a.key) else 0);
    }
  }

  /** Whatever a session stands at, its next step can be taken: its two-part requests and its disconnect loop go on to their end. */
  lemma SessionsGoOn(s: State, m: nat)
    requires m in s.sessions
    ensures match s.sessions[m].pc
            case Ready => Enabled(s, Leave(m)) && forall k :: Enabled(s, ListKey(m, k)) && Enabled(s, UnlistKey(m, k))
            case Adding(_) => Enabled(s, AddEntry(m))
            case Removing(_) => Enabled(s, RemoveEntry(m))
            case Leaving => if s.sessions[m].keys == [] then Enabled(s, Close(m)) else Enabled(s, Drain(m))
  {}

  /** A closed session is over: its manager can open the next one, on any number that is not open, its own among them. */
  lemma SlotIsFree(s: State, m: nat, fd: int)
    requires m < MAX_SESSION_COUNT && Enabled(s, Close(m)) && (fd !in s.open || fd == s.sessions[m].fd)
    ensures m !in Apply(s, Close(m)).sessions && Enabled(Apply(s, Close(m)), Open(m, fd))
  {}

  /** After SIGUSR1 no list has an entry, no session has noticed, and only descriptors that leaving sessions alone carry are open. */
  lemma SignalCloses(s: State, f: int)
    ensures var s' := Apply(s, Signal);
            && s'.sessions == s.sessions
            && (forall k :: k in s'.store <==> k in s.store)
            && (forall k :: k in s.store ==> s'.store[k] == Entry(s.store[k].value, []))
            && (f in s'.open <==> f in s.open && forall m :: m in s.sessions && s.sessions[m].fd == f ==> s.sessions[m].pc == Leaving)
  {}

  // ---- without SIGUSR1 every step is fair

  ghost predicate AllLive(s: State) {
    forall m :: m in s.sessions ==> Live(s, m)
  }

  lemma LiveIsFair(s: State, a: Action)
    requires Owned(s) && AllLive(s) && Enabled(s, a) && a != Signal
    ensures Fair(s, a) && AllLive(Apply(s, a))
  {}

  /** As long as nobody signals, every session keeps its descriptor, and every run is fair. */
  lemma {:induction false} NoSignalIsFair(s: State, actions: seq<Action>)
    requires Init(s) && Exec(s, actions).Some? && Signal !in actions
    ensures AllLive(Exec(s, actions).value) && AllFair(s, actions)
  {
    if actions != [] {
      var n := |actions| - 1;
      assert actions == actions[..n] + [actions[n]];
      NoSignalIsFair(s, actions[..n]);
      RunKeeps(s, actions[..n]);
      LiveIsFair(Exec(s, actions[..n]).value, actions[n]);
    }
  }

  // ---- with SIGUSR1 some are not

  lemma ExecSnoc(s: State, actions: seq<Action>, m: State, a: Action, e: State)
    requires Exec(s, actions) == Some(m) && Enabled(m, a) && Apply(m, a) == e
    ensures Exec(s, actions + [a]) == Some(e)
  {
    assert (actions + [a])[..|actions|] == actions;
  }

  /** A state with one key, its subscribers, and the sessions given. */
  function Scene(subs: seq<int>, sessions: map<nat, Session>, open: map<int, nat>): State {
    State(map["k" := Entry("v", subs)], sessions, open)
  }

  lemma SceneOpens()
    ensures var s := Scene([], map[], map[]);
            Enabled(s, Open(0, 7)) && Apply(s, Open(0, 7)) == Scene([], map[0 := Session(7, [], Ready)], map[7 := 0])
  {}

  lemma SceneLists()
    ensures var s := Scene([], map[0 := Session(7, [], Ready)], map[7 := 0]);
            && Enabled(s, ListKey(0, "k"))
            && Apply(s, ListKey(0, "k")) == Scene([], map[0 := Session(7, ["k"], Adding("k"))], map[7 := 0])
  {
    assert [] + ["k"] == ["k"];
  }

  lemma SceneSignals()
    ensures var sessions := map[0 := Session(7, ["k"], Adding("k"))];
            Apply(Scene([], sessions, map[7 := 0]), Signal) == Scene([], sessions, map[])
  {
    var s := Scene([], map[0 := Session(7, ["k"], Adding("k"))], map[7 := 0]);
    assert MapClearSubs(s.store) == s.store;
    assert s.sessions[0].fd == 7;
    assert Apply(s, Signal).open == map[];
  }

  /** SIGUSR1 catches session 0 after it listed the key and before it adds its entry. */
  lemma CaughtByASignal() returns (run: seq<Action>)
    ensures Exec(Scene([], map[], map[]), run) == Some(Scene([], map[0 := Session(7, ["k"], Adding("k"))], map[]))
  {
    var s0, s1 := Scene([], map[], map[]), Scene([], map[0 := Session(7, [], Ready)], map[7 := 0]);
    var s2 := Scene([], map[0 := Session(7, ["k"], Adding("k"))], map[7 := 0]);
    SceneOpens();
    ExecSnoc(s0, [], s0, Open(0, 7), s1);
    SceneLists();
    ExecSnoc(s0, [] + [Open(0, 7)], s1, ListKey(0, "k"), s2);
    SceneSignals();
    ExecSnoc(s0, [] + [Open(0, 7)] + [ListKey(0, "k")], s2, Signal, s2.(open := map[]));
    run := [] + [Open(0, 7)] + [ListKey(0, "k")] + [Signal];
  }

  /** What the next write of the key then sends. */
  lemma StrayMessage(sessions: map<nat, Session>, open: map<int, nat>)
    ensures Emits(Scene([7], sessions, open), WriteKey("k", "w")) == [Message(7, WriteText("k", "w"))]
  {
    assert [7][1..] == [];
    assert Notify([7], WriteText("k", "w")) == [Message(7, WriteText("k", "w"))] + Notify([], WriteText("k", "w"));
  }

  lemma SceneAdds(sessions: map<nat, Session>, open: map<int, nat>)
    requires 0 in sessions && sessions[0] == Session(7, ["k"], Adding("k"))
    ensures var s := Scene([], sessions, open);
            Enabled(s, AddEntry(0)) && Apply(s, AddEntry(0)) == Scene([7], sessions[0 := Session(7, ["k"], Ready)], open)
  {
    assert [] + [7] == [7];
  }

  lemma SceneReopens(stale: Session)
    ensures var s := Scene([], map[0 := stale], map[]);
            Enabled(s, Open(1, 7)) && Apply(s, Open(1, 7)) == Scene([], map[0 := stale, 1 := Session(7, [], Ready)], map[7 := 1])
  {}

  /** One entry, and nobody who accounts for it. */
  lemma SceneDisagrees(added: Session)
    ensures var e := Scene([7], map[0 := added, 1 := Session(7, [], Ready)], map[7 := 1]);
            Owned(e) && EntriesOpen(e) && !Agree(e)
  {
    var e := Scene([7], map[0 := added, 1 := Session(7, [], Ready)], map[7 := 1]);
    assert Count(e.store["k"].subs, 7) == 1 && Owed(e.sessions[e.open[7]], "k") == 0;
  }

  /** The caught session adds its entry all the same, and the next write of the key goes to a closed descriptor ... */
  lemma StaleSessionStrays() returns (run: seq<Action>, e: State)
    ensures Init(Scene([], map[], map[])) && Exec(Scene([], map[], map[]), run) == Some(e)
    ensures Emits(e, WriteKey("k", "w")) == [Message(7, WriteText("k", "w"))]
    ensures 7 !in e.open && !EntriesOpen(e)
  {
    var s0 := Scene([], map[], map[]);
    var caught := Scene([], map[0 := Session(7, ["k"], Adding("k"))], map[]);
    run := CaughtByASignal();
    SceneAdds(caught.sessions, caught.open);
    e := Scene([7], map[0 := Session(7, ["k"], Ready)], map[]);
    ExecSnoc(s0, run, caught, AddEntry(0), e);
    run := run + [AddEntry(0)];
    StrayMessage(e.sessions, e.open);
    assert e.store["k"].subs == [7] && 7 in [7];
  }

  /** ... or, once a new session has been given the same number, to a client that never subscribed. */
  lemma ReusedNumberStrays() returns (run: seq<Action>, e: State)
    ensures Init(Scene([], map[], map[])) && Exec(Scene([], map[], map[]), run) == Some(e)
    ensures Emits(e, WriteKey("k", "w")) == [Message(7, WriteText("k", "w"))]
    ensures 7 in e.open && e.open[7] in e.sessions && e.sessions[e.open[7]] == Session(7, [], Ready)
    ensures Owned(e) && EntriesOpen(e) && !Agree(e)
  {
    var s0 := Scene([], map[], map[]);
    var stale := Session(7, ["k"], Adding("k"));
    var caught, again := Scene([], map[0 := stale], map[]), Scene([], map[0 := stale, 1 := Session(7, [], Ready)], map[7 := 1]);
    run := CaughtByASignal();
    SceneReopens(stale);
    ExecSnoc(s0, run, caught, Open(1, 7), again);
    SceneAdds(again.sessions, again.open);
    e := Scene([7], map[0 := Session(7, ["k"], Ready), 1 := Session(7, [], Ready)], map[7 := 1]);
    ExecSnoc(s0, run + [Open(1, 7)], again, AddEntry(0), e);
    run := run + [Open(1, 7)] + [AddEntry(0)];
    StrayMessage(e.sessions, e.open);
    SceneDisagrees(Session(7, ["k"], Ready));
  }
}
