/**
  The whole server at once: the job threads and backup children of Batches.dfy and the
  client sessions of Sessions.dfy over one table.  A run of the whole is a run of each,
  so what was proved of the sessions over a plain map holds of the chains that threads
  change key by key.
 */
module Server {
  import opened CStrings
  import opened LinkedList
  import opened Table
  import Batches
  import Sessions
  import Deliveries

  datatype State = State(b: Batches.State, s: Sessions.State)

  datatype Action = Thread(t: Batches.Action) | Client(c: Sessions.Action)

  /** What a thread's step is for the sessions: a write or a delete of one key, or nothing. */
  function StoreStep(b: Batches.State, a: Batches.Action): Option<Sessions.Action>
    requires Batches.Enabled(b, a)
  {
    match a
    case Iterate(tid) =>
      (match b.threads[tid].c
       case Write(pairs) => Some(Sessions.WriteKey(pairs[b.threads[tid].i].key, pairs[b.threads[tid].i].value))
       case Delete(keys) => Some(Sessions.DeleteKey(keys[b.threads[tid].i]))
       case _ => None)
    case _ => None
  }

  /** What a session's step is for the table. */
  function TableStep(s: Sessions.State, a: Sessions.Action): Option<Batches.Action>
    requires Sessions.Enabled(s, a)
  {
    match a
    case AddEntry(m) => Some(Batches.Subscribe(s.sessions[m].pc.key, s.sessions[m].fd))
    case RemoveEntry(m) => Some(Batches.Unsubscribe(s.sessions[m].pc.key, s.sessions[m].fd))
    case Drain(m) => Some(Batches.Unsubscribe(s.sessions[m].keys[0], s.sessions[m].fd))
    case Signal => Some(Batches.ClearAll)
    case _ => None
  }

  /** Threads do not subscribe and sessions do not write; clients name keys that have a bucket. */
  predicate Enabled(x: State, a: Action) {
    match a
    case Thread(t) => Batches.Enabled(x.b, t) && !t.Subscribe? && !t.Unsubscribe? && !t.ClearAll?
    case Client(c) =>
      && Sessions.Enabled(x.s, c) && !c.WriteKey? && !c.DeleteKey?
      && (c.ListKey? || c.UnlistKey? ==> Hashable(c.key))
      && (TableStep(x.s, c).Some? ==> Batches.Enabled(x.b, TableStep(x.s, c).value))
  }

  function Apply(x: State, a: Action): State
    requires Enabled(x, a)
  {
    match a
    case Thread(t) =>
      var step := StoreStep(x.b, t);
      State(Batches.Apply(x.b, t), if step.Some? then Sessions.Apply(x.s, step.value) else x.s)
    case Client(c) =>
      var step := TableStep(x.s, c);
      State(if step.Some? then Batches.Apply(x.b, step.value) else x.b, Sessions.Apply(x.s, c))
  }

  function Exec(x: State, actions: seq<Action>): Option<State> {
    if actions == [] then Some(x)
    else
      var m := Exec(x, actions[..|actions| - 1]);
      var a := actions[|actions| - 1];
      if m.Some? && Enabled(m.value, a) then Some(Apply(m.value, a)) else None
  }

  /** The sessions' store is what the chains stand for. */
  ghost predicate Coupled(x: State) {
    WellFormed(x.b.t) && Contents(x.b.t) == x.s.store
  }

  ghost predicate Init(x: State) {
    Batches.Init(x.b) && Sessions.Init(x.s) && Coupled(x)
  }

  lemma ThreadKeeps(x: State, t: Batches.Action)
    requires Coupled(x) && Enabled(x, Thread(t))
    ensures Coupled(Apply(x, Thread(t)))
    ensures Deliveries.MessagesOf(x.b, t) == if StoreStep(x.b, t).Some? then Sessions.Emits(x.s, StoreStep(x.b, t).value) else []
  {
    if t.Iterate? {
      var i := x.b.threads[t.tid].i;
      match x.b.threads[t.tid].c {
        case Write(pairs) => PutIsUpdate(x.b.t, pairs[i].key, pairs[i].value);
        case Delete(keys) => RemoveIsRemoval(x.b.t, keys[i]);
        case _ =>
      }
    }
  }

  lemma ClientKeeps(x: State, c: Sessions.Action)
    requires Coupled(x) && Enabled(x, Client(c))
    ensures Coupled(Apply(x, Client(c)))
  {
    match c
    case AddEntry(m) => AddSubIsUpdate(x.b.t, x.s.sessions[m].pc.key, x.s.sessions[m].fd);
    case RemoveEntry(m) => RemoveSubIsUpdate(x.b.t, x.s.sessions[m].pc.key, x.s.sessions[m].fd);
    case Drain(m) => RemoveSubIsUpdate(x.b.t, x.s.sessions[m].keys[0], x.s.sessions[m].fd);
    case Signal => ClearSubsIsUpdate(x.b.t);
    case _ =>
  }

  lemma {:induction false} StaysCoupled(x: State, actions: seq<Action>)
    requires Coupled(x) && Exec(x, actions).Some?
    ensures Coupled(Exec(x, actions).value)
  {
    if actions != [] {
      var before, a := actions[..|actions| - 1], actions[|actions| - 1];
      StaysCoupled(x, before);
      var m := Exec(x, before).value;
      match a
      case Thread(t) => ThreadKeeps(m, t);
      case Client(c) => ClientKeeps(m, c);
    }
  }

  /** The session only holds keys that have a bucket. */
  ghost predicate Named(x: Sessions.Session) {
    && (forall k :: k in x.keys ==> Hashable(k))
    && (x.pc.Adding? || x.pc.Removing? ==> Hashable(x.pc.key))
  }

  ghost predicate KeysNamed(s: Sessions.State) {
    forall m :: m in s.sessions ==> Named(s.sessions[m])
  }

  lemma NamedTail(x: Sessions.Session)
    requires Named(x) && x.keys != []
    ensures Hashable(x.keys[0]) && Named(x.(keys := x.keys[1..]))
  {
    assert x.keys[0] in x.keys && forall k :: k in x.keys[1..] ==> k in x.keys;
  }

  lemma ClientKeepsNamed(s: Sessions.State, c: Sessions.Action)
    requires KeysNamed(s) && Sessions.Enabled(s, c) && (c.ListKey? || c.UnlistKey? ==> Hashable(c.key))
    ensures KeysNamed(Sessions.Apply(s, c))
  {
    var s' := Sessions.Apply(s, c);
    if c.Drain? {
      NamedTail(s.sessions[c.m]);
    }
    forall m | m in s'.sessions ensures Named(s'.sessions[m]) {
      assert m in s.sessions ==> Named(s.sessions[m]);
    }
  }

  lemma KeysNamedKeeps(x: State, a: Action)
    requires KeysNamed(x.s) && Enabled(x, a)
    ensures KeysNamed(Apply(x, a).s)
  {
    match a
    case Thread(t) =>
      if StoreStep(x.b, t).Some? {
        ClientKeepsNamed(x.s, StoreStep(x.b, t).value);
      }
    case Client(c) => ClientKeepsNamed(x.s, c);
  }

  lemma {:induction false} StaysNamed(x: State, actions: seq<Action>)
    requires Init(x) && Exec(x, actions).Some?
    ensures KeysNamed(Exec(x, actions).value.s)
  {
    if actions != [] {
      StaysNamed(x, actions[..|actions| - 1]);
      KeysNamedKeeps(Exec(x, actions[..|actions| - 1]).value, actions[|actions| - 1]);
    }
  }

  lemma TableStepWorks(x: State, c: Sessions.Action)
    requires KeysNamed(x.s) && Coupled(x) && Sessions.Enabled(x.s, c) && TableStep(x.s, c).Some?
    ensures Batches.Enabled(x.b, TableStep(x.s, c).value)
  {
    if c.Drain? {
      NamedTail(x.s.sessions[c.m]);
    } else if c.AddEntry? || c.RemoveEntry? {
      assert Named(x.s.sessions[c.m]);
    }
  }

  /** So the table never holds up a session: what a session can do by itself, it can do here. */
  lemma SessionsAreNotHeldUp(x: State, actions: seq<Action>, c: Sessions.Action)
    requires Init(x) && Exec(x, actions).Some? && Sessions.Enabled(Exec(x, actions).value.s, c)
    ensures var e := Exec(x, actions).value;
            Enabled(e, Client(c)) <==> !c.WriteKey? && !c.DeleteKey? && (c.ListKey? || c.UnlistKey? ==> Hashable(c.key))
  {
    var e := Exec(x, actions).value;
    StaysNamed(x, actions);
    StaysCoupled(x, actions);
    if TableStep(e.s, c).Some? {
      TableStepWorks(e, c);
    }
  }

  // ---- the two runs inside a run

  function SessionStep(x: State, a: Action): Option<Sessions.Action>
    requires Enabled(x, a)
  {
    match a
    case Thread(t) => StoreStep(x.b, t)
    case Client(c) => Some(c)
  }

  function BatchStep(x: State, a: Action): Option<Batches.Action>
    requires Enabled(x, a)
  {
    match a
    case Thread(t) => Some(t)
    case Client(c) => TableStep(x.s, c)
  }

  function AsSeq<T>(o: Option<T>): seq<T> {
    if o.Some? then [o.value] else []
  }

  function SessionRun(x: State, actions: seq<Action>): seq<Sessions.Action>
    requires Exec(x, actions).Some?
  {
    if actions == [] then []
    else
      var before := actions[..|actions| - 1];
      SessionRun(x, before) + AsSeq(SessionStep(Exec(x, before).value, actions[|actions| - 1]))
  }

  function BatchRun(x: State, actions: seq<Action>): seq<Batches.Action>
    requires Exec(x, actions).Some?
  {
    if actions == [] then []
    else
      var before := actions[..|actions| - 1];
      BatchRun(x, before) + AsSeq(BatchStep(Exec(x, before).value, actions[|actions| - 1]))
  }

  lemma SessionsSnoc(s: Sessions.State, run: seq<Sessions.Action>, m: Sessions.State, a: Sessions.Action)
    requires Sessions.Exec(s, run) == Some(m) && Sessions.Enabled(m, a)
    ensures Sessions.Exec(s, run + [a]) == Some(Sessions.Apply(m, a))
  {
    assert (run + [a])[..|run|] == run;
  }

  lemma BatchesSnoc(s: Batches.State, run: seq<Batches.Action>, m: Batches.State, a: Batches.Action)
    requires Batches.Exec(s, run) == Some(m) && Batches.Enabled(m, a)
    ensures Batches.Exec(s, run + [a]) == Some(Batches.Apply(m, a))
  {
    assert (run + [a])[..|run|] == run;
  }

  lemma {:induction false} RunIsSessionRun(x: State, actions: seq<Action>)
    requires Exec(x, actions).Some?
    ensures Sessions.Exec(x.s, SessionRun(x, actions)) == Some(Exec(x, actions).value.s)
  {
    if actions != [] {
      var before, a := actions[..|actions| - 1], actions[|actions| - 1];
      RunIsSessionRun(x, before);
      var m := Exec(x, before).value;
      if SessionStep(m, a).Some? {
        SessionsSnoc(x.s, SessionRun(x, before), m.s, SessionStep(m, a).value);
      } else {
        assert SessionRun(x, before) + [] == SessionRun(x, before);
      }
    }
  }

  lemma {:induction false} RunIsBatchRun(x: State, actions: seq<Action>)
    requires Exec(x, actions).Some?
    ensures Batches.Exec(x.b, BatchRun(x, actions)) == Some(Exec(x, actions).value.b)
  {
    if actions != [] {
      var before, a := actions[..|actions| - 1], actions[|actions| - 1];
      RunIsBatchRun(x, before);
      var m := Exec(x, before).value;
      if BatchStep(m, a).Some? {
        BatchesSnoc(x.b, BatchRun(x, before), m.b, BatchStep(m, a).value);
      } else {
        assert BatchRun(x, before) + [] == BatchRun(x, before);
      }
    }
  }

  lemma OnlySignalSignals(x: State, a: Action)
    requires Enabled(x, a) && a != Client(Sessions.Signal)
    ensures Sessions.Signal !in AsSeq(SessionStep(x, a))
  {}

  lemma {:induction false} SignalsAreClients(x: State, actions: seq<Action>)
    requires Exec(x, actions).Some? && forall i :: 0 <= i < |actions| ==> actions[i] != Client(Sessions.Signal)
    ensures Sessions.Signal !in SessionRun(x, actions)
  {
    if actions != [] {
      var before, a := actions[..|actions| - 1], actions[|actions| - 1];
      SignalsAreClients(x, before);
      OnlySignalSignals(Exec(x, before).value, a);
    }
  }

  /**
    A run of the whole server is a run of the threads and a run of the sessions, and the
    sessions' store is what the chains stand for: every theorem about either holds of it.
   */
  lemma RunIsBoth(x: State, actions: seq<Action>)
    requires Init(x) && Exec(x, actions).Some?
    ensures var e := Exec(x, actions).value;
            && Batches.Exec(x.b, BatchRun(x, actions)) == Some(e.b)
            && Sessions.Exec(x.s, SessionRun(x, actions)) == Some(e.s)
            && WellFormed(e.b.t) && Contents(e.b.t) == e.s.store
  {
    RunIsBatchRun(x, actions);
    RunIsSessionRun(x, actions);
    StaysCoupled(x, actions);
  }

  /**
    Wherever the threads stand in their batches, a message they send goes to an open
    descriptor, whose present owner has the key on its list or is just taking it off - in
    every run whose session steps are fair.
   */
  lemma MessagesFindTheirClient(x: State, actions: seq<Action>, t: Batches.Action, msg: Message)
    requires Init(x) && Exec(x, actions).Some? && Sessions.AllFair(x.s, SessionRun(x, actions))
    requires Enabled(Exec(x, actions).value, Thread(t)) && msg in Deliveries.MessagesOf(Exec(x, actions).value.b, t)
    ensures var e := Exec(x, actions).value;
            && StoreStep(e.b, t).Some? && Sessions.Owned(e.s) && msg.fd in e.s.open
            && var key, owner := StoreStep(e.b, t).value.key, e.s.sessions[e.s.open[msg.fd]];
               key in owner.keys || owner.pc == Sessions.Removing(key)
  {
    RunIsBoth(x, actions);
    ThreadKeeps(Exec(x, actions).value, t);
    Sessions.IndexesAgree(x.s, SessionRun(x, actions), StoreStep(Exec(x, actions).value.b, t).value, msg);
  }

  /** Without SIGUSR1 that is every run. */
  lemma NoSignalNoStray(x: State, actions: seq<Action>, t: Batches.Action, msg: Message)
    requires Init(x) && Exec(x, actions).Some? && Client(Sessions.Signal) !in actions
    requires Enabled(Exec(x, actions).value, Thread(t)) && msg in Deliveries.MessagesOf(Exec(x, actions).value.b, t)
    ensures msg.fd in Exec(x, actions).value.s.open && Sessions.AllFair(x.s, SessionRun(x, actions))
  {
    RunIsBoth(x, actions);
    SignalsAreClients(x, actions);
    Sessions.NoSignalIsFair(x.s, SessionRun(x, actions));
    MessagesFindTheirClient(x, actions, t, msg);
  }
}
