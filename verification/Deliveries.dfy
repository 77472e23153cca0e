/**
  What the interleaved threads of Batches.dfy tell the subscribers.  Each iteration of
  a WRITE or a DELETE, and each step of a session between them, is one event of
  Notifications.dfy; so a run has a history, and the history says what everyone is told.
 */
module Deliveries {
  import opened CStrings
  import opened Table
  import Batches
  import Notifications
  import Sessions
  import Jobs
  import RoundTrip

  /** What a step of the run is for the store. */
  function EventsOf(s: Batches.State, a: Batches.Action): seq<Notifications.Event>
    requires Batches.Enabled(s, a)
  {
    match a
    case Iterate(tid) =>
      (match s.threads[tid].c
       case Write(pairs) => [Notifications.Write(pairs[s.threads[tid].i].key, pairs[s.threads[tid].i].value)]
       case Delete(keys) => [Notifications.Delete(keys[s.threads[tid].i])]
       case _ => [])
    case Subscribe(key, fd) => [Notifications.Subscribe(key, fd)]
    case Unsubscribe(key, fd) => [Notifications.Unsubscribe(key, fd)]
    case ClearAll => [Notifications.ClearAll]
    case _ => []
  }

  /** What the step writes to notification pipes, from the chains as they are. */
  function MessagesOf(s: Batches.State, a: Batches.Action): seq<Message>
    requires Batches.Enabled(s, a)
  {
    match a
    case Iterate(tid) =>
      (match s.threads[tid].c
       case Write(pairs) => PutMessages(s.t, pairs[s.threads[tid].i].key, pairs[s.threads[tid].i].value)
       case Delete(keys) => RemoveMessages(s.t, keys[s.threads[tid].i])
       case _ => [])
    case _ => []
  }

  lemma StepIsEvent(s: Batches.State, a: Batches.Action)
    requires WellFormed(s.t) && Batches.Enabled(s, a)
    ensures WellFormed(Batches.Apply(s, a).t)
    ensures EventsOf(s, a) == [] ==> Batches.Apply(s, a).t == s.t && MessagesOf(s, a) == []
    ensures EventsOf(s, a) != [] ==>
              var e := EventsOf(s, a)[0];
              && EventsOf(s, a) == [e]
              && Contents(Batches.Apply(s, a).t) == Notifications.Effect(Contents(s.t), e)
              && MessagesOf(s, a) == Notifications.Sent(Contents(s.t), e)
  {
    match a
    case Iterate(tid) =>
      var i := s.threads[tid].i;
      match s.threads[tid].c {
        case Write(pairs) => PutIsUpdate(s.t, pairs[i].key, pairs[i].value);
        case Delete(keys) => RemoveIsRemoval(s.t, keys[i]);
        case _ =>
      }
    case Subscribe(key, fd) => AddSubIsUpdate(s.t, key, fd);
    case Unsubscribe(key, fd) => RemoveSubIsUpdate(s.t, key, fd);
    case ClearAll => ClearSubsIsUpdate(s.t);
    case _ =>
  }

  function History(s: Batches.State, actions: seq<Batches.Action>): seq<Notifications.Event>
    requires Batches.Exec(s, actions).Some?
  {
    if actions == [] then []
    else
      var before := actions[..|actions| - 1];
      History(s, before) + EventsOf(Batches.Exec(s, before).value, actions[|actions| - 1])
  }

  function Delivered(s: Batches.State, actions: seq<Batches.Action>): seq<Message>
    requires Batches.Exec(s, actions).Some?
  {
    if actions == [] then []
    else
      var before := actions[..|actions| - 1];
      Delivered(s, before) + MessagesOf(Batches.Exec(s, before).value, actions[|actions| - 1])
  }

  /** After any run the shared chains hold the store of the run's history, and what was sent is its log. */
  lemma {:induction false} RunIsHistory(s: Batches.State, actions: seq<Batches.Action>)
    requires WellFormed(s.t) && Batches.Exec(s, actions).Some?
    ensures WellFormed(Batches.Exec(s, actions).value.t)
    ensures Contents(Batches.Exec(s, actions).value.t) == Notifications.StoreFrom(Contents(s.t), History(s, actions))
    ensures Delivered(s, actions) == Notifications.LogFrom(Contents(s.t), History(s, actions))
  {
    if actions != [] {
      var before, a := actions[..|actions| - 1], actions[|actions| - 1];
      RunIsHistory(s, before);
      var m := Batches.Exec(s, before).value;
      StepIsEvent(m, a);
      if EventsOf(m, a) == [] {
        assert History(s, actions) == History(s, before);
      } else {
        Notifications.FromSnoc(Contents(s.t), History(s, before), EventsOf(m, a)[0]);
      }
    }
  }

  lemma EmptyHoldsNothing()
    ensures Contents(Empty()) == map[]
  {}

  /**
    Notification exactness in every interleaving: from the empty table, each descriptor has
    been told exactly what the history of the run says, subscriptions made and undone in
    the middle of a batch included.
   */
  lemma EveryoneIsToldExactly(s: Batches.State, actions: seq<Batches.Action>, fd: int)
    requires s.t == Empty() && Batches.Exec(s, actions).Some?
    ensures Notifications.TextsTo(Delivered(s, actions), fd) == Notifications.Expected(History(s, actions), fd)
  {
    RunIsHistory(s, actions);
    EmptyHoldsNothing();
    Notifications.ToldExactly(History(s, actions), fd);
  }

  // ---- the buffers the texts are printed into

  const WRITE_BUFFER: nat := 90
  const DELETE_BUFFER: nat := 52

  lemma CleanTextsFit(key: string, value: string)
    requires Jobs.Clean(key)
    ensures |DeleteText(key)| < DELETE_BUFFER
    ensures Jobs.Clean(value) ==> |WriteText(key, value)| < WRITE_BUFFER
  {}

  lemma StoredIsClean(t: Buckets, key: string)
    requires |t| == TABLE_SIZE && Hashable(key) && Jobs.CleanTable(t) && Has(t, key)
    ensures Jobs.Clean(key)
  {
    assert Jobs.CleanChain(t[Hash(key)]);
  }

  /** In every interleaving of threads whose commands were parsed, each text and its terminator fit the buffer it is printed into. */
  lemma TextsFit(s: Batches.State, actions: seq<Batches.Action>, tid: nat, msg: Message)
    requires Batches.Init(s) && Jobs.CleanTable(s.t) && Batches.Exec(s, actions).Some? && RoundTrip.CleanCalls(actions)
    requires Batches.Enabled(Batches.Exec(s, actions).value, Batches.Iterate(tid))
    requires msg in MessagesOf(Batches.Exec(s, actions).value, Batches.Iterate(tid))
    ensures var c := Batches.Exec(s, actions).value.threads[tid].c;
            && (c.Write? || c.Delete?)
            && |msg.text| < if c.Write? then WRITE_BUFFER else DELETE_BUFFER
  {
    var e := Batches.Exec(s, actions).value;
    var i := e.threads[tid].i;
    match e.threads[tid].c {
      case Write(pairs) =>
        RoundTrip.CommandsStayClean(s, actions);
        var key, value := pairs[i].key, pairs[i].value;
        Sessions.NotifyMembers(Get(e.t, key).subs, WriteText(key, value), msg);
        CleanTextsFit(key, value);
      case Delete(keys) =>
        RoundTrip.StoredStaysClean(s, actions);
        StoredIsClean(e.t, keys[i]);
        Sessions.NotifyMembers(Get(e.t, keys[i]).subs, DeleteText(keys[i]), msg);
        CleanTextsFit(keys[i], "");
      case _ =>
    }
  }
}
