/**
  One registration thread and eight managers hand registrations over through the
  queue, the semaphores `empty` and `full`, and the mutex around the queue.  Every
  interleaving of their statements is a run.
 */
module Handoff {
  import opened CStrings
  import opened LinkedList
  import opened RegistrationQueues
  import opened Sums

  /** Where the registration thread is; it keeps the triple it decoded until it has enqueued it. */
  datatype Producer = Accepting | WaitEmpty(t: Triple) | LockToAdd(t: Triple) | AtEnqueue(t: Triple) | UnlockAdded | PostFull

  /** Where a manager is; `got` is what pop returned. */
  datatype Manager =
    | WaitFull
    | LockToTake
    | AtPop
    | UnlockTaken(got: Option<Triple>)
    | PostEmpty(got: Option<Triple>)
    | InSession(t: Triple)

  datatype Holder = TheProducer | AManager(i: nat)

  /** `accepted` and `popped` record what the pipe delivered and what managers took. */
  datatype State = State(
    empty: nat, full: nat, mutex: Option<Holder>, queue: seq<Triple>,
    producer: Producer, managers: seq<Manager>, accepted: seq<Triple>, popped: seq<Triple>)

  datatype Action =
    | Register(t: Triple)     // the environment: a client writes its frame
    | SessionEnds(i: nat)     // the environment: a client disconnects
    | ProducerSteps
    | ManagerSteps(i: nat)

  predicate Enabled(s: State, a: Action) {
    match a
    case Register(_) => s.producer == Accepting
    case SessionEnds(i) => i < |s.managers| && s.managers[i].InSession?
    case ProducerSteps =>
      (match s.producer
       case Accepting => false
       case WaitEmpty(_) => s.empty > 0
       case LockToAdd(_) => s.mutex == None
       case AtEnqueue(_) => true
       case UnlockAdded => true
       case PostFull => true)
    case ManagerSteps(i) =>
      i < |s.managers| &&
      (match s.managers[i]
       case WaitFull => s.full > 0
       case LockToTake => s.mutex == None
       case AtPop => true
       case UnlockTaken(_) => true
       case PostEmpty(_) => true
       case InSession(_) => false)
  }

  function SetManager(s: State, i: nat, m: Manager): State
    requires i < |s.managers|
  {
    s.(managers := s.managers[i := m])
  }

  function Apply(s: State, a: Action): State
    requires Enabled(s, a)
  {
    match a
    case Register(t) => s.(producer := WaitEmpty(t), accepted := s.accepted + [t])
    case SessionEnds(i) => SetManager(s, i, WaitFull)
    case ProducerSteps =>
      (match s.producer
       case WaitEmpty(t) => s.(producer := LockToAdd(t), empty := s.empty - 1)
       case LockToAdd(t) => s.(producer := AtEnqueue(t), mutex := Some(TheProducer))
       case AtEnqueue(t) => s.(producer := UnlockAdded, queue := s.queue + [t])
       case UnlockAdded => s.(producer := PostFull, mutex := None)
       case PostFull => s.(producer := Accepting, full := s.full + 1))
    case ManagerSteps(i) =>
      (match s.managers[i]
       case WaitFull => SetManager(s, i, LockToTake).(full := s.full - 1)
       case LockToTake => SetManager(s, i, AtPop).(mutex := Some(AManager(i)))
       case AtPop =>
         if s.queue == [] then SetManager(s, i, UnlockTaken(None))
         else SetManager(s, i, UnlockTaken(Some(s.queue[0]))).(queue := s.queue[1..], popped := s.popped + [s.queue[0]])
       case UnlockTaken(got) => SetManager(s, i, PostEmpty(got)).(mutex := None)
       case PostEmpty(got) => SetManager(s, i, if got == None then WaitFull else InSession(got.value)).(empty := s.empty + 1))
  }

  predicate Init(s: State) {
    && s.empty == MAX_SESSION_COUNT && s.full == 0 && s.mutex == None && s.queue == []
    && s.producer == Accepting && s.accepted == [] && s.popped == []
    && |s.managers| == MAX_SESSION_COUNT && forall i :: 0 <= i < |s.managers| ==> s.managers[i] == WaitFull
  }

  function Exec(s: State, actions: seq<Action>): Option<State> {
    if actions == [] then Some(s)
    else
      var m := Exec(s, actions[..|actions| - 1]);
      var a := actions[|actions| - 1];
      if m.Some? && Enabled(m.value, a) then Some(Apply(m.value, a)) else None
  }

  /** A manager between sem_wait(&full) and sem_post(&empty) holds a slot token. */
  function Token(m: Manager): nat {
    if m.LockToTake? || m.AtPop? || m.UnlockTaken? || m.PostEmpty? then 1 else 0
  }

  /** A manager that has been promised an element it has not popped yet. */
  function Promised(m: Manager): nat {
    if m.LockToTake? || m.AtPop? then 1 else 0
  }

  function ProducerToken(p: Producer): nat {
    if p.LockToAdd? || p.AtEnqueue? || p.UnlockAdded? || p.PostFull? then 1 else 0
  }

  /** The producer has enqueued and not yet announced it. */
  function Unannounced(p: Producer): nat {
    if p.UnlockAdded? || p.PostFull? then 1 else 0
  }

  function InHand(p: Producer): seq<Triple> {
    if p.WaitEmpty? || p.LockToAdd? || p.AtEnqueue? then [p.t] else []
  }

  ghost predicate Tokens(s: State) {
    && s.empty + s.full + ProducerToken(s.producer) + Sum(s.managers, Token) == MAX_SESSION_COUNT
    && |s.queue| == s.full + Unannounced(s.producer) + Sum(s.managers, Promised)
  }

  /** Whoever is at the queue holds the mutex, and nobody else does. */
  ghost predicate Exclusive(s: State) {
    && (s.mutex == Some(TheProducer) <==> s.producer.AtEnqueue? || s.producer.UnlockAdded?)
    && (s.mutex.Some? && s.mutex.value.AManager? ==> s.mutex.value.i < |s.managers|)
    && forall i :: 0 <= i < |s.managers| ==>
         (s.mutex == Some(AManager(i)) <==> s.managers[i].AtPop? || s.managers[i].UnlockTaken?)
  }

  ghost predicate NoEmptyHands(s: State) {
    forall i :: 0 <= i < |s.managers| ==>
      (s.managers[i].UnlockTaken? || s.managers[i].PostEmpty? ==> s.managers[i].got.Some?)
  }

  ghost predicate Invariant(s: State) {
    && |s.managers| == MAX_SESSION_COUNT && Tokens(s) && Exclusive(s) && NoEmptyHands(s)
    && s.accepted == s.popped + s.queue + InHand(s.producer)
  }

  lemma ProducerKeeps(s: State, a: Action)
    requires Invariant(s) && Enabled(s, a) && (a.Register? || a.ProducerSteps?)
    ensures Invariant(Apply(s, a))
  {}

  lemma ManagerTokens(s: State, a: Action)
    requires Invariant(s) && Enabled(s, a) && (a.SessionEnds? || a.ManagerSteps?)
    ensures Tokens(Apply(s, a))
    ensures a.ManagerSteps? && s.managers[a.i].AtPop? ==> s.queue != []
  {
    var m := Apply(s, a).managers[a.i];
    SumUpdate(s.managers, Token, a.i, m);
    SumUpdate(s.managers, Promised, a.i, m);
    SumAtLeast(s.managers, Promised, a.i);
  }

  lemma ManagerKeeps(s: State, a: Action)
    requires Invariant(s) && Enabled(s, a) && (a.SessionEnds? || a.ManagerSteps?)
    ensures Invariant(Apply(s, a))
  {
    ManagerTokens(s, a);
    if s.queue != [] {
      assert s.queue == [s.queue[0]] + s.queue[1..];
    }
  }

  lemma {:induction false} RunKeeps(s: State, actions: seq<Action>)
    requires Init(s) && Exec(s, actions).Some?
    ensures Invariant(Exec(s, actions).value)
  {
    if actions == [] {
      SumZero(s.managers, Token);
      SumZero(s.managers, Promised);
    } else {
      var m, a := Exec(s, actions[..|actions| - 1]).value, actions[|actions| - 1];
      RunKeeps(s, actions[..|actions| - 1]);
      if a.Register? || a.ProducerSteps? {
        ProducerKeeps(m, a);
      } else {
        ManagerKeeps(m, a);
      }
    }
  }

  lemma {:induction false} PromisedHaveTokens(ms: seq<Manager>)
    ensures Sum(ms, Promised) <= Sum(ms, Token)
  {
    if ms != [] {
      PromisedHaveTokens(ms[..|ms| - 1]);
    }
  }

  /**
    After any run: the queue holds at most eight registrations, at most one thread is
    at the queue, no manager's pop ever finds it empty, and the registrations the pipe
    delivered are, in order and each once, those popped, those queued and the one in
    the producer's hand.
   */
  lemma HandoffIsExact(s: State, actions: seq<Action>, i: nat, j: nat)
    requires Init(s) && Exec(s, actions).Some? && i < MAX_SESSION_COUNT && j < MAX_SESSION_COUNT
    ensures var e := Exec(s, actions).value;
            && |e.managers| == MAX_SESSION_COUNT && |e.queue| <= MAX_SESSION_COUNT
            && e.accepted == e.popped + e.queue + InHand(e.producer)
            && (e.managers[i].AtPop? ==> e.queue != [])
            && (e.managers[i].AtPop? && e.managers[j].AtPop? ==> i == j)
            && !(e.managers[i].AtPop? && e.producer.AtEnqueue?)
  {
    RunKeeps(s, actions);
    var e := Exec(s, actions).value;
    SumAtLeast(e.managers, Promised, i);
    PromisedHaveTokens(e.managers);
    assert e.managers[i].AtPop? ==> e.mutex == Some(AManager(i));
    assert e.managers[j].AtPop? ==> e.mutex == Some(AManager(j));
  }

  // ---- whom the managers serve

  /** 1 when the manager has the registration `x`, from its pop to the end of the session. */
  function Has(m: Manager, x: Triple): nat {
    match m
    case UnlockTaken(got) => if got == Some(x) then 1 else 0
    case PostEmpty(got) => if got == Some(x) then 1 else 0
    case InSession(t) => if t == x then 1 else 0
    case _ => 0
  }

  function Serving(managers: seq<Manager>, x: Triple): nat {
    Sum(managers, (m: Manager) => Has(m, x))
  }

  lemma ServingUpdate(managers: seq<Manager>, i: nat, m: Manager, x: Triple)
    requires i < |managers|
    ensures Serving(managers[i := m], x) == Serving(managers, x) - Has(managers[i], x) + Has(m, x)
  {
    SumUpdate(managers, (m: Manager) => Has(m, x), i, m);
  }

  /** 1 when the step ends a session of `x`. */
  function Ends(s: State, a: Action, x: Triple): nat {
    if a.SessionEnds? && a.i < |s.managers| && s.managers[a.i] == InSession(x) then 1 else 0
  }

  /** The sessions of `x` that have ended in the run. */
  function Ended(s: State, actions: seq<Action>, x: Triple): nat
    requires Exec(s, actions).Some?
  {
    if actions == [] then 0
    else
      var before := actions[..|actions| - 1];
      Ended(s, before, x) + Ends(Exec(s, before).value, actions[|actions| - 1], x)
  }

  lemma StepServes(s: State, a: Action, x: Triple)
    requires Invariant(s) && Enabled(s, a)
    ensures Count(Apply(s, a).popped, x) + Serving(s.managers, x) ==
            Count(s.popped, x) + Serving(Apply(s, a).managers, x) + Ends(s, a, x)
  {
    if a.SessionEnds? || a.ManagerSteps? {
      ManagerTokens(s, a);
      ServingUpdate(s.managers, a.i, Apply(s, a).managers[a.i], x);
      if a.ManagerSteps? && s.managers[a.i].AtPop? {
        CountSnoc(s.popped, s.queue[0], x);
      }
    }
  }

  /** What has been popped is what managers serve and have served. */
  lemma {:induction false} PoppedAreServed(s: State, actions: seq<Action>, x: Triple)
    requires Init(s) && Exec(s, actions).Some?
    ensures var e := Exec(s, actions).value; Count(e.popped, x) == Serving(e.managers, x) + Ended(s, actions, x)
  {
    if actions == [] {
      SumZero(s.managers, (m: Manager) => Has(m, x));
    } else {
      var before := actions[..|actions| - 1];
      PoppedAreServed(s, before, x);
      RunKeeps(s, before);
      StepServes(Exec(s, before).value, actions[|actions| - 1], x);
    }
  }

  /**
    Exactly once: after any run each registration has been accepted as often as it is in
    the producer's hand, in the queue, with a manager, or has had a session that ended.
   */
  lemma ServedExactly(s: State, actions: seq<Action>, x: Triple)
    requires Init(s) && Exec(s, actions).Some?
    ensures var e := Exec(s, actions).value;
            Count(e.accepted, x) == Count(InHand(e.producer), x) + Count(e.queue, x) + Serving(e.managers, x) + Ended(s, actions, x)
  {
    RunKeeps(s, actions);
    PoppedAreServed(s, actions, x);
  }

  // ---- no deadlock: a queued registration reaches an idle manager

  predicate Protocol(a: Action) { a.ProducerSteps? || a.ManagerSteps? }

  predicate Pops(s: State, a: Action) {
    a.ManagerSteps? && a.i < |s.managers| && s.managers[a.i].AtPop?
  }

  /** A registration is queued and a manager is waiting for one, or on its way to take one. */
  ghost predicate Pending(s: State) {
    s.queue != [] && exists i :: 0 <= i < |s.managers| && (s.managers[i].WaitFull? || s.managers[i].LockToTake? || s.managers[i].AtPop?)
  }

  function ManagerRank(m: Manager): nat {
    match m
    case WaitFull => 5
    case LockToTake => 4
    case AtPop => 3
    case UnlockTaken(_) => 2
    case PostEmpty(_) => 1
    case InSession(_) => 0
  }

  function ProducerRank(p: Producer): nat {
    match p
    case WaitEmpty(_) => 5
    case LockToAdd(_) => 4
    case AtEnqueue(_) => 3
    case UnlockAdded => 2
    case PostFull => 1
    case Accepting => 0
  }

  function Measure(s: State): nat { ProducerRank(s.producer) + Sum(s.managers, ManagerRank) }

  lemma ProtocolStepsDecrease(s: State, a: Action)
    requires Invariant(s) && Enabled(s, a) && Protocol(a)
    ensures Measure(Apply(s, a)) < Measure(s)
  {
    if a.ManagerSteps? {
      ManagerKeeps(s, a);
      SumUpdate(s.managers, ManagerRank, a.i, Apply(s, a).managers[a.i]);
    }
  }

  /** Somebody can go on: the waiting manager, whoever holds the mutex, or whoever owes an announcement. */
  lemma PendingIsNotStuck(s: State) returns (a: Action)
    requires Invariant(s) && Pending(s)
    ensures Protocol(a) && Enabled(s, a)
  {
    if s.mutex == Some(TheProducer) || s.producer.PostFull? {
      a := ProducerSteps;
    } else if s.mutex.Some? {
      a := ManagerSteps(s.mutex.value.i);
    } else if Sum(s.managers, Promised) > 0 {
      var i := SumWitness(s.managers, Promised);
      a := ManagerSteps(i);
    } else {
      var i :| 0 <= i < |s.managers| && (s.managers[i].WaitFull? || s.managers[i].LockToTake? || s.managers[i].AtPop?);
      SumAtLeast(s.managers, Promised, i);
      a := ManagerSteps(i);
    }
  }

  /** A new client or the end of a session adds at most five steps. */
  lemma EnvironmentAddsFive(s: State, a: Action)
    requires Enabled(s, a) && !Protocol(a)
    ensures Measure(Apply(s, a)) == Measure(s) + 5
  {
    if a.SessionEnds? {
      SumUpdate(s.managers, ManagerRank, a.i, WaitFull);
    }
  }

  lemma PendingStays(s: State, a: Action)
    requires Invariant(s) && Pending(s) && Enabled(s, a) && !Pops(s, a)
    ensures Pending(Apply(s, a))
  {
    var s' := Apply(s, a);
    var i :| 0 <= i < |s.managers| && (s.managers[i].WaitFull? || s.managers[i].LockToTake? || s.managers[i].AtPop?);
    assert s'.managers[i].WaitFull? || s'.managers[i].LockToTake? || s'.managers[i].AtPop?;
  }

  /** A stretch of a run in which nothing is popped. */
  ghost predicate PopFree(s: State, actions: seq<Action>) {
    actions != [] ==>
      var before := actions[..|actions| - 1];
      && PopFree(s, before)
      && (Exec(s, before).Some? ==> !Pops(Exec(s, before).value, actions[|actions| - 1]))
  }

  /** How many of the steps are the threads' own. */
  function OwnSteps(actions: seq<Action>): nat {
    if actions == [] then 0
    else OwnSteps(actions[..|actions| - 1]) + if Protocol(actions[|actions| - 1]) then 1 else 0
  }

  /**
    From any state where a registration is queued and a manager waits, while clients come
    and sessions end, the threads cannot stop before a pop, and without one they cannot
    go on for more steps than `Measure` and five for each step of the environment.
   */
  lemma {:induction false} PopComes(s: State, actions: seq<Action>) returns (next: Action)
    requires Invariant(s) && Pending(s) && Exec(s, actions).Some? && PopFree(s, actions)
    ensures var e := Exec(s, actions).value;
            && Invariant(e) && Pending(e) && Protocol(next) && Enabled(e, next)
            && OwnSteps(actions) + Measure(e) <= Measure(s) + 5 * (|actions| - OwnSteps(actions))
  {
    if actions != [] {
      var before, a := actions[..|actions| - 1], actions[|actions| - 1];
      var _ := PopComes(s, before);
      var m := Exec(s, before).value;
      PendingStays(m, a);
      if Protocol(a) {
        ProtocolStepsDecrease(m, a);
      } else {
        EnvironmentAddsFive(m, a);
      }
      if a.Register? || a.ProducerSteps? {
        ProducerKeeps(m, a);
      } else {
        ManagerKeeps(m, a);
      }
    }
    next := PendingIsNotStuck(Exec(s, actions).value);
  }
}
