/**
  The moments that Batches.dfy stamps on its commands are those of the run: a command is
  stamped when it is called and when it returns.  And the threads never wait for ever.
 */
module RealTime {
  import opened CStrings
  import opened LinkedList
  import opened Table
  import opened Batches

  /** How many update batches were over when the thread made its last call. */
  function CalledAt(s: State, actions: seq<Action>, tid: nat): nat
    requires Exec(s, actions).Some?
  {
    if actions == [] then 0
    else
      var before, a := actions[..|actions| - 1], actions[|actions| - 1];
      if a.Call? && a.tid == tid then |Exec(s, before).value.history| else CalledAt(s, before, tid)
  }

  lemma {:induction false} ThreadsAreStamped(s: State, actions: seq<Action>, tid: nat)
    requires Init(s) && Exec(s, actions).Some? && tid < |Exec(s, actions).value.threads|
    requires !Exec(s, actions).value.threads[tid].Idle?
    ensures Exec(s, actions).value.threads[tid].since == CalledAt(s, actions, tid)
  {
    if actions != [] {
      var before := actions[..|actions| - 1];
      if !Exec(s, before).value.threads[tid].Idle? {
        ThreadsAreStamped(s, before, tid);
      }
    }
  }

  /** When each backup child that still runs was called for. */
  function ChildStamps(s: State, actions: seq<Action>): seq<nat>
    requires Exec(s, actions).Some?
  {
    if actions == [] then []
    else
      var before := actions[..|actions| - 1];
      var x, stamps := Exec(s, before).value, ChildStamps(s, before);
      match actions[|actions| - 1]
      case Iterate(tid) => if x.threads[tid].c.Backup? then stamps + [CalledAt(s, before, tid)] else stamps
      case ChildExits(k) => if k < |stamps| then DropAt(stamps, k) else stamps
      case _ => stamps
  }

  predicate Stamped(children: seq<Child>, stamps: seq<nat>) {
    |stamps| == |children| && forall k :: 0 <= k < |children| ==> children[k].since == stamps[k]
  }

  lemma ChildStep(s: State, a: Action, stamps: seq<nat>, called: nat)
    requires Enabled(s, a) && Stamped(s.children, stamps) && (a.Iterate? ==> s.threads[a.tid].since == called)
    ensures Stamped(Apply(s, a).children,
                    match a
                    case Iterate(tid) => if s.threads[tid].c.Backup? then stamps + [called] else stamps
                    case ChildExits(k) => if k < |stamps| then DropAt(stamps, k) else stamps
                    case _ => stamps)
  {}

  lemma {:induction false} ChildrenAreStamped(s: State, actions: seq<Action>)
    requires Init(s) && Exec(s, actions).Some?
    ensures Stamped(Exec(s, actions).value.children, ChildStamps(s, actions))
  {
    if actions != [] {
      var before, a := actions[..|actions| - 1], actions[|actions| - 1];
      ChildrenAreStamped(s, before);
      if a.Iterate? {
        ThreadsAreStamped(s, before, a.tid);
      }
      ChildStep(Exec(s, before).value, a, ChildStamps(s, before), if a.Iterate? then CalledAt(s, before, a.tid) else 0);
    }
  }

  /** From a call to its return, in update batches. */
  datatype Span = Span(called: nat, returned: nat)

  function DoneSpans(s: State, actions: seq<Action>): seq<Span>
    requires Exec(s, actions).Some?
  {
    if actions == [] then []
    else
      var before := actions[..|actions| - 1];
      var x, spans, stamps := Exec(s, before).value, DoneSpans(s, before), ChildStamps(s, before);
      match actions[|actions| - 1]
      case Release(tid) => if x.threads[tid].c.Backup? then spans else spans + [Span(CalledAt(s, before, tid), |x.history|)]
      case ChildExits(k) => if k < |stamps| then spans + [Span(stamps[k], |x.history|)] else spans
      case _ => spans
  }

  predicate Spanned(done: seq<Done>, spans: seq<Span>) {
    |spans| == |done| && forall k :: 0 <= k < |done| ==> Span(done[k].since, done[k].until) == spans[k]
  }

  lemma DoneStep(s: State, a: Action, spans: seq<Span>, stamps: seq<nat>, called: nat)
    requires Enabled(s, a) && Spanned(s.done, spans) && Stamped(s.children, stamps) && (a.Release? ==> s.threads[a.tid].since == called)
    ensures Spanned(Apply(s, a).done,
                    match a
                    case Release(tid) => if s.threads[tid].c.Backup? then spans else spans + [Span(called, |s.history|)]
                    case ChildExits(k) => if k < |stamps| then spans + [Span(stamps[k], |s.history|)] else spans
                    case _ => spans)
  {}

  lemma {:induction false} DoneAreSpanned(s: State, actions: seq<Action>)
    requires Init(s) && Exec(s, actions).Some?
    ensures Spanned(Exec(s, actions).value.done, DoneSpans(s, actions))
  {
    if actions != [] {
      var before, a := actions[..|actions| - 1], actions[|actions| - 1];
      DoneAreSpanned(s, before);
      ChildrenAreStamped(s, before);
      if a.Release? {
        ThreadsAreStamped(s, before, a.tid);
      }
      DoneStep(Exec(s, before).value, a, DoneSpans(s, before), ChildStamps(s, before), if a.Release? then CalledAt(s, before, a.tid) else 0);
    }
  }

  /**
    Real time: every finished command took effect at a point between its call and its
    return in the run, a backup between its call and the end of its child.
   */
  lemma EffectLiesBetween(s: State, actions: seq<Action>, k: nat)
    requires Init(s) && Exec(s, actions).Some? && k < |Exec(s, actions).value.done|
    ensures var d, spans := Exec(s, actions).value.done[k], DoneSpans(s, actions);
            k < |spans| && spans[k].called <= d.at <= spans[k].returned
  {
    BatchesAreAtomic(s, actions);
    DoneAreSpanned(s, actions);
  }

  // ---- nobody waits for ever

  lemma {:induction false} ReadersAreThreads(s: State, actions: seq<Action>)
    requires Init(s) && Exec(s, actions).Some?
    ensures var e := Exec(s, actions).value; |e.threads| == |s.threads| && forall r :: r in e.readers ==> r < |e.threads|
  {
    if actions != [] {
      ReadersAreThreads(s, actions[..|actions| - 1]);
    }
  }

  predicate OwnStep(a: Action) { a.Acquire? || a.Iterate? || a.Release? || a.ChildPrints? || a.ChildExits? }

  lemma HolderGoesOn(init: Buckets, s: State, tid: nat) returns (a: Action)
    requires |init| == TABLE_SIZE && Invariant(init, s) && tid < |s.threads| && s.threads[tid].Holding?
    ensures OwnStep(a) && Enabled(s, a)
  {
    var th, base := s.threads[tid], At(init, s.history, |s.history|);
    assert LoopOk(base, s.t, th);
    StepFollows(s.t, base, th.c, th.i);
    a := if th.i < Size(s.t, th.c) then Iterate(tid) else Release(tid);
  }

  /** While a thread has called or a child runs, somebody can go on: who holds the lock, or else whoever waits for it. */
  lemma SomebodyGoesOn(s: State, actions: seq<Action>) returns (a: Action)
    requires Init(s) && Exec(s, actions).Some?
    requires var e := Exec(s, actions).value; e.children != [] || exists k :: 0 <= k < |e.threads| && !e.threads[k].Idle?
    ensures OwnStep(a) && Enabled(Exec(s, actions).value, a)
  {
    var e := Exec(s, actions).value;
    RunKeeps(s, actions);
    ReadersAreThreads(s, actions);
    if e.children != [] {
      assert ChildOk(s.t, e.history, e.children[0]);
      a := if e.children[0].i < |Flatten(e.children[0].copy)| then ChildPrints(0) else ChildExits(0);
    } else if holder :| 0 <= holder < |e.threads| && e.threads[holder].Holding? {
      a := HolderGoesOn(s.t, e, holder);
    } else {
      var k :| 0 <= k < |e.threads| && !e.threads[k].Idle?;
      assert e.readers == {};
      a := Acquire(k);
    }
  }
}
