/**
  The job workers: they share one directory cursor under a mutex, take the next
  eligible entry each, and run it outside the mutex.
 */
module JobPool {
  import opened CStrings
  import opened LinkedList
  import opened Sums

  const MAX_JOB_FILE_NAME_SIZE: nat := 256

  /** strrchr(s, '.'): the index of the last dot, or the length. */
  function LastDot(s: string): (i: nat)
    ensures i <= |s|
    ensures i < |s| ==> s[i] == '.'
    ensures forall j :: i < j < |s| ==> s[j] != '.'
    ensures i == |s| ==> forall j :: 0 <= j < |s| ==> s[j] != '.'
  {
    if s == "" then 0
    else if s[|s| - 1] == '.' then |s| - 1
    else
      var i := LastDot(s[..|s| - 1]);
      if i == |s| - 1 then |s| else i
  }

  datatype Paths = Paths(input: string, output: string)

  /** entry_files: the paths of a job entry, or nothing for an entry to skip. */
  function EntryFiles(dir: string, name: string): Option<Paths> {
    var dot := LastDot(name);
    if dot == |name| || dot == 0 || |name| - dot != 4 || name[dot..] != ".job" then None
    else if |name| + |dir| + 2 > MAX_JOB_FILE_NAME_SIZE then None
    else
      var input := dir + "/" + name;
      Some(Paths(input, input[..LastDot(input)] + ".out"))
  }

  predicate IsJob(dir: string, base: string, name: string) {
    base != "" && name == base + ".job" && |name| + |dir| + 2 <= MAX_JOB_FILE_NAME_SIZE
  }

  /** The last dot of a job's name or path is that of its suffix. */
  lemma SuffixDot(pre: string, base: string)
    ensures var s := pre + base + ".job"; LastDot(s) == |pre + base| && s[..LastDot(s)] == pre + base
  {
    var s := pre + base + ".job";
    var n := |pre + base|;
    assert s[n] == '.' && s[n + 1] == 'j' && s[n + 2] == 'o' && s[n + 3] == 'b';
  }

  /** Exactly the names `base.job` that fit are jobs; both paths, with their terminators, fit 256 bytes. */
  lemma JobNames(dir: string, name: string)
    ensures EntryFiles(dir, name).Some? <==> |name| >= 4 && IsJob(dir, name[..|name| - 4], name)
    ensures EntryFiles(dir, name).Some? ==>
              var p, base := EntryFiles(dir, name).value, name[..|name| - 4];
              && p.input == dir + "/" + base + ".job" && p.output == dir + "/" + base + ".out"
              && |p.input| + 1 <= MAX_JOB_FILE_NAME_SIZE && |p.output| + 1 <= MAX_JOB_FILE_NAME_SIZE
  {
    if |name| >= 4 && name[|name| - 4..] == ".job" {
      var base := name[..|name| - 4];
      assert name == "" + base + ".job";
      SuffixDot("", base);
      SuffixDot(dir + "/", base);
      assert dir + "/" + base + ".job" == dir + "/" + name;
    }
  }

  lemma MiddleInjective(pre: string, a: string, b: string, post: string)
    requires pre + a + post == pre + b + post
    ensures a == b
  {
    assert |pre + a + post| == |pre + b + post|;
    assert a == (pre + a + post)[|pre|..|pre| + |a|];
    assert b == (pre + b + post)[|pre|..|pre| + |b|];
  }

  /** Distinct jobs write distinct files, and none writes over a job. */
  lemma OutputsDistinct(dir: string, a: string, b: string)
    requires EntryFiles(dir, a).Some? && EntryFiles(dir, b).Some? && a != b
    ensures EntryFiles(dir, a).value.output != EntryFiles(dir, b).value.output
    ensures EntryFiles(dir, a).value.output != EntryFiles(dir, b).value.input
  {
    JobNames(dir, a);
    JobNames(dir, b);
    var x, y := EntryFiles(dir, a).value, EntryFiles(dir, b).value;
    var p, q := a[..|a| - 4], b[..|b| - 4];
    assert p != q by {
      assert a == p + ".job" && b == q + ".job";
    }
    if x.output == y.output {
      MiddleInjective(dir + "/", p, q, ".out");
      assert false;
    }
    assert x.output[|x.output| - 1] == 't' && y.input[|y.input| - 1] == 'b';
  }

  // ---- the pool

  datatype Worker =
    | AtLock
    | Scanning            // holds the mutex, about to call readdir
    | Taking(k: nat)      // holds the mutex and entry k
    | Opening(k: nat)
    | Running(k: nat)
    | AtEnd               // holds the mutex; readdir returned NULL
    | Finished
    | Failed              // pthread_exit after a failed open

  datatype State = State(cursor: nat, mutex: Option<nat>, workers: seq<Worker>, ran: seq<nat>, failed: seq<nat>)

  datatype Action = Lock(w: nat) | ReadDir(w: nat) | Unlock(w: nat) | OpenFails(w: nat) | OpenWorks(w: nat) | JobEnds(w: nat)

  predicate Enabled(s: State, a: Action) {
    a.w < |s.workers| &&
    match a
    case Lock(w) => s.workers[w].AtLock? && s.mutex == None
    case ReadDir(w) => s.workers[w].Scanning?
    case Unlock(w) => s.workers[w].Taking? || s.workers[w].AtEnd?
    case OpenFails(w) => s.workers[w].Opening?
    case OpenWorks(w) => s.workers[w].Opening?
    case JobEnds(w) => s.workers[w].Running?
  }

  predicate Eligible(dir: string, entries: seq<string>, k: nat) {
    k < |entries| && EntryFiles(dir, entries[k]).Some?
  }

  function Apply(dir: string, entries: seq<string>, s: State, a: Action): State
    requires Enabled(s, a)
  {
    match a
    case Lock(w) => s.(mutex := Some(w), workers := s.workers[w := Scanning])
    case ReadDir(w) =>
      if s.cursor >= |entries| then s.(workers := s.workers[w := AtEnd])
      else if Eligible(dir, entries, s.cursor) then s.(cursor := s.cursor + 1, workers := s.workers[w := Taking(s.cursor)])
      else s.(cursor := s.cursor + 1)
    case Unlock(w) =>
      s.(mutex := None, workers := s.workers[w := if s.workers[w].AtEnd? then Finished else Opening(s.workers[w].k)])
    case OpenFails(w) => s.(failed := s.failed + [s.workers[w].k], workers := s.workers[w := Failed])
    case OpenWorks(w) => s.(workers := s.workers[w := Running(s.workers[w].k)])
    case JobEnds(w) => s.(ran := s.ran + [s.workers[w].k], workers := s.workers[w := AtLock])
  }

  predicate Init(s: State) {
    s.cursor == 0 && s.mutex == None && s.ran == [] && s.failed == [] && forall w :: 0 <= w < |s.workers| ==> s.workers[w] == AtLock
  }

  function Exec(dir: string, entries: seq<string>, s: State, actions: seq<Action>): Option<State> {
    if actions == [] then Some(s)
    else
      var m := Exec(dir, entries, s, actions[..|actions| - 1]);
      var a := actions[|actions| - 1];
      if m.Some? && Enabled(m.value, a) then Some(Apply(dir, entries, m.value, a)) else None
  }

  predicate HoldsMutex(w: Worker) { w.Scanning? || w.Taking? || w.AtEnd? }

  /** 1 when the worker has entry `k` in hand. */
  function InHand(w: Worker, k: nat): nat {
    if (w.Taking? || w.Opening? || w.Running?) && w.k == k then 1 else 0
  }

  function Hands(workers: seq<Worker>, k: nat): nat {
    Sum(workers, (w: Worker) => InHand(w, k))
  }

  lemma HandsUpdate(workers: seq<Worker>, i: nat, w: Worker, k: nat)
    requires i < |workers|
    ensures Hands(workers[i := w], k) == Hands(workers, k) - InHand(workers[i], k) + InHand(w, k)
  {
    SumUpdate(workers, (w: Worker) => InHand(w, k), i, w);
  }

  /** Whoever reads the directory holds the mutex; whoever saw the end saw the cursor there. */
  ghost predicate Control(entries: seq<string>, s: State) {
    && (s.mutex.Some? ==> s.mutex.value < |s.workers|)
    && (forall w :: 0 <= w < |s.workers| ==> (s.mutex == Some(w) <==> HoldsMutex(s.workers[w])))
    && s.cursor <= |entries|
    && (forall w :: 0 <= w < |s.workers| && (s.workers[w].AtEnd? || s.workers[w].Finished?) ==> s.cursor == |entries|)
    && (forall w :: 0 <= w < |s.workers| && s.workers[w].Failed? ==> s.failed != [])
  }

  /** Every eligible entry the cursor has passed is in one place, every other in none. */
  ghost predicate Places(dir: string, entries: seq<string>, s: State) {
    forall k: nat {:trigger Hands(s.workers, k)} :: Count(s.ran, k) + Count(s.failed, k) + Hands(s.workers, k) ==
      if k < s.cursor && Eligible(dir, entries, k) then 1 else 0
  }

  ghost predicate Invariant(dir: string, entries: seq<string>, s: State) {
    Control(entries, s) && Places(dir, entries, s)
  }

  lemma PlacesKeep(dir: string, entries: seq<string>, s: State, a: Action)
    requires Invariant(dir, entries, s) && Enabled(s, a)
    ensures Places(dir, entries, Apply(dir, entries, s, a))
  {
    var s' := Apply(dir, entries, s, a);
    assert s'.workers == s.workers[a.w := s'.workers[a.w]];
    forall k: nat {:trigger Hands(s'.workers, k)}
      ensures Count(s'.ran, k) + Count(s'.failed, k) + Hands(s'.workers, k) ==
              if k < s'.cursor && Eligible(dir, entries, k) then 1 else 0
    {
      HandsUpdate(s.workers, a.w, s'.workers[a.w], k);
      if a.JobEnds? {
        CountSnoc(s.ran, s.workers[a.w].k, k);
      } else if a.OpenFails? {
        CountSnoc(s.failed, s.workers[a.w].k, k);
      }
    }
  }

  lemma ControlKeeps(dir: string, entries: seq<string>, s: State, a: Action)
    requires Control(entries, s) && Enabled(s, a)
    ensures Control(entries, Apply(dir, entries, s, a))
  {}

  lemma {:induction false} RunKeeps(dir: string, entries: seq<string>, s: State, actions: seq<Action>)
    requires Init(s) && Exec(dir, entries, s, actions).Some?
    ensures Invariant(dir, entries, Exec(dir, entries, s, actions).value)
    ensures |Exec(dir, entries, s, actions).value.workers| == |s.workers|
  {
    if actions == [] {
      forall k: nat ensures Hands(s.workers, k) == 0 {
        SumZero(s.workers, (w: Worker) => InHand(w, k));
      }
    } else {
      RunKeeps(dir, entries, s, actions[..|actions| - 1]);
      PlacesKeep(dir, entries, Exec(dir, entries, s, actions[..|actions| - 1]).value, actions[|actions| - 1]);
      ControlKeeps(dir, entries, Exec(dir, entries, s, actions[..|actions| - 1]).value, actions[|actions| - 1]);
    }
  }

  /** No entry is ever in two hands, and a worker that saw the end saw every entry handed out. */
  lemma HandedOutOnce(dir: string, entries: seq<string>, s: State, actions: seq<Action>, k: nat)
    requires Init(s) && Exec(dir, entries, s, actions).Some?
    ensures var e := Exec(dir, entries, s, actions).value;
            && Count(e.ran, k) + Count(e.failed, k) + Hands(e.workers, k) <= 1
            && ((exists w :: 0 <= w < |e.workers| && e.workers[w].Finished?) ==>
                  Count(e.ran, k) + Count(e.failed, k) + Hands(e.workers, k) == if Eligible(dir, entries, k) then 1 else 0)
  {
    RunKeeps(dir, entries, s, actions);
  }

  ghost predicate AllJoined(s: State) {
    forall w :: 0 <= w < |s.workers| ==> s.workers[w].Finished? || s.workers[w].Failed?
  }

  /** Once all workers are joined, each job has run exactly once if and only if no open failed. */
  lemma EachJobOnce(dir: string, entries: seq<string>, s: State, actions: seq<Action>)
    requires Init(s) && |s.workers| > 0 && Exec(dir, entries, s, actions).Some?
    requires AllJoined(Exec(dir, entries, s, actions).value)
    ensures var e := Exec(dir, entries, s, actions).value;
            (forall k: nat :: Count(e.ran, k) == if Eligible(dir, entries, k) then 1 else 0) <==> e.failed == []
  {
    RunKeeps(dir, entries, s, actions);
    var e := Exec(dir, entries, s, actions).value;
    forall k: nat ensures Hands(e.workers, k) == 0 {
      SumZero(e.workers, (w: Worker) => InHand(w, k));
    }
    if e.failed == [] {
      assert e.workers[0].Finished?;
      forall k: nat ensures Count(e.ran, k) == if Eligible(dir, entries, k) then 1 else 0 {
        assert Hands(e.workers, k) == 0;
      }
    } else {
      var k := e.failed[0];
      CountIn(e.failed, k);
      assert Hands(e.workers, k) == 0;
      assert Count(e.ran, k) == 0 && Eligible(dir, entries, k);
    }
  }

  // ---- the pool comes to an end

  function Rank(w: Worker): nat {
    match w
    case Taking(_) => 8
    case Opening(_) => 7
    case Running(_) => 6
    case AtLock => 5
    case Scanning => 4
    case AtEnd => 2
    case Finished => 0
    case Failed => 0
  }

  /** Ten steps at most for each entry the cursor has not passed, and what each worker has in hand. */
  function Measure(entries: seq<string>, s: State): int {
    10 * (|entries| - s.cursor) + Sum(s.workers, Rank)
  }

  lemma StepsDecrease(dir: string, entries: seq<string>, s: State, a: Action)
    requires s.cursor <= |entries| && Enabled(s, a)
    ensures Measure(entries, Apply(dir, entries, s, a)) < Measure(entries, s)
  {
    var s' := Apply(dir, entries, s, a);
    assert s'.workers == s.workers[a.w := s'.workers[a.w]];
    SumUpdate(s.workers, Rank, a.w, s'.workers[a.w]);
  }

  /** No run takes more steps than that. */
  lemma {:induction false} RunsAreBounded(dir: string, entries: seq<string>, s: State, actions: seq<Action>)
    requires Init(s) && Exec(dir, entries, s, actions).Some?
    ensures |actions| + Measure(entries, Exec(dir, entries, s, actions).value) <= Measure(entries, s)
  {
    if actions != [] {
      var before := actions[..|actions| - 1];
      RunsAreBounded(dir, entries, s, before);
      RunKeeps(dir, entries, s, before);
      StepsDecrease(dir, entries, Exec(dir, entries, s, before).value, actions[|actions| - 1]);
    }
  }

  /** And none stops before every worker is through: whoever holds the mutex, or else anybody, can go on. */
  lemma SomebodyGoesOn(dir: string, entries: seq<string>, s: State, actions: seq<Action>) returns (a: Action)
    requires Init(s) && Exec(dir, entries, s, actions).Some? && !AllJoined(Exec(dir, entries, s, actions).value)
    ensures Enabled(Exec(dir, entries, s, actions).value, a)
  {
    var e := Exec(dir, entries, s, actions).value;
    RunKeeps(dir, entries, s, actions);
    var w: nat :| w < |e.workers| && !e.workers[w].Finished? && !e.workers[w].Failed?;
    if e.mutex.Some? {
      w := e.mutex.value;
    }
    match e.workers[w]
    case AtLock => a := Lock(w);
    case Scanning => a := ReadDir(w);
    case Taking(_) => a := Unlock(w);
    case AtEnd => a := Unlock(w);
    case Opening(_) => a := OpenWorks(w);
    case Running(_) => a := JobEnds(w);
  }
}
