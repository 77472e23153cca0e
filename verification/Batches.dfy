/**
  Threads run batch commands key by key under the table's read-write lock, while
  sessions subscribe and unsubscribe without it.  Every run is explained by whole
  batches: each printed answer is the answer on the table left by some whole
  number of WRITE and DELETE batches, reached between the call and the return.
 */
module Batches {
  import opened CStrings
  import opened LinkedList
  import opened Table
  import opened Operations
  import opened Rendering

  datatype Command = Write(pairs: seq<Pair>) | Delete(keys: seq<string>) | Read(keys: seq<string>) | Show | Backup

  predicate Updates(c: Command) { c.Write? || c.Delete? }

  predicate Hashables(c: Command) {
    match c
    case Write(pairs) => PairsHashable(pairs)
    case Delete(keys) => AllHashable(keys)
    case Read(keys) => AllHashable(keys)
    case Show => true
    case Backup => true
  }

  // ---- one command alone on a table

  /** How many iterations the command's loop makes; the fork of BACKUP is one. */
  function Size(t: Buckets, c: Command): nat {
    match c
    case Write(pairs) => |pairs|
    case Delete(keys) => |keys|
    case Read(keys) => |keys|
    case Show => |Flatten(t)|
    case Backup => 1
  }

  /** The table after `i` iterations. */
  function After(t: Buckets, c: Command, i: nat): (r: Buckets)
    requires |t| == TABLE_SIZE && Hashables(c) && i <= Size(t, c)
    ensures |r| == TABLE_SIZE
  {
    match c
    case Write(pairs) => PutAll(t, pairs, i)
    case Delete(keys) => RemoveAll(t, keys, i)
    case Read(_) => t
    case Show => t
    case Backup => t
  }

  function ReadParts(t: Buckets, keys: seq<string>, i: nat): seq<string>
    requires |t| == TABLE_SIZE && AllHashable(keys) && i <= |keys|
  {
    if i == 0 then [] else ReadParts(t, keys, i - 1) + [ReadItem(keys[i - 1], Lookup(t, keys[i - 1]))]
  }

  function ShowParts(records: seq<Record>, i: nat): seq<string>
    requires i <= |records|
  {
    if i == 0 then [] else ShowParts(records, i - 1) + [ShowLine(records[i - 1].key, records[i - 1].value)]
  }

  /** What the loop has collected after `i` iterations. */
  function Parts(t: Buckets, c: Command, i: nat): seq<string>
    requires |t| == TABLE_SIZE && Hashables(c) && i <= Size(t, c)
  {
    match c
    case Write(_) => []
    case Delete(keys) => Failed(t, keys, i)
    case Read(keys) => ReadParts(t, keys, i)
    case Show => ShowParts(Flatten(t), i)
    case Backup => []
  }

  function Output(c: Command, parts: seq<string>): string {
    match c
    case Write(_) => ""
    case Delete(_) => DeleteReport(parts)
    case Read(_) => "[" + Join(parts) + "]\n"
    case Show => Join(parts)
    case Backup => Join(parts)
  }

  /** The answer of the whole command on one table. */
  function Answer(t: Buckets, c: Command): string
    requires |t| == TABLE_SIZE && Hashables(c)
  {
    match c
    case Write(_) => ""
    case Delete(keys) => DeleteReport(Failed(t, keys, |keys|))
    case Read(keys) => ReadText(t, keys)
    case Show => ShowText(t)
    case Backup => ShowText(t)
  }

  lemma {:induction false} ReadPartsText(t: Buckets, keys: seq<string>, i: nat)
    requires |t| == TABLE_SIZE && AllHashable(keys) && i <= |keys|
    ensures Join(ReadParts(t, keys, i)) == ReadItems(t, keys, i)
  {
    if i > 0 {
      ReadPartsText(t, keys, i - 1);
      JoinSnoc(ReadParts(t, keys, i - 1), ReadItem(keys[i - 1], Lookup(t, keys[i - 1])));
    }
  }

  lemma {:induction false} ShowPartsText(records: seq<Record>, i: nat)
    requires i <= |records|
    ensures Join(ShowParts(records, i)) == ShowLines(records[..i])
  {
    if i > 0 {
      ShowPartsText(records, i - 1);
      JoinSnoc(ShowParts(records, i - 1), ShowLine(records[i - 1].key, records[i - 1].value));
      assert records[..i][..i - 1] == records[..i - 1];
    }
  }

  lemma OutputIsAnswer(t: Buckets, c: Command)
    requires |t| == TABLE_SIZE && Hashables(c) && !c.Backup?
    ensures Output(c, Parts(t, c, Size(t, c))) == Answer(t, c)
  {
    match c
    case Read(keys) => ReadPartsText(t, keys, |keys|);
    case Show =>
      ShowPartsText(Flatten(t), |Flatten(t)|);
      assert Flatten(t)[..|Flatten(t)|] == Flatten(t);
    case _ =>
  }

  /** The table after whole batches, one after the other. */
  function Replay(init: Buckets, history: seq<Command>): (t: Buckets)
    requires |init| == TABLE_SIZE && forall c :: c in history ==> Hashables(c)
    ensures |t| == TABLE_SIZE
  {
    if history == [] then init
    else
      var before := Replay(init, history[..|history| - 1]);
      var c := history[|history| - 1];
      assert c in history;
      After(before, c, Size(before, c))
  }

  // ---- one iteration on the shared table, whatever it holds by then

  function Step(t: Buckets, c: Command, i: nat): (r: Buckets)
    requires |t| == TABLE_SIZE && Hashables(c) && i < Size(t, c)
    ensures |r| == TABLE_SIZE
  {
    match c
    case Write(pairs) => Put(t, pairs[i].key, pairs[i].value)
    case Delete(keys) => Remove(t, keys[i])
    case Read(_) => t
    case Show => t
    case Backup => t
  }

  function Collect(t: Buckets, c: Command, i: nat, parts: seq<string>): seq<string>
    requires |t| == TABLE_SIZE && Hashables(c) && i < Size(t, c)
  {
    match c
    case Write(_) => parts
    case Delete(keys) => if Has(t, keys[i]) then parts else parts + [keys[i]]
    case Read(keys) => parts + [ReadItem(keys[i], Lookup(t, keys[i]))]
    case Show => parts + [ShowLine(Flatten(t)[i].key, Flatten(t)[i].value)]
    case Backup => parts
  }

  // ---- subscriptions do not matter to any of it

  lemma PositionIgnoresSubs(t: Buckets, key: string)
    requires |t| == TABLE_SIZE && Hashable(key)
    ensures Position(ClearSubs(t)[Hash(key)], key) == Position(t[Hash(key)], key)
    ensures Has(ClearSubs(t), key) == Has(t, key) && Lookup(ClearSubs(t), key) == Lookup(t, key)
  {
    PositionByKeys(ClearSubs(t)[Hash(key)], t[Hash(key)], key);
  }

  lemma ClearedUpdate(t: Buckets, b: nat, chain: Chain)
    requires b < |t|
    ensures ClearSubs(t[b := chain]) == ClearSubs(t)[b := ClearedChain(chain)]
  {}

  lemma ClearedPut(t: Buckets, key: string, value: string)
    requires |t| == TABLE_SIZE && Hashable(key)
    ensures ClearSubs(Put(t, key, value)) == Put(ClearSubs(t), key, value)
  {
    PositionIgnoresSubs(t, key);
    var chain := t[Hash(key)];
    assert ClearedChain(PutIn(chain, key, value)) == PutIn(ClearedChain(chain), key, value);
    ClearedUpdate(t, Hash(key), PutIn(chain, key, value));
  }

  lemma ClearedRemove(t: Buckets, key: string)
    requires |t| == TABLE_SIZE && Hashable(key)
    ensures ClearSubs(Remove(t, key)) == Remove(ClearSubs(t), key)
  {
    PositionIgnoresSubs(t, key);
    var chain := t[Hash(key)];
    assert ClearedChain(RemoveIn(chain, key)) == RemoveIn(ClearedChain(chain), key);
    ClearedUpdate(t, Hash(key), RemoveIn(chain, key));
  }

  lemma ClearedSubscriptions(t: Buckets, key: string, fd: int)
    requires |t| == TABLE_SIZE && Hashable(key)
    ensures ClearSubs(AddSub(t, key, fd)) == ClearSubs(t) == ClearSubs(RemoveSub(t, key, fd))
  {
    var chain := t[Hash(key)];
    assert ClearedChain(AddSubIn(chain, key, fd)) == ClearedChain(chain) == ClearedChain(RemoveSubIn(chain, key, fd));
    ClearedUpdate(t, Hash(key), AddSubIn(chain, key, fd));
    ClearedUpdate(t, Hash(key), RemoveSubIn(chain, key, fd));
  }

  lemma ClearedTwice(t: Buckets)
    ensures ClearSubs(ClearSubs(t)) == ClearSubs(t)
  {
    forall i | 0 <= i < |t| ensures ClearedChain(ClearedChain(t[i])) == ClearedChain(t[i]) {}
  }

  lemma {:induction false} FlattenIgnoresSubs(t: Buckets)
    ensures |Flatten(ClearSubs(t))| == |Flatten(t)|
    ensures forall i :: 0 <= i < |Flatten(t)| ==> Flatten(ClearSubs(t))[i] == Flatten(t)[i].(subs := [])
  {
    if t != [] {
      FlattenIgnoresSubs(t[1..]);
      assert ClearSubs(t)[1..] == ClearSubs(t[1..]);
    }
  }

  /** One iteration on the shared table does what the command alone would do next. */
  lemma StepFollows(t: Buckets, base: Buckets, c: Command, i: nat)
    requires |t| == TABLE_SIZE && |base| == TABLE_SIZE && Hashables(c)
    requires i <= Size(base, c) && ClearSubs(t) == After(base, c, i)
    ensures Size(t, c) == Size(base, c)
    ensures i < Size(base, c) ==> ClearSubs(Step(t, c, i)) == After(base, c, i + 1)
    ensures i < Size(base, c) ==> Collect(t, c, i, Parts(base, c, i)) == Parts(base, c, i + 1)
  {
    FlattenIgnoresSubs(t);
    if i < Size(base, c) {
      match c
      case Write(pairs) => ClearedPut(t, pairs[i].key, pairs[i].value);
      case Delete(keys) =>
        ClearedRemove(t, keys[i]);
        PositionIgnoresSubs(t, keys[i]);
      case Read(keys) => PositionIgnoresSubs(t, keys[i]);
      case Show =>
      case Backup =>
    }
  }

  // ---- the threads

  /**
    A job thread: between commands, waiting for the lock with a command, or
    holding it.  `since` counts the update batches that were over at the call.
   */
  datatype Thread =
    | Idle
    | Waiting(c: Command, since: nat)
    | Holding(c: Command, since: nat, i: nat, parts: seq<string>)

  /** A forked backup child with its own copy of the table, made when `at` update batches were over. */
  datatype Child = Child(copy: Buckets, since: nat, at: nat, i: nat, parts: seq<string>)

  /** A finished command: called after `since` update batches, effective after `at`, returned after `until`. */
  datatype Done = Done(c: Command, out: string, since: nat, at: nat, until: nat)

  datatype State = State(
    t: Buckets, readers: set<nat>, writer: Option<nat>, threads: seq<Thread>, children: seq<Child>,
    history: seq<Command>, done: seq<Done>)

  datatype Action =
    | Call(tid: nat, c: Command)
    | Acquire(tid: nat)
    | Iterate(tid: nat)
    | Release(tid: nat)
    | ChildPrints(child: nat)
    | ChildExits(child: nat)
    | Subscribe(key: string, fd: int)
    | Unsubscribe(key: string, fd: int)
    | ClearAll

  ghost predicate Init(s: State) {
    && WellFormed(s.t) && s.readers == {} && s.writer == None && s.children == [] && s.history == [] && s.done == []
    && forall i :: 0 <= i < |s.threads| ==> s.threads[i] == Idle
  }

  predicate Enabled(s: State, a: Action) {
    && |s.t| == TABLE_SIZE
    && match a
       case Call(tid, c) => tid < |s.threads| && s.threads[tid].Idle? && Hashables(c)
       case Acquire(tid) =>
         && tid < |s.threads| && s.threads[tid].Waiting?
         && s.writer == None && (Updates(s.threads[tid].c) ==> s.readers == {})
       case Iterate(tid) =>
         && tid < |s.threads| && s.threads[tid].Holding? && Hashables(s.threads[tid].c)
         && s.threads[tid].i < Size(s.t, s.threads[tid].c)
       case Release(tid) =>
         tid < |s.threads| && s.threads[tid].Holding? && s.threads[tid].i == Size(s.t, s.threads[tid].c)
       case ChildPrints(k) => k < |s.children| && s.children[k].i < |Flatten(s.children[k].copy)|
       case ChildExits(k) => k < |s.children| && s.children[k].i == |Flatten(s.children[k].copy)|
       case Subscribe(key, _) => Hashable(key)
       case Unsubscribe(key, _) => Hashable(key)
       case ClearAll => true
  }

  function Apply(s: State, a: Action): State
    requires Enabled(s, a)
  {
    match a
    case Call(tid, c) => s.(threads := s.threads[tid := Waiting(c, |s.history|)])
    case Acquire(tid) =>
      var th := s.threads[tid];
      var s' := s.(threads := s.threads[tid := Holding(th.c, th.since, 0, [])]);
      if Updates(th.c) then s'.(writer := Some(tid)) else s'.(readers := s.readers + {tid})
    case Iterate(tid) =>
      var th := s.threads[tid];
      s.(t := Step(s.t, th.c, th.i),
         threads := s.threads[tid := th.(i := th.i + 1, parts := Collect(s.t, th.c, th.i, th.parts))],
         children := if th.c.Backup? then s.children + [Child(s.t, th.since, |s.history|, 0, [])] else s.children)
    case Release(tid) =>
      var th := s.threads[tid];
      var s' := s.(threads := s.threads[tid := Idle]);
      // the parent of a backup returns without an answer; its child gives it later
      var finished := if th.c.Backup? then s.done
                      else s.done + [Done(th.c, Output(th.c, th.parts), th.since, |s.history|, |s.history|)];
      if Updates(th.c) then s'.(writer := None, history := s.history + [th.c], done := finished)
      else s'.(readers := s.readers - {tid}, done := finished)
    case ChildPrints(k) =>
      var ch := s.children[k];
      var r := Flatten(ch.copy)[ch.i];
      s.(children := s.children[k := ch.(i := ch.i + 1, parts := ch.parts + [ShowLine(r.key, r.value)])])
    case ChildExits(k) =>
      var ch := s.children[k];
      s.(children := DropAt(s.children, k),
         done := s.done + [Done(Backup, Output(Backup, ch.parts), ch.since, ch.at, |s.history|)])
    case Subscribe(key, fd) => s.(t := AddSub(s.t, key, fd))
    case Unsubscribe(key, fd) => s.(t := RemoveSub(s.t, key, fd))
    case ClearAll => s.(t := ClearSubs(s.t))
  }

  /** The state a sequence of actions leads to, if each is possible where it comes. */
  function Exec(s: State, actions: seq<Action>): Option<State> {
    if actions == [] then Some(s)
    else
      var m := Exec(s, actions[..|actions| - 1]);
      var a := actions[|actions| - 1];
      if m.Some? && Enabled(m.value, a) then Some(Apply(m.value, a)) else None
  }

  // ---- what every reachable state keeps

  ghost predicate HistoryOk(history: seq<Command>) {
    forall c :: c in history ==> Hashables(c) && Updates(c)
  }

  /** The table, without subscribers, after the first `n` update batches. */
  ghost function At(init: Buckets, history: seq<Command>, n: nat): (t: Buckets)
    requires |init| == TABLE_SIZE && HistoryOk(history) && n <= |history|
    ensures |t| == TABLE_SIZE
  {
    Replay(ClearSubs(init), history[..n])
  }

  lemma AtGrows(init: Buckets, history: seq<Command>, c: Command, n: nat)
    requires |init| == TABLE_SIZE && HistoryOk(history) && Hashables(c) && Updates(c) && n <= |history|
    ensures HistoryOk(history + [c])
    ensures At(init, history + [c], n) == At(init, history, n)
    ensures At(init, history + [c], |history| + 1) ==
            var before := At(init, history, |history|); After(before, c, Size(before, c))
  {
    assert (history + [c])[..n] == history[..n];
    assert (history + [c])[..|history| + 1] == history + [c];
    assert history[..|history|] == history == (history + [c])[..|history|];
  }

  /** The answer of `d` is the answer of its command on the table after `d.at` batches; an update is batch `d.at` itself. */
  ghost predicate DoneOk(init: Buckets, history: seq<Command>, d: Done)
    requires |init| == TABLE_SIZE && HistoryOk(history)
  {
    && d.since <= d.at <= d.until <= |history| && Hashables(d.c)
    && d.out == Answer(At(init, history, d.at), d.c)
    && (Updates(d.c) ==> d.at < |history| && history[d.at] == d.c)
  }

  ghost predicate ChildOk(init: Buckets, history: seq<Command>, ch: Child)
    requires |init| == TABLE_SIZE && HistoryOk(history)
  {
    && ch.since <= ch.at <= |history| && |ch.copy| == TABLE_SIZE
    && ClearSubs(ch.copy) == At(init, history, ch.at)
    && ch.i <= |Flatten(ch.copy)| && ch.parts == ShowParts(Flatten(ch.copy), ch.i)
  }

  /** The lock is held by whoever runs, and a writer runs alone. */
  ghost predicate LockOk(s: State) {
    && (s.writer.Some? ==> s.readers == {} && s.writer.value < |s.threads|)
    && forall k :: 0 <= k < |s.threads| ==>
         match s.threads[k]
         case Idle => k !in s.readers && s.writer != Some(k)
         case Waiting(c, since) => k !in s.readers && s.writer != Some(k) && Hashables(c) && since <= |s.history|
         case Holding(c, since, _, _) =>
           && Hashables(c) && since <= |s.history|
           && (if Updates(c) then s.writer == Some(k) else k in s.readers)
  }

  /** What a thread inside its loop has done, seen from the last whole batch `base`. */
  ghost predicate LoopOk(base: Buckets, t: Buckets, th: Thread)
    requires |base| == TABLE_SIZE
  {
    th.Holding? ==>
      && Hashables(th.c) && th.i <= Size(base, th.c)
      && th.parts == Parts(base, th.c, th.i)
      && ClearSubs(t) == After(base, th.c, th.i)
  }

  /** The finished update batches, in the order they finished. */
  function Finished(done: seq<Done>): seq<Command> {
    if done == [] then []
    else
      var d := done[|done| - 1];
      if Updates(d.c) then Finished(done[..|done| - 1]) + [d.c] else Finished(done[..|done| - 1])
  }

  lemma FinishedSnoc(done: seq<Done>, d: Done)
    ensures Finished(done + [d]) == if Updates(d.c) then Finished(done) + [d.c] else Finished(done)
  {
    assert (done + [d])[..|done|] == done;
  }

  ghost predicate Invariant(init: Buckets, s: State)
    requires |init| == TABLE_SIZE
  {
    && |s.t| == TABLE_SIZE && HistoryOk(s.history) && LockOk(s) && Finished(s.done) == s.history
    && (var base := At(init, s.history, |s.history|);
        && (s.writer == None ==> ClearSubs(s.t) == base)
        && (forall k :: 0 <= k < |s.threads| ==> LoopOk(base, s.t, s.threads[k])))
    && (forall k :: 0 <= k < |s.children| ==> ChildOk(init, s.history, s.children[k]))
    && (forall k :: 0 <= k < |s.done| ==> DoneOk(init, s.history, s.done[k]))
  }

  lemma CallKeeps(init: Buckets, s: State, tid: nat, c: Command)
    requires |init| == TABLE_SIZE && Invariant(init, s) && Enabled(s, Call(tid, c))
    ensures Invariant(init, Apply(s, Call(tid, c)))
  {}

  lemma AcquireKeeps(init: Buckets, s: State, tid: nat)
    requires |init| == TABLE_SIZE && Invariant(init, s) && Enabled(s, Acquire(tid))
    ensures Invariant(init, Apply(s, Acquire(tid)))
  {
    var s' := Apply(s, Acquire(tid));
    var base := At(init, s.history, |s.history|);
    assert LoopOk(base, s'.t, s'.threads[tid]);
  }

  /** Whoever else is inside reads, and then nobody's iteration changes the table. */
  lemma OthersUndisturbed(s: State, tid: nat, k: nat)
    requires LockOk(s) && Enabled(s, Iterate(tid)) && k < |s.threads| && k != tid && s.threads[k].Holding?
    ensures Step(s.t, s.threads[tid].c, s.threads[tid].i) == s.t
  {
    assert s.threads[tid].Holding?;
  }

  /** An iteration is the next step of its own thread ... */
  lemma LoopGoesOn(init: Buckets, s: State, tid: nat)
    requires |init| == TABLE_SIZE && Invariant(init, s) && Enabled(s, Iterate(tid))
    ensures var s' := Apply(s, Iterate(tid)); LoopOk(At(init, s.history, |s.history|), s'.t, s'.threads[tid])
  {
    var base := At(init, s.history, |s.history|);
    assert LoopOk(base, s.t, s.threads[tid]);
    StepFollows(s.t, base, s.threads[tid].c, s.threads[tid].i);
  }

  /** ... and, while somebody is inside, of nobody else. */
  lemma LoopsGoOn(init: Buckets, s: State, tid: nat, k: nat)
    requires |init| == TABLE_SIZE && Invariant(init, s) && Enabled(s, Iterate(tid)) && k < |s.threads|
    ensures var s' := Apply(s, Iterate(tid)); LoopOk(At(init, s.history, |s.history|), s'.t, s'.threads[k])
  {
    if k == tid {
      LoopGoesOn(init, s, tid);
    } else {
      assert LoopOk(At(init, s.history, |s.history|), s.t, s.threads[k]);
      if s.threads[k].Holding? {
        OthersUndisturbed(s, tid, k);
      }
    }
  }

  /** A forked child starts from the table of the last whole batch. */
  lemma ForksAreWhole(init: Buckets, s: State, tid: nat)
    requires |init| == TABLE_SIZE && Invariant(init, s) && Enabled(s, Iterate(tid)) && s.threads[tid].c.Backup?
    ensures ChildOk(init, s.history, Child(s.t, s.threads[tid].since, |s.history|, 0, []))
  {
    assert LoopOk(At(init, s.history, |s.history|), s.t, s.threads[tid]);
  }

  lemma IterateKeeps(init: Buckets, s: State, tid: nat)
    requires |init| == TABLE_SIZE && Invariant(init, s) && Enabled(s, Iterate(tid))
    ensures Invariant(init, Apply(s, Iterate(tid)))
  {
    var s' := Apply(s, Iterate(tid));
    forall k | 0 <= k < |s'.threads| ensures LoopOk(At(init, s.history, |s.history|), s'.t, s'.threads[k]) {
      LoopsGoOn(init, s, tid, k);
    }
    if s.threads[tid].c.Backup? {
      ForksAreWhole(init, s, tid);
    }
    assert s.writer == None ==> s'.t == s.t;
  }

  lemma HistoryGrows(init: Buckets, history: seq<Command>, c: Command, children: seq<Child>, done: seq<Done>)
    requires |init| == TABLE_SIZE && HistoryOk(history) && Hashables(c) && Updates(c)
    requires forall k :: 0 <= k < |children| ==> ChildOk(init, history, children[k])
    requires forall k :: 0 <= k < |done| ==> DoneOk(init, history, done[k])
    ensures HistoryOk(history + [c])
    ensures forall k :: 0 <= k < |children| ==> ChildOk(init, history + [c], children[k])
    ensures forall k :: 0 <= k < |done| ==> DoneOk(init, history + [c], done[k])
  {
    forall k | 0 <= k < |children| ensures ChildOk(init, history + [c], children[k]) {
      AtGrows(init, history, c, children[k].at);
    }
    forall k | 0 <= k < |done| ensures DoneOk(init, history + [c], done[k]) {
      AtGrows(init, history, c, done[k].at);
    }
    AtGrows(init, history, c, 0);
  }

  /** The command's whole effect and answer are those on the last whole batch. */
  lemma LoopEnds(init: Buckets, s: State, tid: nat)
    requires |init| == TABLE_SIZE && Invariant(init, s) && Enabled(s, Release(tid))
    ensures var th, base := s.threads[tid], At(init, s.history, |s.history|);
            && Hashables(th.c) && th.i == Size(base, th.c)
            && ClearSubs(s.t) == After(base, th.c, Size(base, th.c))
            && (!th.c.Backup? ==> Output(th.c, th.parts) == Answer(base, th.c))
  {
    var th, base := s.threads[tid], At(init, s.history, |s.history|);
    assert LoopOk(base, s.t, th);
    StepFollows(s.t, base, th.c, th.i);
    if !th.c.Backup? {
      OutputIsAnswer(base, th.c);
    }
  }

  /** One more whole batch: what it needs for the invariant to go on. */
  lemma BatchAdded(init: Buckets, s: State, s': State, c: Command, d: Done)
    requires |init| == TABLE_SIZE && Invariant(init, s) && Hashables(c) && Updates(c)
    requires s'.t == s.t && s'.children == s.children && s'.writer == None
    requires s'.history == s.history + [c] && s'.done == s.done + [d] && LockOk(s')
    requires forall k :: 0 <= k < |s'.threads| ==> !s'.threads[k].Holding?
    requires ClearSubs(s.t) == var base := At(init, s.history, |s.history|); After(base, c, Size(base, c))
    requires d.c == c && d.since <= d.at == d.until == |s.history| && d.out == Answer(At(init, s.history, |s.history|), c)
    ensures Invariant(init, s')
  {
    HistoryGrows(init, s.history, c, s.children, s.done);
    AtGrows(init, s.history, c, |s.history|);
    FinishedSnoc(s.done, d);
    assert DoneOk(init, s'.history, d);
  }

  lemma UpdateReleaseKeeps(init: Buckets, s: State, tid: nat)
    requires |init| == TABLE_SIZE && Invariant(init, s) && Enabled(s, Release(tid)) && Updates(s.threads[tid].c)
    ensures Invariant(init, Apply(s, Release(tid)))
  {
    var s' := Apply(s, Release(tid));
    LoopEnds(init, s, tid);
    BatchAdded(init, s, s', s.threads[tid].c, s'.done[|s.done|]);
  }

  /** A reader's release leaves every loop where it is. */
  lemma LoopsStay(init: Buckets, s: State, tid: nat, k: nat)
    requires |init| == TABLE_SIZE && Invariant(init, s) && Enabled(s, Release(tid)) && !Updates(s.threads[tid].c) && k < |s.threads|
    ensures var s' := Apply(s, Release(tid)); LoopOk(At(init, s.history, |s.history|), s'.t, s'.threads[k])
  {
    assert LoopOk(At(init, s.history, |s.history|), s.t, s.threads[k]);
  }

  lemma ReaderLeaves(init: Buckets, s: State, tid: nat)
    requires |init| == TABLE_SIZE && Invariant(init, s) && Enabled(s, Release(tid)) && !Updates(s.threads[tid].c)
    ensures LockOk(Apply(s, Release(tid)))
  {}

  lemma ReaderIsDone(init: Buckets, s: State, tid: nat)
    requires |init| == TABLE_SIZE && Invariant(init, s) && Enabled(s, Release(tid)) && !Updates(s.threads[tid].c)
    requires !s.threads[tid].c.Backup?
    ensures var s', n := Apply(s, Release(tid)), |s.history|;
            var d := s'.done[|s.done|];
            s'.done == s.done + [d] && DoneOk(init, s.history, d) && Finished(s'.done) == Finished(s.done)
  {
    LoopEnds(init, s, tid);
    FinishedSnoc(s.done, Apply(s, Release(tid)).done[|s.done|]);
  }

  lemma ReadReleaseKeeps(init: Buckets, s: State, tid: nat)
    requires |init| == TABLE_SIZE && Invariant(init, s) && Enabled(s, Release(tid)) && !Updates(s.threads[tid].c)
    requires !s.threads[tid].c.Backup?
    ensures Invariant(init, Apply(s, Release(tid)))
  {
    var s' := Apply(s, Release(tid));
    forall k | 0 <= k < |s'.threads| ensures LoopOk(At(init, s.history, |s.history|), s'.t, s'.threads[k]) {
      LoopsStay(init, s, tid, k);
    }
    ReaderLeaves(init, s, tid);
    ReaderIsDone(init, s, tid);
  }

  /** The parent of a backup leaves without an answer. */
  lemma ForkReleaseKeeps(init: Buckets, s: State, tid: nat)
    requires |init| == TABLE_SIZE && Invariant(init, s) && Enabled(s, Release(tid)) && s.threads[tid].c.Backup?
    ensures Invariant(init, Apply(s, Release(tid)))
  {
    var s' := Apply(s, Release(tid));
    forall k | 0 <= k < |s'.threads| ensures LoopOk(At(init, s.history, |s.history|), s'.t, s'.threads[k]) {
      LoopsStay(init, s, tid, k);
    }
    ReaderLeaves(init, s, tid);
  }

  lemma NextLine(init: Buckets, history: seq<Command>, ch: Child)
    requires |init| == TABLE_SIZE && HistoryOk(history) && ChildOk(init, history, ch) && ch.i < |Flatten(ch.copy)|
    ensures var r := Flatten(ch.copy)[ch.i];
            ChildOk(init, history, ch.(i := ch.i + 1, parts := ch.parts + [ShowLine(r.key, r.value)]))
  {
    var r := Flatten(ch.copy)[ch.i];
    assert ShowParts(Flatten(ch.copy), ch.i + 1) == ShowParts(Flatten(ch.copy), ch.i) + [ShowLine(r.key, r.value)];
  }

  lemma ChildPrintsKeeps(init: Buckets, s: State, k: nat)
    requires |init| == TABLE_SIZE && Invariant(init, s) && Enabled(s, ChildPrints(k))
    ensures Invariant(init, Apply(s, ChildPrints(k)))
  {
    assert ChildOk(init, s.history, s.children[k]);
    NextLine(init, s.history, s.children[k]);
  }

  lemma {:induction false} ShowPartsIgnoreSubs(t: Buckets, i: nat)
    requires i <= |Flatten(t)| && |Flatten(ClearSubs(t))| == |Flatten(t)|
    ensures ShowParts(Flatten(ClearSubs(t)), i) == ShowParts(Flatten(t), i)
  {
    if i > 0 {
      FlattenIgnoresSubs(t);
      ShowPartsIgnoreSubs(t, i - 1);
    }
  }

  lemma ChildText(init: Buckets, history: seq<Command>, ch: Child)
    requires |init| == TABLE_SIZE && HistoryOk(history) && ChildOk(init, history, ch) && ch.i == |Flatten(ch.copy)|
    ensures Output(Backup, ch.parts) == ShowText(At(init, history, ch.at))
  {
    var records := Flatten(At(init, history, ch.at));
    FlattenIgnoresSubs(ch.copy);
    ShowPartsIgnoreSubs(ch.copy, ch.i);
    ShowPartsText(records, |records|);
    assert records[..|records|] == records;
  }

  /** The child answers for the table it was forked with, however late it ends. */
  lemma ChildIsDone(init: Buckets, s: State, k: nat)
    requires |init| == TABLE_SIZE && Invariant(init, s) && Enabled(s, ChildExits(k))
    ensures var s' := Apply(s, ChildExits(k));
            var d := s'.done[|s.done|];
            s'.done == s.done + [d] && DoneOk(init, s.history, d) && Finished(s'.done) == Finished(s.done)
  {
    var ch := s.children[k];
    assert ChildOk(init, s.history, ch);
    ChildText(init, s.history, ch);
    FinishedSnoc(s.done, Apply(s, ChildExits(k)).done[|s.done|]);
  }

  lemma OtherChildrenStay(init: Buckets, s: State, k: nat, j: nat)
    requires |init| == TABLE_SIZE && Invariant(init, s) && Enabled(s, ChildExits(k)) && j < |s.children| - 1
    ensures ChildOk(init, s.history, Apply(s, ChildExits(k)).children[j])
  {
    assert ChildOk(init, s.history, s.children[if j < k then j else j + 1]);
  }

  lemma ChildExitsKeeps(init: Buckets, s: State, k: nat)
    requires |init| == TABLE_SIZE && Invariant(init, s) && Enabled(s, ChildExits(k))
    ensures Invariant(init, Apply(s, ChildExits(k)))
  {
    var s' := Apply(s, ChildExits(k));
    ChildIsDone(init, s, k);
    forall j | 0 <= j < |s'.children| ensures ChildOk(init, s'.history, s'.children[j]) {
      OtherChildrenStay(init, s, k, j);
    }
  }

  /** A table that differs only in its subscribers serves the same loops. */
  lemma SubscriptionKeeps(init: Buckets, s: State, t': Buckets)
    requires |init| == TABLE_SIZE && Invariant(init, s) && |t'| == TABLE_SIZE && ClearSubs(t') == ClearSubs(s.t)
    ensures Invariant(init, s.(t := t'))
  {
    var base := At(init, s.history, |s.history|);
    forall k | 0 <= k < |s.threads| ensures LoopOk(base, t', s.threads[k]) {
      assert LoopOk(base, s.t, s.threads[k]);
    }
  }

  lemma ActionKeeps(init: Buckets, s: State, a: Action)
    requires |init| == TABLE_SIZE && Invariant(init, s) && Enabled(s, a)
    ensures Invariant(init, Apply(s, a))
  {
    match a
    case Call(tid, c) => CallKeeps(init, s, tid, c);
    case Acquire(tid) => AcquireKeeps(init, s, tid);
    case Iterate(tid) => IterateKeeps(init, s, tid);
    case Release(tid) =>
      if Updates(s.threads[tid].c) {
        UpdateReleaseKeeps(init, s, tid);
      } else if s.threads[tid].c.Backup? {
        ForkReleaseKeeps(init, s, tid);
      } else {
        ReadReleaseKeeps(init, s, tid);
      }
    case ChildPrints(k) => ChildPrintsKeeps(init, s, k);
    case ChildExits(k) => ChildExitsKeeps(init, s, k);
    case Subscribe(key, fd) =>
      ClearedSubscriptions(s.t, key, fd);
      SubscriptionKeeps(init, s, AddSub(s.t, key, fd));
    case Unsubscribe(key, fd) =>
      ClearedSubscriptions(s.t, key, fd);
      SubscriptionKeeps(init, s, RemoveSub(s.t, key, fd));
    case ClearAll =>
      ClearedTwice(s.t);
      SubscriptionKeeps(init, s, ClearSubs(s.t));
  }

  lemma {:induction false} RunKeeps(s: State, actions: seq<Action>)
    requires Init(s) && Exec(s, actions).Some?
    ensures Invariant(s.t, Exec(s, actions).value)
  {
    if actions == [] {
      assert At(s.t, s.history, |s.history|) == ClearSubs(s.t);
    } else {
      RunKeeps(s, actions[..|actions| - 1]);
      ActionKeeps(s.t, Exec(s, actions[..|actions| - 1]).value, actions[|actions| - 1]);
    }
  }

  /**
    Atomic batches.  After any run: every finished READ, SHOW, DELETE and BACKUP has
    printed the answer on the table left by the first `at` update batches, with the
    call no later than that point and the return no earlier; the finished WRITEs and
    DELETEs, in order, are those batches; and when no batch is in progress the shared table
    is exactly what they leave.
   */
  lemma BatchesAreAtomic(s: State, actions: seq<Action>)
    requires Init(s) && Exec(s, actions).Some?
    ensures var e := Exec(s, actions).value;
            && |e.t| == TABLE_SIZE && HistoryOk(e.history) && e.history == Finished(e.done)
            && (e.writer == None ==> ClearSubs(e.t) == Replay(ClearSubs(s.t), e.history))
            && forall k :: 0 <= k < |e.done| ==>
                 var d := e.done[k];
                 && d.since <= d.at <= d.until <= |e.history| && Hashables(d.c)
                 && d.out == Answer(Replay(ClearSubs(s.t), e.history[..d.at]), d.c)
                 && (Updates(d.c) ==> d.at < |e.history| && e.history[d.at] == d.c)
  {
    RunKeeps(s, actions);
    var e := Exec(s, actions).value;
    assert e.history[..|e.history|] == e.history;
    forall k | 0 <= k < |e.done| ensures DoneOk(s.t, e.history, e.done[k]) {}
  }
}
