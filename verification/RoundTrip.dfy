/** The answer of READ is an argument of WRITE, as long as no item is cut. */
module RoundTrip {
  import opened CStrings
  import opened Table
  import opened Operations
  import opened Parser
  import opened Grammar
  import opened Jobs
  import Batches

  predicate AllPresent(t: Buckets, keys: seq<string>)
    requires |t| == TABLE_SIZE && AllHashable(keys)
  {
    forall i :: 0 <= i < |keys| ==> Has(t, keys[i])
  }

  /** The keys with their stored values. */
  function PairsRead(t: Buckets, keys: seq<string>): (ps: seq<Pair>)
    requires |t| == TABLE_SIZE && AllHashable(keys) && AllPresent(t, keys)
    ensures |ps| == |keys| && forall i :: 0 <= i < |ps| ==> ps[i] == Pair(keys[i], Get(t, keys[i]).value)
  {
    seq(|keys|, i requires 0 <= i < |keys| => Pair(keys[i], Get(t, keys[i]).value))
  }

  /** An item of "(key,value)" is printed whole when it leaves room for the terminator. */
  predicate Fits(p: Pair) { |p.key| + |p.value| + 3 < MAX_STRING_SIZE }

  predicate AllFit(ps: seq<Pair>) {
    forall i :: 0 <= i < |ps| ==> Fits(ps[i])
  }

  /** One item of the answer is the printed pair, or shorter. */
  lemma ItemRead(key: string, value: string)
    ensures var item, text := ReadItem(key, Some(value)), PairText(Pair(key, value));
            if Fits(Pair(key, value)) then item == text else |item| < |text|
  {
    assert WriteText(key, value) == PairText(Pair(key, value));
  }

  function PairTexts(ps: seq<Pair>): (texts: seq<string>)
    ensures |texts| == |ps| && forall i :: 0 <= i < |ps| ==> texts[i] == PairText(ps[i])
  {
    seq(|ps|, i requires 0 <= i < |ps| => PairText(ps[i]))
  }

  lemma {:induction false} PairsTextJoins(ps: seq<Pair>)
    ensures PairsText(ps) == Join(PairTexts(ps))
  {
    if ps != [] {
      PairsTextJoins(ps[1..]);
      assert PairTexts(ps) == [PairText(ps[0])] + PairTexts(ps[1..]);
      JoinCons(PairText(ps[0]), PairTexts(ps[1..]));
    }
  }

  lemma {:induction false} AnswerParts(t: Buckets, keys: seq<string>, n: nat)
    requires |t| == TABLE_SIZE && AllHashable(keys) && n <= |keys|
    ensures var parts := Batches.ReadParts(t, keys, n);
            |parts| == n && forall i :: 0 <= i < n ==> parts[i] == ReadItem(keys[i], Lookup(t, keys[i]))
  {
    if n > 0 {
      AnswerParts(t, keys, n - 1);
    }
  }

  /** The items of the answer are the printed pairs when all fit, and shorter otherwise. */
  lemma AnswerItems(t: Buckets, keys: seq<string>)
    requires |t| == TABLE_SIZE && AllHashable(keys) && AllPresent(t, keys)
    ensures var ps, items := PairsRead(t, keys), ReadItems(t, keys, |keys|);
            if AllFit(ps) then items == PairsText(ps) else |items| < |PairsText(ps)|
  {
    var ps, parts := PairsRead(t, keys), Batches.ReadParts(t, keys, |keys|);
    AnswerParts(t, keys, |keys|);
    Batches.ReadPartsText(t, keys, |keys|);
    PairsTextJoins(ps);
    forall i | 0 <= i < |keys| ensures if Fits(ps[i]) then parts[i] == PairTexts(ps)[i] else |parts[i]| < |PairTexts(ps)[i]| {
      ItemRead(keys[i], ps[i].value);
    }
    JoinCompare(parts, PairTexts(ps));
  }

  /** Present keys and their values are plain, because everything stored is. */
  lemma StoredArePlain(t: Buckets, keys: seq<string>)
    requires |t| == TABLE_SIZE && AllHashable(keys) && AllPresent(t, keys) && CleanTable(t)
    ensures PlainPairs(PairsRead(t, keys))
  {
    forall i | 0 <= i < |keys| ensures PlainPair(PairsRead(t, keys)[i]) {
      assert CleanChain(t[Hash(keys[i])]);
    }
  }

  lemma ReadTextIs(t: Buckets, keys: seq<string>, items: string, rest: string)
    requires |t| == TABLE_SIZE && AllHashable(keys) && ReadItems(t, keys, |keys|) == items
    ensures ReadText(t, keys) + rest == ("[" + (items + "]")) + (['\n'] + rest)
  {
    assert ReadText(t, keys) == "[" + items + "]\n";
  }

  /**
    READ then WRITE: for 1 to 255 present keys, parse_write on the text READ prints
    returns those keys with their stored values and stops after the line, if and only
    if every key and value together are at most 36 bytes.
   */
  lemma ReadIsAWriteArgument(t: Buckets, keys: seq<string>, rest: string)
    requires |t| == TABLE_SIZE && AllHashable(keys) && AllPresent(t, keys) && CleanTable(t)
    requires 0 < |keys| < MAX_WRITE_SIZE
    ensures ParseWrite(ReadText(t, keys) + rest) == Parsed(PairsRead(t, keys), rest) <==> AllFit(PairsRead(t, keys))
  {
    var ps := PairsRead(t, keys);
    var s := ReadText(t, keys) + rest;
    AnswerItems(t, keys);
    assert |WriteArgument(ps)| == |PairsText(ps)| + 2;
    if AllFit(ps) {
      StoredArePlain(t, keys);
      ReadTextIs(t, keys, PairsText(ps), rest);
      WriteRead(ps, '\n', rest);
    } else if ParseWrite(s) == Parsed(ps, rest) {
      var c := WriteOnly(s);
    }
  }

  lemma SamePut(t: Buckets, key: string)
    requires |t| == TABLE_SIZE && Hashable(key) && Has(t, key)
    ensures Put(t, key, Get(t, key).value) == t
  {
    var chain := t[Hash(key)];
    assert PutIn(chain, key, Get(t, key).value) == chain;
  }

  /** Writing back what was read changes nothing: not a value, not a subscriber, not the order of a chain. */
  lemma WritingBackChangesNothing(t: Buckets, keys: seq<string>, n: nat)
    requires |t| == TABLE_SIZE && AllHashable(keys) && AllPresent(t, keys) && n <= |keys|
    ensures PairsHashable(PairsRead(t, keys)) && PutAll(t, PairsRead(t, keys), n) == t
  {
    var ps := PairsRead(t, keys);
    for i := 0 to n
      invariant PutAll(t, ps, i) == t
    {
      PutAllNext(t, ps, i + 1);
      SamePut(t, keys[i]);
    }
  }

  /**
    The whole cycle as commands: with everything fitting, "WRITE " before the printed
    answer is a command that executes to the very same table.
   */
  lemma ReadThenWrite(t: Buckets, keys: seq<string>, rest: string)
    requires WellFormed(t) && AllHashable(keys) && AllPresent(t, keys) && CleanTable(t)
    requires 0 < |keys| < MAX_WRITE_SIZE && AllFit(PairsRead(t, keys))
    ensures var n := NextJob("WRITE " + (ReadText(t, keys) + rest));
            n.job == JobWrite(PairsRead(t, keys)) && n.rest == rest && JobHashable(n.job) && TableAfter(t, n.job) == t
  {
    var ps := PairsRead(t, keys);
    ReadIsAWriteArgument(t, keys, rest);
    WritingBackChangesNothing(t, keys, |keys|);
    forall i | 0 <= i < |ps| ensures NUL !in ps[i].key && NUL !in ps[i].value {
      assert CleanChain(t[Hash(keys[i])]);
    }
    WriteJob(ReadText(t, keys) + rest, ps, rest);
  }

  // ---- in every run of threads

  ghost predicate CleanCommand(c: Batches.Command) {
    c.Write? ==> forall i :: 0 <= i < |c.pairs| ==> Clean(c.pairs[i].key) && Clean(c.pairs[i].value)
  }

  /** The threads call only commands that could be parsed, as run_job does. */
  ghost predicate CleanCalls(actions: seq<Batches.Action>) {
    forall i :: 0 <= i < |actions| ==> actions[i].Call? ==> CleanCommand(actions[i].c)
  }

  ghost predicate CleanThreads(s: Batches.State) {
    forall k :: 0 <= k < |s.threads| ==> !s.threads[k].Idle? ==> CleanCommand(s.threads[k].c)
  }

  ghost predicate CleanHistory(history: seq<Batches.Command>) {
    forall k :: 0 <= k < |history| ==> CleanCommand(history[k])
  }

  lemma CommandsStep(s: Batches.State, a: Batches.Action)
    requires CleanThreads(s) && CleanHistory(s.history) && Batches.Enabled(s, a) && (a.Call? ==> CleanCommand(a.c))
    ensures CleanThreads(Batches.Apply(s, a)) && CleanHistory(Batches.Apply(s, a).history)
  {}

  lemma {:induction false} CommandsStayClean(s: Batches.State, actions: seq<Batches.Action>)
    requires Batches.Init(s) && Batches.Exec(s, actions).Some? && CleanCalls(actions)
    ensures var e := Batches.Exec(s, actions).value; CleanThreads(e) && CleanHistory(e.history)
  {
    if actions != [] {
      var before, a := actions[..|actions| - 1], actions[|actions| - 1];
      assert forall i :: 0 <= i < |before| ==> before[i] == actions[i];
      CommandsStayClean(s, before);
      CommandsStep(Batches.Exec(s, before).value, a);
    }
  }

  lemma CleanCleared(t: Buckets)
    ensures CleanTable(ClearSubs(t)) <==> CleanTable(t)
  {
    forall i | 0 <= i < |t| ensures CleanChain(ClearSubs(t)[i]) <==> CleanChain(t[i]) {
      assert forall j :: 0 <= j < |t[i]| ==> ClearSubs(t)[i][j] == t[i][j].(subs := []);
    }
  }

  /** What whole batches leave could be parsed again. */
  lemma {:induction false} CleanReplay(init: Buckets, history: seq<Batches.Command>)
    requires |init| == TABLE_SIZE && CleanTable(init) && (forall c :: c in history ==> Batches.Hashables(c)) && CleanHistory(history)
    ensures CleanTable(Batches.Replay(init, history))
  {
    if history != [] {
      var before, c := history[..|history| - 1], history[|history| - 1];
      assert c in history && forall d :: d in before ==> d in history;
      CleanReplay(init, before);
      var t := Batches.Replay(init, before);
      match c
      case Write(pairs) => CleanPutAll(t, pairs, |pairs|);
      case Delete(keys) => CleanRemoveAll(t, keys, |keys|);
      case _ =>
    }
  }

  lemma CleanStep(s: Batches.State, a: Batches.Action)
    requires CleanTable(s.t) && CleanThreads(s) && Batches.Enabled(s, a)
    ensures CleanTable(Batches.Apply(s, a).t)
  {
    match a
    case Iterate(tid) =>
      var i := s.threads[tid].i;
      match s.threads[tid].c {
        case Write(pairs) => CleanPut(s.t, pairs[i].key, pairs[i].value);
        case Delete(keys) => CleanRemove(s.t, keys[i]);
        case _ =>
      }
    case Subscribe(key, fd) =>
      Batches.ClearedSubscriptions(s.t, key, fd);
      CleanCleared(s.t);
      CleanCleared(AddSub(s.t, key, fd));
    case Unsubscribe(key, fd) =>
      Batches.ClearedSubscriptions(s.t, key, fd);
      CleanCleared(s.t);
      CleanCleared(RemoveSub(s.t, key, fd));
    case ClearAll => CleanCleared(s.t);
    case _ =>
  }

  /** In every reachable state everything stored could be parsed again. */
  lemma {:induction false} StoredStaysClean(s: Batches.State, actions: seq<Batches.Action>)
    requires Batches.Init(s) && CleanTable(s.t) && Batches.Exec(s, actions).Some? && CleanCalls(actions)
    ensures CleanTable(Batches.Exec(s, actions).value.t)
  {
    if actions != [] {
      var before, a := actions[..|actions| - 1], actions[|actions| - 1];
      assert forall i :: 0 <= i < |before| ==> before[i] == actions[i];
      StoredStaysClean(s, before);
      CommandsStayClean(s, before);
      CleanStep(Batches.Exec(s, before).value, a);
    }
  }

  /**
    In every interleaving: a finished READ of 1 to 255 keys, all there, has printed a text
    that parse_write takes for those keys with the values they had, if and only if every
    key and value together are at most 36 bytes.
   */
  lemma EveryAnswerIsAWriteArgument(s: Batches.State, actions: seq<Batches.Action>, k: nat, rest: string)
    requires Batches.Init(s) && CleanTable(s.t) && Batches.Exec(s, actions).Some? && CleanCalls(actions)
    requires k < |Batches.Exec(s, actions).value.done|
    ensures var e := Batches.Exec(s, actions).value;
            var d := e.done[k];
            && Batches.HistoryOk(e.history) && d.at <= |e.history| && Batches.Hashables(d.c)
            && var t := Batches.Replay(ClearSubs(s.t), e.history[..d.at]);
            (d.c.Read? && 0 < |d.c.keys| < MAX_WRITE_SIZE && AllPresent(t, d.c.keys) ==>
              (ParseWrite(d.out + rest) == Parsed(PairsRead(t, d.c.keys), rest) <==> AllFit(PairsRead(t, d.c.keys))))
  {
    Batches.BatchesAreAtomic(s, actions);
    CommandsStayClean(s, actions);
    CleanCleared(s.t);
    var e := Batches.Exec(s, actions).value;
    var d := e.done[k];
    CleanReplay(ClearSubs(s.t), e.history[..d.at]);
    var t := Batches.Replay(ClearSubs(s.t), e.history[..d.at]);
    if d.c.Read? && 0 < |d.c.keys| < MAX_WRITE_SIZE && AllPresent(t, d.c.keys) {
      ReadIsAWriteArgument(t, d.c.keys, rest);
    }
  }
}
