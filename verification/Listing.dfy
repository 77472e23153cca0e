/**
  What the server prints, read back by its own string reader: the lines of SHOW and of a
  backup, the lists of READ and DELETE, and the notifications.
 */
module Listing {
  import opened CStrings
  import opened LinkedList
  import opened Table
  import opened Operations
  import opened Rendering
  import opened Parser
  import opened Grammar
  import opened Jobs
  import Batches
  import RoundTrip

  // ---- one line of SHOW

  /** Even a line that is cut names its key, as long as the key itself is not cut. */
  lemma CutLineNamesKey(key: string, value: string)
    requires Plain(key) && |key| + 2 < MAX_STRING_SIZE
    ensures ShowLine(key, value)[0] == '('
    ensures ReadString(ShowLine(key, value)[1..], MAX_STRING_SIZE) == Field(SEPARATOR, key, ShowLine(key, value)[|key| + 2..])
  {
    var line := ShowLine(key, value);
    var s := line[1..];
    assert Line(key, value)[|key| + 1] == ',' && forall k :: 0 <= k < |key| ==> Line(key, value)[k + 1] == key[k];
    assert s[|key|] == ',' && forall k :: 0 <= k < |key| ==> s[k] == key[k];
    assert s[..|key|] == key && s[|key| + 1..] == line[|key| + 2..];
    ReadStringAt(s, MAX_STRING_SIZE, |key|);
  }

  datatype LineResult = NoLine | OneLine(pair: Pair, rest: string)

  /** "(key, value)" and a newline. */
  function ReadLine(s: string): LineResult {
    if s == "" || s[0] != '(' then NoLine
    else
      var key := ReadString(s[1..], MAX_STRING_SIZE);
      if key.code != SEPARATOR || key.rest == "" || key.rest[0] != ' ' then NoLine
      else
        var value := ReadString(key.rest[1..], MAX_STRING_SIZE);
        if value.code != CLOSE_PAIR || value.rest == "" || value.rest[0] != '\n' then NoLine
        else OneLine(Pair(key.text, value.text), value.rest[1..])
  }

  lemma LineFrom(key: string, value: string, rest: string)
    ensures Line(key, value) + rest == "(" + (key + ([','] + ([' '] + (value + ([')'] + (['\n'] + rest))))))
  {
    assert Line(key, value) == "(" + (key + ([','] + ([' '] + (value + ([')'] + ['\n'])))));
  }

  lemma LineRead(p: Pair, rest: string)
    requires PlainPair(p)
    ensures ReadLine(Line(p.key, p.value) + rest) == OneLine(p, rest)
  {
    var after := [' '] + (p.value + ([')'] + (['\n'] + rest)));
    LineFrom(p.key, p.value, rest);
    FieldRead(p.key, ',', after);
    assert after[1..] == p.value + ([')'] + (['\n'] + rest));
    FieldRead(p.value, ')', ['\n'] + rest);
    assert ("(" + (p.key + ([','] + after)))[1..] == p.key + ([','] + after);
  }

  lemma LineOnly(s: string)
    requires ReadLine(s).OneLine?
    ensures var r := ReadLine(s); PlainPair(r.pair) && s == Line(r.pair.key, r.pair.value) + r.rest && |r.rest| < |s|
  {
    var key := ReadString(s[1..], MAX_STRING_SIZE);
    var value := ReadString(key.rest[1..], MAX_STRING_SIZE);
    FieldOnly(s[1..], MAX_STRING_SIZE);
    FieldOnly(key.rest[1..], MAX_STRING_SIZE);
    assert s == "(" + s[1..] && key.rest == [' '] + key.rest[1..] && value.rest == ['\n'] + value.rest[1..];
    LineFrom(key.text, value.text, value.rest[1..]);
  }

  // ---- a whole listing

  function ReadLines(s: string): Option<seq<Pair>>
    decreases |s|
  {
    if s == "" then Some([])
    else
      match ReadLine(s)
      case NoLine => None
      case OneLine(pair, rest) =>
        LineOnly(s);
        var more := ReadLines(rest);
        if more.None? then None else Some([pair] + more.value)
  }

  function LineTexts(ps: seq<Pair>): (texts: seq<string>)
    ensures |texts| == |ps| && forall i :: 0 <= i < |ps| ==> texts[i] == Line(ps[i].key, ps[i].value)
  {
    seq(|ps|, i requires 0 <= i < |ps| => Line(ps[i].key, ps[i].value))
  }

  lemma LinesCons(ps: seq<Pair>)
    requires ps != []
    ensures Join(LineTexts(ps)) == Line(ps[0].key, ps[0].value) + Join(LineTexts(ps[1..]))
  {
    assert LineTexts(ps) == [Line(ps[0].key, ps[0].value)] + LineTexts(ps[1..]);
    JoinCons(Line(ps[0].key, ps[0].value), LineTexts(ps[1..]));
  }

  lemma ReadLinesCons(p: Pair, text: string, rest: seq<Pair>)
    requires PlainPair(p) && ReadLines(text) == Some(rest)
    ensures ReadLines(Line(p.key, p.value) + text) == Some([p] + rest)
  {
    LineRead(p, text);
  }

  lemma HeadAndTail<T>(s: seq<T>)
    requires s != []
    ensures s == [s[0]] + s[1..]
  {}

  lemma {:induction false} LinesRead(ps: seq<Pair>)
    requires PlainPairs(ps)
    ensures ReadLines(Join(LineTexts(ps))) == Some(ps)
  {
    if ps != [] {
      LinesRead(ps[1..]);
      ReadLinesCons(ps[0], Join(LineTexts(ps[1..])), ps[1..]);
      LinesCons(ps);
      HeadAndTail(ps);
    }
  }

  lemma {:induction false} LinesOnly(s: string)
    requires ReadLines(s).Some?
    ensures s == Join(LineTexts(ReadLines(s).value))
    decreases |s|
  {
    if s != "" {
      var r := ReadLine(s);
      LineOnly(s);
      LinesOnly(r.rest);
      var ps := ReadLines(s).value;
      assert ps[0] == r.pair && ps[1..] == ReadLines(r.rest).value;
      LinesCons(ps);
    }
  }

  function PairsOf(records: seq<Record>): (ps: seq<Pair>)
    ensures |ps| == |records| && forall i :: 0 <= i < |ps| ==> ps[i] == Pair(records[i].key, records[i].value)
  {
    seq(|records|, i requires 0 <= i < |records| => Pair(records[i].key, records[i].value))
  }

  /** The line and its terminator fit the 40 bytes it is printed into. */
  predicate LineFits(p: Pair) { |p.key| + |p.value| + 5 < MAX_STRING_SIZE }

  predicate AllLinesFit(ps: seq<Pair>) {
    forall i :: 0 <= i < |ps| ==> LineFits(ps[i])
  }

  lemma {:induction false} ShowPartsAt(records: seq<Record>, n: nat)
    requires n <= |records|
    ensures |Batches.ShowParts(records, n)| == n
    ensures forall i :: 0 <= i < n ==> Batches.ShowParts(records, n)[i] == ShowLine(records[i].key, records[i].value)
  {
    if n > 0 {
      ShowPartsAt(records, n - 1);
    }
  }

  lemma ShowIsLines(records: seq<Record>)
    ensures var ps := PairsOf(records);
            if AllLinesFit(ps) then ShowLines(records) == Join(LineTexts(ps)) else |ShowLines(records)| < |Join(LineTexts(ps))|
  {
    var ps, parts := PairsOf(records), Batches.ShowParts(records, |records|);
    ShowPartsAt(records, |records|);
    Batches.ShowPartsText(records, |records|);
    assert records[..|records|] == records;
    forall i | 0 <= i < |ps| ensures if LineFits(ps[i]) then parts[i] == LineTexts(ps)[i] else |parts[i]| < |LineTexts(ps)[i]| {
      assert |Line(ps[i].key, ps[i].value)| == |ps[i].key| + |ps[i].value| + 5;
    }
    JoinCompare(parts, LineTexts(ps));
  }

  lemma {:induction false} StoredPairsArePlain(t: Buckets)
    requires CleanTable(t)
    ensures PlainPairs(PairsOf(Flatten(t)))
  {
    forall n | 0 <= n < |Flatten(t)| ensures PlainPair(PairsOf(Flatten(t))[n]) {
      var i, j := FlattenIndex(t, n);
      assert CleanChain(t[i]);
    }
  }

  /** SHOW's text reads back to the stored pairs, in walk order, if and only if no line is cut. */
  lemma ShowReadsBack(t: Buckets)
    requires CleanTable(t)
    ensures ReadLines(ShowText(t)) == Some(PairsOf(Flatten(t))) <==> AllLinesFit(PairsOf(Flatten(t)))
  {
    var ps := PairsOf(Flatten(t));
    ShowIsLines(Flatten(t));
    StoredPairsArePlain(t);
    if AllLinesFit(ps) {
      LinesRead(ps);
    } else if ReadLines(ShowText(t)) == Some(ps) {
      LinesOnly(ShowText(t));
    }
  }

  /** And those pairs are exactly the bindings of the map, each once. */
  lemma ShowTellsTheMap(t: Buckets)
    requires WellFormed(t)
    ensures var ps, m := PairsOf(Flatten(t)), Contents(t);
            && (forall i :: 0 <= i < |ps| ==> ps[i].key in m && m[ps[i].key].value == ps[i].value)
            && (forall k :: k in m ==> exists i :: 0 <= i < |ps| && ps[i] == Pair(k, m[k].value))
            && (forall i, j :: 0 <= i < j < |ps| ==> ps[i].key != ps[j].key)
  {
    var ps, m := PairsOf(Flatten(t)), Contents(t);
    WalkIsComplete(t);
    forall k | k in m ensures exists i :: 0 <= i < |ps| && ps[i] == Pair(k, m[k].value) {
      var i :| 0 <= i < |Flatten(t)| && Flatten(t)[i].key == k;
      assert ps[i] == Pair(k, m[k].value);
    }
  }

  // ---- the lists of READ and DELETE

  function ItemTexts(ps: seq<Pair>): (texts: seq<string>)
    ensures |texts| == |ps| && forall i :: 0 <= i < |ps| ==> texts[i] == Clip(PairText(ps[i]))
  {
    seq(|ps|, i requires 0 <= i < |ps| => Clip(PairText(ps[i])))
  }

  function PrintedList(ps: seq<Pair>): string { "[" + (Join(ItemTexts(ps)) + "]\n") }

  lemma ItemsText(ps: seq<Pair>)
    ensures if RoundTrip.AllFit(ps) then Join(ItemTexts(ps)) == PairsText(ps) else |Join(ItemTexts(ps))| < |PairsText(ps)|
  {
    RoundTrip.PairsTextJoins(ps);
    forall i | 0 <= i < |ps|
      ensures if RoundTrip.Fits(ps[i]) then ItemTexts(ps)[i] == RoundTrip.PairTexts(ps)[i] else |ItemTexts(ps)[i]| < |RoundTrip.PairTexts(ps)[i]|
    {
      assert |PairText(ps[i])| == |ps[i].key| + |ps[i].value| + 3;
    }
    JoinCompare(ItemTexts(ps), RoundTrip.PairTexts(ps));
  }

  lemma PrintedListIs(ps: seq<Pair>, rest: string)
    requires Join(ItemTexts(ps)) == PairsText(ps)
    ensures PrintedList(ps) + rest == WriteArgument(ps) + (['\n'] + rest)
  {
    assert PrintedList(ps) == WriteArgument(ps) + ['\n'];
  }

  /** A printed list is parsed to its pairs if and only if no item is cut. */
  lemma ListIsAWriteArgument(ps: seq<Pair>, rest: string)
    requires PlainPairs(ps) && 0 < |ps| < MAX_WRITE_SIZE
    ensures ParseWrite(PrintedList(ps) + rest) == Parsed(ps, rest) <==> RoundTrip.AllFit(ps)
  {
    ItemsText(ps);
    assert |WriteArgument(ps)| == |PairsText(ps)| + 2 && |PrintedList(ps)| == |Join(ItemTexts(ps))| + 3;
    if RoundTrip.AllFit(ps) {
      PrintedListIs(ps, rest);
      WriteRead(ps, '\n', rest);
    } else if ParseWrite(PrintedList(ps) + rest) == Parsed(ps, rest) {
      var c := WriteOnly(PrintedList(ps) + rest);
    }
  }

  /** What READ answers: the stored value, or KVSERROR for a key that is not there. */
  function AnswerPairs(t: Buckets, keys: seq<string>): (ps: seq<Pair>)
    requires |t| == TABLE_SIZE && AllHashable(keys)
    ensures |ps| == |keys|
    ensures forall i :: 0 <= i < |ps| ==> ps[i] == Pair(keys[i], if Has(t, keys[i]) then Get(t, keys[i]).value else "KVSERROR")
  {
    seq(|keys|, i requires 0 <= i < |keys| => Pair(keys[i], if Has(t, keys[i]) then Get(t, keys[i]).value else "KVSERROR"))
  }

  lemma ErrorText(key: string)
    ensures "(" + key + ",KVSERROR)" == PairText(Pair(key, "KVSERROR"))
    ensures "(" + key + ",KVSMISSING)" == PairText(Pair(key, "KVSMISSING"))
    ensures Plain("KVSERROR") && Plain("KVSMISSING") && Plain("DELETED")
  {}

  lemma AnswerItem(key: string, result: Option<string>)
    ensures ReadItem(key, result) == Clip(PairText(Pair(key, if result.Some? then result.value else "KVSERROR")))
  {
    ErrorText(key);
    if result.Some? {
      assert WriteText(key, result.value) == PairText(Pair(key, result.value));
    }
  }

  lemma AnswerItemsAre(t: Buckets, keys: seq<string>)
    requires |t| == TABLE_SIZE && AllHashable(keys)
    ensures ReadItems(t, keys, |keys|) == Join(ItemTexts(AnswerPairs(t, keys)))
  {
    var parts := Batches.ReadParts(t, keys, |keys|);
    RoundTrip.AnswerParts(t, keys, |keys|);
    Batches.ReadPartsText(t, keys, |keys|);
    forall i | 0 <= i < |keys| ensures parts[i] == ItemTexts(AnswerPairs(t, keys))[i] {
      AnswerItem(keys[i], Lookup(t, keys[i]));
    }
    assert parts == ItemTexts(AnswerPairs(t, keys));
  }

  lemma AnswerIsAList(t: Buckets, keys: seq<string>)
    requires |t| == TABLE_SIZE && AllHashable(keys)
    ensures ReadText(t, keys) == PrintedList(AnswerPairs(t, keys))
  {
    AnswerItemsAre(t, keys);
    Assoc("[", Join(ItemTexts(AnswerPairs(t, keys))), "]\n");
  }

  lemma AnswersArePlain(t: Buckets, keys: seq<string>)
    requires |t| == TABLE_SIZE && AllHashable(keys) && PlainKeys(keys) && CleanTable(t)
    ensures PlainPairs(AnswerPairs(t, keys))
  {
    forall i | 0 <= i < |keys| ensures PlainPair(AnswerPairs(t, keys)[i]) {
      ErrorText(keys[i]);
      assert CleanChain(t[Hash(keys[i])]);
    }
  }

  /** READ's answer for any keys, there or not, reads back to their values and errors if and only if no item is cut. */
  lemma AnswerReadsBack(t: Buckets, keys: seq<string>, rest: string)
    requires |t| == TABLE_SIZE && AllHashable(keys) && PlainKeys(keys) && CleanTable(t) && 0 < |keys| < MAX_WRITE_SIZE
    ensures ParseWrite(ReadText(t, keys) + rest) == Parsed(AnswerPairs(t, keys), rest) <==> RoundTrip.AllFit(AnswerPairs(t, keys))
  {
    AnswerIsAList(t, keys);
    AnswersArePlain(t, keys);
    ListIsAWriteArgument(AnswerPairs(t, keys), rest);
  }

  function MissingPairs(missing: seq<string>): (ps: seq<Pair>)
    ensures |ps| == |missing| && forall i :: 0 <= i < |ps| ==> ps[i] == Pair(missing[i], "KVSMISSING")
  {
    seq(|missing|, i requires 0 <= i < |missing| => Pair(missing[i], "KVSMISSING"))
  }

  lemma ReportIsAList(missing: seq<string>)
    ensures DeleteReport(missing) == if missing == [] then "" else PrintedList(MissingPairs(missing))
  {
    forall i | 0 <= i < |missing| ensures MissingItems(missing)[i] == ItemTexts(MissingPairs(missing))[i] {
      ErrorText(missing[i]);
    }
    assert MissingItems(missing) == ItemTexts(MissingPairs(missing));
  }

  /** DELETE's report is empty when nothing is missing, and otherwise reads back to the missing keys if and only if no item is cut. */
  lemma ReportReadsBack(missing: seq<string>, rest: string)
    requires PlainKeys(missing) && |missing| < MAX_WRITE_SIZE
    ensures missing == [] ==> DeleteReport(missing) == ""
    ensures missing != [] ==>
              (ParseWrite(DeleteReport(missing) + rest) == Parsed(MissingPairs(missing), rest) <==> RoundTrip.AllFit(MissingPairs(missing)))
  {
    ReportIsAList(missing);
    if missing != [] {
      forall i | 0 <= i < |missing| ensures PlainPair(MissingPairs(missing)[i]) {
        ErrorText(missing[i]);
      }
      ListIsAWriteArgument(MissingPairs(missing), rest);
    }
  }

  // ---- notifications

  lemma TextFromParts(key: string, value: string)
    ensures WriteText(key, value)[1..] == PairBody(Pair(key, value)) + "" && WriteText(key, value)[0] == '('
    ensures DeleteText(key)[1..] == PairBody(Pair(key, "DELETED")) + "" && DeleteText(key)[0] == '('
  {}

  /** A notification of a write reads back to the key and its new value, one of a delete to the key and DELETED. */
  lemma NotificationReadsBack(key: string, value: string)
    requires Plain(key)
    ensures Plain(value) ==> ParsePair(WriteText(key, value)[1..]) == OnePair(Pair(key, value), "")
    ensures ParsePair(DeleteText(key)[1..]) == OnePair(Pair(key, "DELETED"), "")
  {
    TextFromParts(key, value);
    ErrorText(key);
    if Plain(value) {
      PairRead(Pair(key, value), "");
    }
    PairRead(Pair(key, "DELETED"), "");
  }

  // ---- whole commands, in every run of threads

  /** The text is what the command should tell of the table, unless something in it was cut. */
  ghost predicate ReadsBack(t: Buckets, c: Batches.Command, out: string, rest: string)
    requires |t| == TABLE_SIZE && Batches.Hashables(c)
  {
    match c
    case Write(_) => out == ""
    case Show => ReadLines(out) == Some(PairsOf(Flatten(t))) <==> AllLinesFit(PairsOf(Flatten(t)))
    case Backup => ReadLines(out) == Some(PairsOf(Flatten(t))) <==> AllLinesFit(PairsOf(Flatten(t)))
    case Read(keys) =>
      PlainKeys(keys) && 0 < |keys| < MAX_WRITE_SIZE ==>
        (ParseWrite(out + rest) == Parsed(AnswerPairs(t, keys), rest) <==> RoundTrip.AllFit(AnswerPairs(t, keys)))
    case Delete(keys) =>
      var missing := Failed(t, keys, |keys|);
      && (missing == [] ==> out == "")
      && (PlainKeys(missing) && 0 < |missing| < MAX_WRITE_SIZE ==>
            (ParseWrite(out + rest) == Parsed(MissingPairs(missing), rest) <==> RoundTrip.AllFit(MissingPairs(missing))))
  }

  lemma AnswersReadBack(t: Buckets, c: Batches.Command, rest: string)
    requires |t| == TABLE_SIZE && Batches.Hashables(c) && CleanTable(t)
    ensures ReadsBack(t, c, Batches.Answer(t, c), rest)
  {
    match c
    case Write(_) =>
    case Show => ShowReadsBack(t);
    case Backup => ShowReadsBack(t);
    case Read(keys) =>
      if PlainKeys(keys) && 0 < |keys| < MAX_WRITE_SIZE {
        AnswerReadsBack(t, keys, rest);
      }
    case Delete(keys) =>
      var missing := Failed(t, keys, |keys|);
      if PlainKeys(missing) && |missing| < MAX_WRITE_SIZE {
        ReportReadsBack(missing, rest);
      }
  }

  /**
    Whatever a finished command of a run printed reads back to what held at its point
    between the batches: SHOW and BACKUP to the bindings, READ to values and errors, DELETE
    to the keys it missed - each if and only if nothing was cut.
   */
  lemma EveryAnswerReadsBack(s: Batches.State, actions: seq<Batches.Action>, k: nat, rest: string)
    requires Batches.Init(s) && CleanTable(s.t) && Batches.Exec(s, actions).Some? && RoundTrip.CleanCalls(actions)
    requires k < |Batches.Exec(s, actions).value.done|
    ensures var e := Batches.Exec(s, actions).value;
            var d := e.done[k];
            && Batches.HistoryOk(e.history) && d.at <= |e.history| && Batches.Hashables(d.c)
            && ReadsBack(Batches.Replay(ClearSubs(s.t), e.history[..d.at]), d.c, d.out, rest)
  {
    Batches.BatchesAreAtomic(s, actions);
    RoundTrip.CommandsStayClean(s, actions);
    RoundTrip.CleanCleared(s.t);
    var e := Batches.Exec(s, actions).value;
    var d := e.done[k];
    RoundTrip.CleanReplay(ClearSubs(s.t), e.history[..d.at]);
    AnswersReadBack(Batches.Replay(ClearSubs(s.t), e.history[..d.at]), d.c, rest);
  }
}
