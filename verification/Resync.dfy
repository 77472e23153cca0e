/**
  Wherever a job file is malformed, run_job picks up at the start of a line: every
  iteration leaves the stream just past a line end or at the end of the input, and
  moves forward.
 */
module Resync {
  import opened CStrings
  import opened Parser

  predicate IsSuffix(r: string, s: string) {
    |r| <= |s| && r == s[|s| - |r|..]
  }

  /** The stream stands just past a line end, or at the end of input. */
  predicate EndsLine(r: string, s: string) {
    IsSuffix(r, s) && (r == "" || (|r| < |s| && (s[|s| - |r| - 1] == '\n' || s[|s| - |r| - 1] == NUL)))
  }

  lemma SuffixTrans(a: string, b: string, c: string)
    requires IsSuffix(a, b) && IsSuffix(b, c)
    ensures IsSuffix(a, c)
  {}

  lemma EndsLineTrans(a: string, b: string, c: string)
    requires EndsLine(a, b) && IsSuffix(b, c)
    ensures EndsLine(a, c)
  {}

  lemma {:induction false} CleanupEndsLine(s: string)
    ensures EndsLine(Cleanup(s), s)
    ensures s != "" ==> |Cleanup(s)| < |s|
  {
    if s != "" && s[0] != '\n' {
      CleanupEndsLine(s[1..]);
      EndsLineTrans(Cleanup(s[1..]), s[1..], s);
    }
  }

  /** Cleaning up after any number of bytes read. */
  lemma CleanupAfter(rest: string, s: string)
    requires IsSuffix(rest, s)
    ensures EndsLine(Cleanup(rest), s)
  {
    CleanupEndsLine(rest);
    EndsLineTrans(Cleanup(rest), rest, s);
  }

  lemma {:induction false} ReadStringForward(s: string, max: nat)
    ensures IsSuffix(ReadString(s, max).rest, s)
  {
    if max > 0 && s != "" && Ordinary(s[0]) {
      ReadStringForward(s[1..], max - 1);
      SuffixTrans(ReadString(s[1..], max - 1).rest, s[1..], s);
    }
  }

  lemma ParsePairForward(s: string)
    ensures IsSuffix(ParsePair(s).rest, s)
    ensures ParsePair(s).NoPair? ==> EndsLine(ParsePair(s).rest, s)
  {
    var key := ReadString(s, MAX_STRING_SIZE);
    ReadStringForward(s, MAX_STRING_SIZE);
    CleanupAfter(key.rest, s);
    var value := ReadString(key.rest, MAX_STRING_SIZE);
    ReadStringForward(key.rest, MAX_STRING_SIZE);
    SuffixTrans(value.rest, key.rest, s);
    CleanupAfter(value.rest, s);
  }

  lemma PairTurnForward(s: string)
    ensures IsSuffix(PairTurn(s).rest, s)
    ensures PairTurn(s).Broken? ==> EndsLine(PairTurn(s).rest, s)
  {
    var rest := ParsePair(s).rest;
    ParsePairForward(s);
    CleanupAfter(rest, s);
    SuffixTrans(Drop(rest, 1), rest, s);
    CleanupAfter(Drop(rest, 1), s);
  }

  lemma {:induction false} PairLoopForward(s: string, room: nat)
    ensures IsSuffix(PairLoop(s, room).rest, s)
    ensures PairLoop(s, room).Bad? ==> EndsLine(PairLoop(s, room).rest, s)
    decreases room
  {
    if room > 0 {
      PairTurnForward(s);
      var t := PairTurn(s);
      if t.More? {
        PairLoopForward(t.rest, room - 1);
        SuffixTrans(PairLoop(t.rest, room - 1).rest, t.rest, s);
        if PairLoop(t.rest, room - 1).Bad? {
          EndsLineTrans(PairLoop(t.rest, room - 1).rest, t.rest, s);
        }
      }
    }
  }

  lemma KeyTurnForward(s: string)
    ensures IsSuffix(KeyTurn(s).rest, s)
    ensures KeyTurn(s).Broken? ==> EndsLine(KeyTurn(s).rest, s)
  {
    ReadStringForward(s, MAX_STRING_SIZE);
    CleanupAfter(ReadString(s, MAX_STRING_SIZE).rest, s);
  }

  lemma {:induction false} KeyLoopForward(s: string, room: nat)
    ensures IsSuffix(KeyLoop(s, room).rest, s)
    ensures KeyLoop(s, room).Bad? ==> EndsLine(KeyLoop(s, room).rest, s)
    decreases room
  {
    if room > 0 {
      KeyTurnForward(s);
      var t := KeyTurn(s);
      if t.More? {
        KeyLoopForward(t.rest, room - 1);
        SuffixTrans(KeyLoop(t.rest, room - 1).rest, t.rest, s);
        if KeyLoop(t.rest, room - 1).Bad? {
          EndsLineTrans(KeyLoop(t.rest, room - 1).rest, t.rest, s);
        }
      }
    }
  }

  lemma FinishEndsLine<T>(l: Items<T>, s: string)
    requires IsSuffix(l.rest, s) && (l.Bad? ==> EndsLine(l.rest, s))
    ensures EndsLine(FinishList(l).rest, s)
  {
    CleanupAfter(l.rest, s);
    CleanupAfter(Drop(l.rest, 1), s);
    if l.rest != "" {
      assert s[|s| - |l.rest|] == l.rest[0];
    }
  }

  lemma PairListEndsLine(s: string)
    requires |s| >= 2
    ensures EndsLine(FinishList(PairLoop(s[2..], MAX_WRITE_SIZE)).rest, s)
  {
    var l := PairLoop(s[2..], MAX_WRITE_SIZE);
    PairLoopForward(s[2..], MAX_WRITE_SIZE);
    SuffixTrans(l.rest, s[2..], s);
    if l.Bad? {
      EndsLineTrans(l.rest, s[2..], s);
    }
    FinishEndsLine(l, s);
  }

  lemma ParseWriteEndsLine(s: string)
    ensures EndsLine(ParseWrite(s).rest, s)
  {
    CleanupAfter(Drop(s, 1), s);
    CleanupAfter(Drop(s, 2), s);
    if |s| >= 2 {
      PairListEndsLine(s);
    }
  }

  lemma ParseReadDeleteEndsLine(s: string)
    ensures EndsLine(ParseReadDelete(s).rest, s)
  {
    CleanupAfter(Drop(s, 1), s);
    if s != "" {
      var l := KeyLoop(s[1..], MAX_WRITE_SIZE);
      KeyLoopForward(s[1..], MAX_WRITE_SIZE);
      SuffixTrans(l.rest, s[1..], s);
      if l.Bad? {
        EndsLineTrans(l.rest, s[1..], s);
      }
      FinishEndsLine(l, s);
    }
  }

  lemma ParseWaitEndsLine(s: string)
    ensures EndsLine(ParseWait(s).rest, s)
  {
    var u := ReadUInt(s);
    assert IsSuffix(u.rest, s);
    CleanupAfter(u.rest, s);
    assert u.rest != "" ==> s[|s| - |u.rest| - 1] == u.next;
  }

  /** After a command word of `n` bytes: what is left, a cleanup, or one byte more and a cleanup. */
  lemma AfterWord(s: string, n: nat)
    requires s != "" && n > 0
    ensures var rest := Drop(s, n);
            && IsSuffix(rest, s) && |rest| < |s|
            && EndsLine(Cleanup(rest), s) && |Cleanup(rest)| < |s|
            && (rest != "" ==> EndsLine(Cleanup(rest[1..]), s) && |Cleanup(rest[1..])| < |s|)
            && (rest == "" ==> EndsLine(rest, s))
            && (rest != "" && rest[0] == '\n' ==> EndsLine(rest[1..], s))
  {
    var rest := Drop(s, n);
    CleanupEndsLine(rest);
    CleanupAfter(rest, s);
    if rest != "" {
      CleanupEndsLine(rest[1..]);
      CleanupAfter(rest[1..], s);
      assert s[|s| - |rest|] == rest[0];
    }
  }

  lemma KeywordForward(s: string, word: string, c: Command)
    requires s != "" && word != ""
    ensures var n := Keyword(s, word, c);
            && IsSuffix(n.rest, s) && |n.rest| < |s|
            && (n.command == c || (n.command == CmdInvalid && EndsLine(n.rest, s)))
  {
    AfterWord(s, |word|);
  }

  lemma BareForward(s: string, word: string, c: Command)
    requires s != "" && word != ""
    ensures var n := Bare(s, word, c);
            EndsLine(n.rest, s) && |n.rest| < |s| && (n.command == c || n.command == CmdInvalid)
  {
    AfterWord(s, |word|);
  }

  predicate TakesArguments(c: Command) { c.CmdWrite? || c.CmdRead? || c.CmdDelete? || c.CmdWait? }

  lemma GetNextForward(s: string)
    requires s != ""
    ensures var n := GetNext(s);
            && IsSuffix(n.rest, s) && |n.rest| < |s| && n.command != EndOfCommands
            && (TakesArguments(n.command) || EndsLine(n.rest, s))
  {
    if s[0] == 'W' {
      AfterWord(s, 5);
      KeywordForward(s, "WRITE ", CmdWrite);
    } else if s[0] == 'R' {
      KeywordForward(s, "READ ", CmdRead);
    } else if s[0] == 'D' {
      KeywordForward(s, "DELETE ", CmdDelete);
    } else if s[0] == 'S' {
      BareForward(s, "SHOW", CmdShow);
    } else if s[0] == 'B' {
      BareForward(s, "BACKUP", CmdBackup);
    } else if s[0] == 'H' {
      BareForward(s, "HELP", CmdHelp);
    } else {
      CleanupEndsLine(s[1..]);
      CleanupAfter(s[1..], s);
    }
  }

  /**
    Resynchronisation: on any input, well formed or not, an iteration either reports the
    end of the commands, exactly at the end of the input, or consumes at least one byte
    and stops just past a line end or at the end.
   */
  lemma NextJobEndsLine(s: string)
    ensures NextJob(s).job == JobEnd <==> s == ""
    ensures s != "" ==> EndsLine(NextJob(s).rest, s) && |NextJob(s).rest| < |s|
  {
    if s != "" {
      GetNextForward(s);
      var rest := GetNext(s).rest;
      ParseWriteEndsLine(rest);
      EndsLineTrans(ParseWrite(rest).rest, rest, s);
      ParseReadDeleteEndsLine(rest);
      EndsLineTrans(ParseReadDelete(rest).rest, rest, s);
      ParseWaitEndsLine(rest);
      EndsLineTrans(ParseWait(rest).rest, rest, s);
    }
  }
}
