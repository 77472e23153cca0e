/**
  What a malformed command costs.  The parser cleans up from wherever it gave up, so it
  loses the rest of that line; whether it loses more depends on how far it had read, and
  a pair is cleaned up after twice.
 */
module LostLines {
  import opened CStrings
  import opened Operations
  import opened Parser
  import opened Resync

  /** Where the parser gives a command up: the bytes it has not read, and whether it was inside a pair. */
  datatype Fault = Fault(left: string, inPair: bool)

  // ---- how far each parser reads before it gives up, for commands that are malformed

  /** Inside a pair: at the end of the first string that is wrong. */
  function PairFault(s: string): string {
    var key := ReadString(s, MAX_STRING_SIZE);
    if key.code != SEPARATOR then key.rest else ReadString(key.rest, MAX_STRING_SIZE).rest
  }

  /** After the closing bracket: a full list without reading on, another at the byte that should end the line. */
  function EndFault(full: bool, s: string): Fault {
    Fault(if full then s else Drop(s, 1), false)
  }

  function PairsFault(s: string, room: nat): Fault
    decreases room
  {
    if room == 0 then EndFault(true, s)
    else
      match ParsePair(s)
      case NoPair(_) => Fault(PairFault(s), true)
      case OnePair(_, rest) =>
        if rest == "" || (rest[0] != '(' && rest[0] != ']') then Fault(Drop(rest, 1), false)
        else if rest[0] == ']' then EndFault(room == 1, rest[1..])
        else PairsFault(rest[1..], room - 1)
  }

  function WriteFault(s: string): Fault {
    if s == "" || s[0] != '[' then Fault(Drop(s, 1), false)
    else if |s| < 2 || s[1] != '(' then Fault(Drop(s, 2), false)
    else PairsFault(s[2..], MAX_WRITE_SIZE)
  }

  function KeysFault(s: string, room: nat): Fault
    decreases room
  {
    if room == 0 then EndFault(true, s)
    else
      var f := ReadString(s, MAX_STRING_SIZE);
      if f.code < 0 || f.code == CLOSE_PAIR then Fault(f.rest, false)
      else if f.code == CLOSE_LIST then EndFault(room == 1, f.rest)
      else KeysFault(f.rest, room - 1)
  }

  function ReadDeleteFault(s: string): Fault {
    if s == "" || s[0] != '[' then Fault(Drop(s, 1), false) else KeysFault(s[1..], MAX_WRITE_SIZE)
  }

  /** A wrong command word is read in its whole length, whatever lines it covers. */
  function KeywordFault(s: string, word: string, argument: Fault): Fault {
    if Take(s, |word|) == word then argument else Fault(Drop(s, |word|), false)
  }

  function BareFault(s: string, word: string): Fault {
    Fault(Drop(s, if Take(s, |word|) == word then |word| + 1 else |word|), false)
  }

  function JobFault(s: string): Fault {
    if s == "" then Fault("", false)
    else if s[0] == 'W' then
      if Take(s, 5) == "WAIT " then Fault(ReadUInt(Drop(s, 5)).rest, false)
      else KeywordFault(s, "WRITE ", WriteFault(Drop(s, 6)))
    else if s[0] == 'R' then KeywordFault(s, "READ ", ReadDeleteFault(Drop(s, 5)))
    else if s[0] == 'D' then KeywordFault(s, "DELETE ", ReadDeleteFault(Drop(s, 7)))
    else if s[0] == 'S' then BareFault(s, "SHOW")
    else if s[0] == 'B' then BareFault(s, "BACKUP")
    else if s[0] == 'H' then BareFault(s, "HELP")
    else Fault(s[1..], false)
  }

  /** What is left after the cleanup, or after the two of a pair. */
  function CleanedUp(f: Fault): string {
    if f.inPair then Cleanup(Cleanup(f.left)) else Cleanup(f.left)
  }

  // ---- that is where the parser goes on from

  lemma PairFaultIs(s: string)
    requires ParsePair(s).NoPair?
    ensures ParsePair(s).rest == Cleanup(PairFault(s))
  {}

  lemma EndFaultIs(full: bool, s: string)
    requires !EndOfList(full, s).ok
    ensures EndOfList(full, s).rest == CleanedUp(EndFault(full, s))
  {}

  lemma FinishPrepended<T>(x: T, l: Items<T>)
    requires FinishList(Prepend(x, l)).items == []
    ensures FinishList(l).items == [] && FinishList(Prepend(x, l)).rest == FinishList(l).rest
  {}

  lemma {:induction false} PairsFaultIs(s: string, room: nat)
    requires FinishList(PairLoop(s, room)).items == []
    ensures FinishList(PairLoop(s, room)).rest == CleanedUp(PairsFault(s, room))
    decreases room
  {
    if room > 0 {
      var p := ParsePair(s);
      if p.NoPair? {
        PairFaultIs(s);
      } else if p.rest != "" && p.rest[0] == '(' {
        FinishPrepended(p.pair, PairLoop(p.rest[1..], room - 1));
        PairsFaultIs(p.rest[1..], room - 1);
      } else if p.rest != "" && p.rest[0] == ']' {
        EndFaultIs(room == 1, p.rest[1..]);
      }
    }
  }

  lemma {:induction false} KeysFaultIs(s: string, room: nat)
    requires FinishList(KeyLoop(s, room)).items == []
    ensures FinishList(KeyLoop(s, room)).rest == CleanedUp(KeysFault(s, room))
    decreases room
  {
    if room > 0 {
      var t := KeyTurn(s);
      if t.More? {
        FinishPrepended(t.item, KeyLoop(t.rest, room - 1));
        KeysFaultIs(t.rest, room - 1);
      } else if t.Last? {
        EndFaultIs(room == 1, t.rest);
      }
    }
  }

  lemma WriteFaultIs(s: string)
    requires ParseWrite(s).items == []
    ensures ParseWrite(s).rest == CleanedUp(WriteFault(s))
  {
    if |s| >= 2 && s[0] == '[' && s[1] == '(' {
      PairsFaultIs(s[2..], MAX_WRITE_SIZE);
    }
  }

  lemma ReadDeleteFaultIs(s: string)
    requires ParseReadDelete(s).items == []
    ensures ParseReadDelete(s).rest == CleanedUp(ReadDeleteFault(s))
  {
    if s != "" && s[0] == '[' {
      KeysFaultIs(s[1..], MAX_WRITE_SIZE);
    }
  }

  lemma BareFaultIs(s: string, word: string, c: Command)
    requires s != "" && Bare(s, word, c).command != c
    ensures Bare(s, word, c).rest == CleanedUp(BareFault(s, word))
  {}

  lemma WaitFaultIs(s: string)
    requires ParseWait(s).delay == None
    ensures ParseWait(s).rest == CleanedUp(Fault(ReadUInt(s).rest, false))
  {}

  /** The two commands that start with W. */
  lemma WaitOrWriteFaultIs(s: string)
    requires s != "" && s[0] == 'W' && NextJob(s).job == JobInvalid
    ensures NextJob(s).rest == CleanedUp(JobFault(s))
  {
    if Take(s, 5) == "WAIT " {
      WaitFaultIs(Drop(s, 5));
    } else if Take(s, 6) == "WRITE " {
      WriteFaultIs(Drop(s, 6));
    }
  }

  lemma ListFaultIs(s: string)
    requires s != "" && (s[0] == 'R' || s[0] == 'D') && NextJob(s).job == JobInvalid
    ensures NextJob(s).rest == CleanedUp(JobFault(s))
  {
    var word := if s[0] == 'R' then "READ " else "DELETE ";
    if Take(s, |word|) == word {
      ReadDeleteFaultIs(Drop(s, |word|));
    }
  }

  lemma WordFaultIs(s: string)
    requires s != "" && s[0] != 'W' && s[0] != 'R' && s[0] != 'D' && NextJob(s).job == JobInvalid
    ensures NextJob(s).rest == CleanedUp(JobFault(s))
  {
    if s[0] == 'S' {
      BareFaultIs(s, "SHOW", CmdShow);
    } else if s[0] == 'B' {
      BareFaultIs(s, "BACKUP", CmdBackup);
    } else if s[0] == 'H' {
      BareFaultIs(s, "HELP", CmdHelp);
    }
  }

  /** After any malformed command the input goes on from the cleanup at the fault. */
  lemma FaultIs(s: string)
    requires NextJob(s).job == JobInvalid
    ensures NextJob(s).rest == CleanedUp(JobFault(s))
  {
    if s != "" {
      if s[0] == 'W' {
        WaitOrWriteFaultIs(s);
      } else if s[0] == 'R' || s[0] == 'D' {
        ListFaultIs(s);
      } else {
        WordFaultIs(s);
      }
    }
  }

  // ---- it lies ahead in the input

  lemma PairFaultForward(s: string)
    ensures IsSuffix(PairFault(s), s)
  {
    var key := ReadString(s, MAX_STRING_SIZE);
    ReadStringForward(s, MAX_STRING_SIZE);
    ReadStringForward(key.rest, MAX_STRING_SIZE);
    SuffixTrans(ReadString(key.rest, MAX_STRING_SIZE).rest, key.rest, s);
  }

  lemma {:induction false} PairsFaultForward(s: string, room: nat)
    ensures IsSuffix(PairsFault(s, room).left, s)
    decreases room
  {
    if room > 0 {
      var p := ParsePair(s);
      PairFaultForward(s);
      ParsePairForward(s);
      if p.OnePair? && p.rest != "" {
        var rest := p.rest[1..];
        SuffixTrans(rest, p.rest, s);
        SuffixTrans(Drop(rest, 1), rest, s);
        PairsFaultForward(rest, room - 1);
        SuffixTrans(PairsFault(rest, room - 1).left, rest, s);
      }
    }
  }

  lemma {:induction false} KeysFaultForward(s: string, room: nat)
    ensures IsSuffix(KeysFault(s, room).left, s)
    decreases room
  {
    if room > 0 {
      var f := ReadString(s, MAX_STRING_SIZE);
      ReadStringForward(s, MAX_STRING_SIZE);
      SuffixTrans(Drop(f.rest, 1), f.rest, s);
      KeysFaultForward(f.rest, room - 1);
      SuffixTrans(KeysFault(f.rest, room - 1).left, f.rest, s);
    }
  }

  lemma WriteFaultForward(s: string)
    ensures IsSuffix(WriteFault(s).left, s)
  {
    if |s| >= 2 {
      PairsFaultForward(s[2..], MAX_WRITE_SIZE);
      SuffixTrans(PairsFault(s[2..], MAX_WRITE_SIZE).left, s[2..], s);
    }
  }

  lemma ReadDeleteFaultForward(s: string)
    ensures IsSuffix(ReadDeleteFault(s).left, s)
  {
    if s != "" {
      KeysFaultForward(s[1..], MAX_WRITE_SIZE);
      SuffixTrans(KeysFault(s[1..], MAX_WRITE_SIZE).left, s[1..], s);
    }
  }

  lemma DropForward(s: string, n: nat)
    ensures IsSuffix(Drop(s, n), s)
  {}

  lemma KeywordFaultForward(s: string, word: string, argument: Fault)
    requires IsSuffix(argument.left, Drop(s, |word|))
    ensures IsSuffix(KeywordFault(s, word, argument).left, s)
  {
    DropForward(s, |word|);
    SuffixTrans(argument.left, Drop(s, |word|), s);
  }

  lemma BareFaultForward(s: string, word: string)
    ensures IsSuffix(BareFault(s, word).left, s)
  {
    DropForward(s, |word|);
    DropForward(s, |word| + 1);
  }

  lemma WaitFaultForward(s: string)
    ensures IsSuffix(ReadUInt(Drop(s, 5)).rest, s)
  {
    DropForward(s, 5);
    SuffixTrans(ReadUInt(Drop(s, 5)).rest, Drop(s, 5), s);
  }

  lemma FaultForward(s: string)
    ensures IsSuffix(JobFault(s).left, s)
  {
    if s != "" {
      match s[0]
      case 'W' =>
        WaitFaultForward(s);
        WriteFaultForward(Drop(s, 6));
        KeywordFaultForward(s, "WRITE ", WriteFault(Drop(s, 6)));
      case 'R' =>
        ReadDeleteFaultForward(Drop(s, 5));
        KeywordFaultForward(s, "READ ", ReadDeleteFault(Drop(s, 5)));
      case 'D' =>
        ReadDeleteFaultForward(Drop(s, 7));
        KeywordFaultForward(s, "DELETE ", ReadDeleteFault(Drop(s, 7)));
      case 'S' => BareFaultForward(s, "SHOW");
      case 'B' => BareFaultForward(s, "BACKUP");
      case 'H' => BareFaultForward(s, "HELP");
      case _ => DropForward(s, 1);
    }
  }

  // ---- how many lines that costs

  /** The bytes read before the command is given up. */
  function BytesRead(s: string, left: string): string
    requires IsSuffix(left, s)
  {
    s[..|s| - |left|]
  }

  /** A cleanup before the line's newline has been read loses that line; after it, the fault is in a later line. */
  lemma {:induction false} CleanupAtFault(s: string, left: string)
    requires IsSuffix(left, s)
    ensures '\n' !in BytesRead(s, left) ==> Cleanup(left) == Cleanup(s)
    ensures '\n' in BytesRead(s, left) ==> IsSuffix(left, Cleanup(s))
  {
    if |left| < |s| {
      assert BytesRead(s, left) == [s[0]] + BytesRead(s[1..], left);
      CleanupAtFault(s[1..], left);
    } else {
      assert BytesRead(s, left) == "";
    }
  }

  /** No line follows the first. */
  predicate LastLine(s: string) {
    s == "" || '\n' !in s[..|s| - 1]
  }

  lemma {:induction false} LastLineIs(s: string)
    ensures LastLine(s) <==> Cleanup(s) == ""
  {
    if |s| > 1 {
      assert s[..|s| - 1] == [s[0]] + s[1..][..|s| - 2];
      LastLineIs(s[1..]);
    }
  }

  lemma CleanupStays(left: string, rest: string)
    requires IsSuffix(left, rest)
    ensures Cleanup(left) == rest <==> rest == ""
    ensures IsSuffix(Cleanup(left), rest)
  {
    CleanupEndsLine(left);
    SuffixTrans(Cleanup(left), left, rest);
  }

  /**
    A malformed command costs its own line and no more if and only if that is the last
    line, or the parser gives the command up before it has read the line's newline and not
    inside a pair.  Otherwise more is lost: for a pair given up within the line, exactly the next line.
   */
  lemma LinesLost(s: string)
    requires NextJob(s).job == JobInvalid
    ensures IsSuffix(JobFault(s).left, s)
    ensures NextJob(s).rest == Cleanup(s) <==>
            LastLine(s) || ('\n' !in BytesRead(s, JobFault(s).left) && !JobFault(s).inPair)
    ensures IsSuffix(NextJob(s).rest, Cleanup(s))
    ensures '\n' !in BytesRead(s, JobFault(s).left) && JobFault(s).inPair ==> NextJob(s).rest == Cleanup(Cleanup(s))
  {
    var f := JobFault(s);
    FaultIs(s);
    FaultForward(s);
    CleanupAtFault(s, f.left);
    LastLineIs(s);
    if '\n' in BytesRead(s, f.left) {
      CleanupStays(f.left, Cleanup(s));
    }
    if f.inPair {
      CleanupStays(Cleanup(f.left), Cleanup(s));
    }
  }

  // ---- commands that are lost

  lemma {:induction false} CleanupPast(line: string, rest: string)
    requires '\n' !in line
    ensures Cleanup(line + (['\n'] + rest)) == rest
  {
    if line == "" {
      assert line + (['\n'] + rest) == ['\n'] + rest;
    } else {
      assert (line + (['\n'] + rest))[1..] == line[1..] + (['\n'] + rest);
      CleanupPast(line[1..], rest);
    }
  }

  /** A space where the key of a pair should go on: the pair's line and the next are skipped. */
  lemma SpaceBreaksPair(key: string, line: string, next: string, rest: string)
    requires |key| < MAX_STRING_SIZE && (forall k :: 0 <= k < |key| ==> Ordinary(key[k])) && '\n' !in line && '\n' !in next
    ensures PairTurn(key + ([' '] + (line + (['\n'] + (next + (['\n'] + rest)))))) == Broken(rest)
  {
    var after := line + (['\n'] + (next + (['\n'] + rest)));
    var s := key + ([' '] + after);
    assert s[|key|] == ' ' && s[|key| + 1..] == after && forall k :: 0 <= k < |key| ==> s[k] == key[k];
    ReadStringAt(s, MAX_STRING_SIZE, |key|);
    CleanupPast(line, next + (['\n'] + rest));
    CleanupPast(next, rest);
  }

  /** So the command on the next line is lost, whatever it is. */
  lemma NextCommandIsLost(key: string, line: string, next: string, rest: string)
    requires |key| < MAX_STRING_SIZE && (forall k :: 0 <= k < |key| ==> Ordinary(key[k])) && '\n' !in line && '\n' !in next
    ensures var s := key + ([' '] + (line + (['\n'] + (next + (['\n'] + rest)))));
            NextJob("WRITE " + ("[(" + s)) == JobAndRest(JobInvalid, rest)
  {
    var s := key + ([' '] + (line + (['\n'] + (next + (['\n'] + rest)))));
    var args := "[(" + s;
    var all := "WRITE " + args;
    SpaceBreaksPair(key, line, next, rest);
    assert args[2..] == s && args[0] == '[' && args[1] == '(';
    assert all[..6] == "WRITE " && all[6..] == args && all[0] == 'W' && Take(all, 5)[1] == 'R';
  }

  lemma ShowText()
    ensures "WRITE " + ("[(" + ("a" + ([' '] + ("b,c)]" + (['\n'] + ("SHOW" + (['\n'] + ""))))))) == "WRITE [(a b,c)]\nSHOW\n"
  {
    assert "SHOW" + (['\n'] + "") == "SHOW\n";
    assert "b,c)]" + (['\n'] + "SHOW\n") == "b,c)]\nSHOW\n";
    assert "a" + ([' '] + "b,c)]\nSHOW\n") == "a b,c)]\nSHOW\n";
  }

  /** The failing input: the SHOW after a key with a space in it is not executed. */
  lemma ShowIsLost()
    ensures NextJob("WRITE [(a b,c)]\nSHOW\n") == JobAndRest(JobInvalid, "")
  {
    NextCommandIsLost("a", "b,c)]", "SHOW", "");
    ShowText();
  }

  /** Without any pair: the word READ without its space, whose newline is read as part of it. */
  lemma ReadLosesNextCommand(next: string, rest: string)
    requires '\n' !in next
    ensures NextJob("READ\n" + (next + (['\n'] + rest))) == JobAndRest(JobInvalid, rest)
  {
    var s := "READ\n" + (next + (['\n'] + rest));
    assert s[..5] == "READ\n" && s[..5][4] != "READ "[4] && s[5..] == next + (['\n'] + rest) && s[0] == 'R';
    CleanupPast(next, rest);
  }
}
