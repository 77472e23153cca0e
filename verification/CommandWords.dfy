/**
  The commands of a job file, both ways: exactly which texts run_job takes for which
  command, and where it goes on reading.
 */
module CommandWords {
  import opened CStrings
  import opened Operations
  import opened Parser
  import opened Grammar
  import LostLines

  // ---- the word decides the command

  lemma TakeIs(s: string, word: string)
    requires Take(s, |word|) == word
    ensures s == word + Drop(s, |word|)
  {}

  lemma WordTaken(word: string, rest: string)
    ensures Take(word + rest, |word|) == word && Drop(word + rest, |word|) == rest
  {
    assert (word + rest)[..|word|] == word && (word + rest)[|word|..] == rest;
  }

  lemma FirstByte(s: string, word: string)
    requires word != "" && Take(s, |word|) == word
    ensures s != "" && s[0] == word[0]
  {
    TakeIs(s, word);
  }

  lemma EmptyNext(s: string)
    ensures GetNext(s).command == CmdEmpty <==> s != "" && (s[0] == '#' || s[0] == '\n')
    ensures s != "" && s[0] == '#' ==> GetNext(s) == Next(CmdEmpty, Cleanup(s[1..]))
    ensures s != "" && s[0] == '\n' ==> GetNext(s) == Next(CmdEmpty, s[1..])
  {}

  lemma EmptyJob(s: string, rest: string)
    ensures NextJob(s) == JobAndRest(JobEmpty, rest) <==>
            s != "" && ((s[0] == '#' && rest == Cleanup(s[1..])) || (s[0] == '\n' && rest == s[1..]))
  {
    EmptyNext(s);
  }

  lemma ShowJob(s: string, rest: string)
    ensures NextJob(s) == JobAndRest(JobShow, rest) <==> Bare(s, "SHOW", CmdShow) == Next(CmdShow, rest)
  {
    if Bare(s, "SHOW", CmdShow).command == CmdShow {
      FirstByte(s, "SHOW");
    }
  }

  lemma BackupJob(s: string, rest: string)
    ensures NextJob(s) == JobAndRest(JobBackup, rest) <==> Bare(s, "BACKUP", CmdBackup) == Next(CmdBackup, rest)
  {
    if Bare(s, "BACKUP", CmdBackup).command == CmdBackup {
      FirstByte(s, "BACKUP");
    }
  }

  lemma HelpJob(s: string, rest: string)
    ensures NextJob(s) == JobAndRest(JobHelp, rest) <==> Bare(s, "HELP", CmdHelp) == Next(CmdHelp, rest)
  {
    if Bare(s, "HELP", CmdHelp).command == CmdHelp {
      FirstByte(s, "HELP");
    }
  }

  lemma WaitJob(s: string, delay: nat, rest: string)
    ensures NextJob(s) == JobAndRest(JobWait(delay), rest) <==>
            Take(s, 5) == "WAIT " && ParseWait(Drop(s, 5)) == Wait(Some(delay), rest)
  {
    if Take(s, 5) == "WAIT " {
      FirstByte(s, "WAIT ");
    }
  }

  lemma WaitIsNotWrite(s: string)
    requires Take(s, 6) == "WRITE "
    ensures s != "" && s[0] == 'W' && Take(s, 5) != "WAIT "
  {
    FirstByte(s, "WRITE ");
    assert Take(s, 5) == "WRITE "[..5] && "WRITE "[..5][1] != "WAIT "[1];
  }

  lemma WriteJob(s: string, ps: seq<Pair>, rest: string)
    ensures NextJob(s) == JobAndRest(JobWrite(ps), rest) <==>
            && Take(s, 6) == "WRITE "
            && var r := ParseWrite(Drop(s, 6)); r.items != [] && CopyPairs(r.items) == ps && r.rest == rest
  {
    if Take(s, 6) == "WRITE " {
      WaitIsNotWrite(s);
    }
  }

  lemma ReadJob(s: string, ks: seq<string>, rest: string)
    ensures NextJob(s) == JobAndRest(JobRead(ks), rest) <==>
            && Take(s, 5) == "READ "
            && var r := ParseReadDelete(Drop(s, 5)); r.items != [] && CopyKeys(r.items) == ks && r.rest == rest
  {
    if Take(s, 5) == "READ " {
      FirstByte(s, "READ ");
    }
  }

  lemma DeleteJob(s: string, ks: seq<string>, rest: string)
    ensures NextJob(s) == JobAndRest(JobDelete(ks), rest) <==>
            && Take(s, 7) == "DELETE "
            && var r := ParseReadDelete(Drop(s, 7)); r.items != [] && CopyKeys(r.items) == ks && r.rest == rest
  {
    if Take(s, 7) == "DELETE " {
      FirstByte(s, "DELETE ");
    }
  }

  // ---- empty lines and comments

  /** A line and what follows it; the last line may lack its newline. */
  ghost predicate IsLine(s: string, rest: string) {
    || (exists line :: '\n' !in line && s == line + (['\n'] + rest))
    || ('\n' !in s && rest == "")
  }

  lemma {:induction false} CleanupOnly(s: string)
    ensures IsLine(s, Cleanup(s))
  {
    if s != "" {
      if s[0] == '\n' {
        assert s == "" + (['\n'] + s[1..]);
      } else {
        CleanupOnly(s[1..]);
        if '\n' in s[1..] {
          var line :| '\n' !in line && s[1..] == line + (['\n'] + Cleanup(s[1..]));
          assert s == ([s[0]] + line) + (['\n'] + Cleanup(s)) && '\n' !in [s[0]] + line;
        }
      }
    }
  }

  lemma {:induction false} NoNewline(s: string)
    requires '\n' !in s
    ensures Cleanup(s) == ""
  {
    if s != "" {
      NoNewline(s[1..]);
    }
  }

  /** cleanup skips exactly the rest of the line. */
  lemma CleanupExactly(s: string, rest: string)
    ensures Cleanup(s) == rest <==> IsLine(s, rest)
  {
    CleanupOnly(s);
    if IsLine(s, rest) {
      if '\n' !in s {
        NoNewline(s);
      } else {
        var line :| '\n' !in line && s == line + (['\n'] + rest);
        LostLines.CleanupPast(line, rest);
      }
    }
  }

  /** Empty commands are exactly the empty line and the comment. */
  lemma EmptyExactly(s: string, rest: string)
    ensures NextJob(s) == JobAndRest(JobEmpty, rest) <==>
            s != "" && ((s[0] == '\n' && s[1..] == rest) || (s[0] == '#' && IsLine(s[1..], rest)))
  {
    EmptyJob(s, rest);
    if s != "" {
      CleanupExactly(s[1..], rest);
    }
  }

  /** A comment is skipped to its end and does nothing. */
  lemma CommentLine(line: string, rest: string)
    requires '\n' !in line
    ensures NextJob("#" + (line + (['\n'] + rest))) == JobAndRest(JobEmpty, rest)
  {
    var s := "#" + (line + (['\n'] + rest));
    assert s[0] == '#' && s[1..] == line + (['\n'] + rest);
    EmptyExactly(s, rest);
  }

  // ---- words alone on their line

  /** The word and its newline, or the word at the end of the input. */
  predicate IsBare(s: string, word: string, rest: string) {
    s == word + (['\n'] + rest) || (s == word && rest == "")
  }

  lemma BareExactly(s: string, word: string, c: Command, rest: string)
    requires c != CmdInvalid
    ensures Bare(s, word, c) == Next(c, rest) <==> IsBare(s, word, rest)
  {
    if Bare(s, word, c) == Next(c, rest) {
      TakeIs(s, word);
      var after := Drop(s, |word|);
      if after != "" {
        assert after == ['\n'] + after[1..];
      }
    }
    WordTaken(word, ['\n'] + rest);
    WordTaken(word, "");
    assert word + "" == word;
  }

  /** SHOW, BACKUP and HELP are exactly these words alone on a line. */
  lemma ShowExactly(s: string, rest: string)
    ensures NextJob(s) == JobAndRest(JobShow, rest) <==> IsBare(s, "SHOW", rest)
  {
    ShowJob(s, rest);
    BareExactly(s, "SHOW", CmdShow, rest);
  }

  lemma BackupExactly(s: string, rest: string)
    ensures NextJob(s) == JobAndRest(JobBackup, rest) <==> IsBare(s, "BACKUP", rest)
  {
    BackupJob(s, rest);
    BareExactly(s, "BACKUP", CmdBackup, rest);
  }

  lemma HelpExactly(s: string, rest: string)
    ensures NextJob(s) == JobAndRest(JobHelp, rest) <==> IsBare(s, "HELP", rest)
  {
    HelpJob(s, rest);
    BareExactly(s, "HELP", CmdHelp, rest);
  }

  // ---- WAIT

  predicate AllDigits(d: string) {
    forall k :: 0 <= k < |d| ==> IsDigit(d[k])
  }

  /** The end of the input, a byte that ends the line, or a space and the rest of the line. */
  predicate EndsDelay(tail: string, rest: string) {
    if tail == "" then rest == ""
    else if tail[0] == ' ' then rest == Cleanup(tail[1..])
    else (tail[0] == '\n' || tail[0] == NUL) && rest == tail[1..]
  }

  function DelayOf(digits: string): nat {
    if AllDigits(digits) then Number(digits) else 0
  }

  ghost predicate IsDelay(s: string, delay: nat, rest: string) {
    exists n: nat :: n <= |s| && AllDigits(s[..n]) && EndsDelay(s[n..], rest) && DelayOf(s[..n]) == delay <= UINT_MAX
  }

  lemma WaitOnly(s: string, delay: nat, rest: string)
    requires ParseWait(s) == Wait(Some(delay), rest)
    ensures IsDelay(s, delay, rest)
  {
    var d := Digits(s);
    var n := |d|;
    assert s[..n] == d && forall k :: 0 <= k < n ==> d[k] in d;
    assert DelayOf(s[..n]) == delay;
  }

  lemma WaitRead(s: string, n: nat, delay: nat, rest: string)
    requires n <= |s| && AllDigits(s[..n]) && EndsDelay(s[n..], rest) && DelayOf(s[..n]) == delay <= UINT_MAX
    ensures ParseWait(s) == Wait(Some(delay), rest)
  {
    assert forall k :: 0 <= k < n ==> s[k] == s[..n][k];
    DigitsAt(s, n);
    assert s[n..] != "" ==> s[n..][0] == s[n] && s[n..][1..] == s[n + 1..];
  }

  /** WAIT is exactly its word, digits that fit an unsigned int, and one of those ends. */
  lemma WaitExactly(s: string, delay: nat, rest: string)
    ensures NextJob(s) == JobAndRest(JobWait(delay), rest) <==> Take(s, 5) == "WAIT " && IsDelay(Drop(s, 5), delay, rest)
  {
    WaitJob(s, delay, rest);
    var args := Drop(s, 5);
    if ParseWait(args) == Wait(Some(delay), rest) {
      WaitOnly(args, delay, rest);
    }
    if IsDelay(args, delay, rest) {
      var n: nat :| n <= |args| && AllDigits(args[..n]) && EndsDelay(args[n..], rest) && DelayOf(args[..n]) == delay <= UINT_MAX;
      WaitRead(args, n, delay, rest);
    }
  }

  // ---- WRITE, READ and DELETE

  /** The printed pairs and a line end; strcpy cuts each string at its first NUL. */
  ghost predicate IsWrite(args: string, ps: seq<Pair>, rest: string) {
    exists items, c ::
      && 0 < |items| < MAX_WRITE_SIZE && PlainPairs(items) && EndsArgument(c) && CopyPairs(items) == ps
      && args == WriteArgument(items) + ([c] + rest)
  }

  lemma PairsOnlyIf(args: string, ps: seq<Pair>, rest: string)
    requires var r := ParseWrite(args); r.items != [] && CopyPairs(r.items) == ps && r.rest == rest
    ensures IsWrite(args, ps, rest)
  {
    var c := WriteOnly(args);
  }

  lemma PairsIf(args: string, ps: seq<Pair>, rest: string)
    requires IsWrite(args, ps, rest)
    ensures var r := ParseWrite(args); r.items != [] && CopyPairs(r.items) == ps && r.rest == rest
  {
    var items, c :|
      && 0 < |items| < MAX_WRITE_SIZE && PlainPairs(items) && EndsArgument(c) && CopyPairs(items) == ps
      && args == WriteArgument(items) + ([c] + rest);
    WriteRead(items, c, rest);
  }

  lemma WriteExactly(s: string, ps: seq<Pair>, rest: string)
    ensures NextJob(s) == JobAndRest(JobWrite(ps), rest) <==> Take(s, 6) == "WRITE " && IsWrite(Drop(s, 6), ps, rest)
  {
    var args := Drop(s, 6);
    var r := ParseWrite(args);
    WriteJob(s, ps, rest);
    if r.items != [] && CopyPairs(r.items) == ps && r.rest == rest {
      PairsOnlyIf(args, ps, rest);
    } else if IsWrite(args, ps, rest) {
      PairsIf(args, ps, rest);
    }
  }

  ghost predicate IsKeys(args: string, ks: seq<string>, rest: string) {
    exists items, c ::
      && 0 < |items| < MAX_WRITE_SIZE && PlainKeys(items) && EndsArgument(c) && CopyKeys(items) == ks
      && args == KeysArgument(items) + ([c] + rest)
  }

  lemma KeysOnlyIf(args: string, ks: seq<string>, rest: string)
    requires var r := ParseReadDelete(args); r.items != [] && CopyKeys(r.items) == ks && r.rest == rest
    ensures IsKeys(args, ks, rest)
  {
    KeysGrammar(args, ParseReadDelete(args).items, rest);
  }

  lemma KeysIf(args: string, ks: seq<string>, rest: string)
    requires IsKeys(args, ks, rest)
    ensures var r := ParseReadDelete(args); r.items != [] && CopyKeys(r.items) == ks && r.rest == rest
  {
    var items, c :|
      && 0 < |items| < MAX_WRITE_SIZE && PlainKeys(items) && EndsArgument(c) && CopyKeys(items) == ks
      && args == KeysArgument(items) + ([c] + rest);
    KeysArgumentRead(items, c, rest);
  }

  lemma KeysExactly(args: string, ks: seq<string>, rest: string)
    ensures (var r := ParseReadDelete(args); r.items != [] && CopyKeys(r.items) == ks && r.rest == rest) <==> IsKeys(args, ks, rest)
  {
    var r := ParseReadDelete(args);
    if r.items != [] && CopyKeys(r.items) == ks && r.rest == rest {
      KeysOnlyIf(args, ks, rest);
    } else if IsKeys(args, ks, rest) {
      KeysIf(args, ks, rest);
    }
  }

  lemma ReadExactly(s: string, ks: seq<string>, rest: string)
    ensures NextJob(s) == JobAndRest(JobRead(ks), rest) <==> Take(s, 5) == "READ " && IsKeys(Drop(s, 5), ks, rest)
  {
    ReadJob(s, ks, rest);
    KeysExactly(Drop(s, 5), ks, rest);
  }

  lemma DeleteExactly(s: string, ks: seq<string>, rest: string)
    ensures NextJob(s) == JobAndRest(JobDelete(ks), rest) <==> Take(s, 7) == "DELETE " && IsKeys(Drop(s, 7), ks, rest)
  {
    DeleteJob(s, ks, rest);
    KeysExactly(Drop(s, 7), ks, rest);
  }
}
