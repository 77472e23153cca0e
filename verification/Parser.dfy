/**
  What parser.c makes of the rest of a job file, as functions: each returns what was
  recognised and the bytes left unread.  StreamParser.dfy is the code itself.
 */
module Parser {
  import opened CStrings
  import opened Operations

  function Drop(s: string, n: nat): string {
    if n <= |s| then s[n..] else ""
  }

  function Take(s: string, n: nat): string {
    if n <= |s| then s[..n] else s
  }

  /** cleanup: skip to just past the next newline. */
  function Cleanup(s: string): string {
    if s == "" then "" else if s[0] == '\n' then s[1..] else Cleanup(s[1..])
  }

  // ---- strings

  const SEPARATOR := 0
  const CLOSE_PAIR := 1
  const CLOSE_LIST := 2

  /** read_string: the code of the terminator (-1 for a failure) and the bytes before it. */
  datatype Field = Field(code: int, text: string, rest: string)

  function Terminator(c: char): int {
    if c == ',' then SEPARATOR else if c == ')' then CLOSE_PAIR else if c == ']' then CLOSE_LIST else -1
  }

  /** An over-long string fails when the buffer is full, nothing being written past it. */
  function ReadString(s: string, max: nat): Field {
    if max == 0 || s == "" then Field(-1, "", s)
    else if s[0] == ' ' then Field(-1, "", s[1..])
    else if Terminator(s[0]) >= 0 then Field(Terminator(s[0]), "", s[1..])
    else
      var f := ReadString(s[1..], max - 1);
      f.(text := [s[0]] + f.text)
  }

  predicate Ordinary(c: char) { c != ' ' && Terminator(c) < 0 }

  /** read_string in closed form: after `i` ordinary bytes the next one, the end or the bound decides. */
  lemma {:induction false} ReadStringAt(s: string, max: nat, i: nat)
    requires i <= max && i <= |s| && forall k :: 0 <= k < i ==> Ordinary(s[k])
    ensures var f := ReadString(s, max);
            && (i == max || i == |s| ==> f == Field(-1, s[..i], s[i..]))
            && (i < max && i < |s| && s[i] == ' ' ==> f == Field(-1, s[..i], s[i + 1..]))
            && (i < max && i < |s| && Terminator(s[i]) >= 0 ==> f == Field(Terminator(s[i]), s[..i], s[i + 1..]))
  {
    if i > 0 {
      ReadStringAt(s[1..], max - 1, i - 1);
      assert s[..i] == [s[0]] + s[1..][..i - 1];
    }
  }

  // ---- commands

  datatype Command = CmdWrite | CmdRead | CmdDelete | CmdShow | CmdWait | CmdBackup | CmdHelp | CmdEmpty | CmdInvalid | EndOfCommands

  datatype Next = Next(command: Command, rest: string)

  /** A command word with its arguments after it. */
  function Keyword(s: string, word: string, c: Command): Next {
    if Take(s, |word|) == word then Next(c, Drop(s, |word|)) else Next(CmdInvalid, Cleanup(Drop(s, |word|)))
  }

  /** A command word alone on its line; the last line may lack its newline. */
  function Bare(s: string, word: string, c: Command): Next {
    if Take(s, |word|) != word then Next(CmdInvalid, Cleanup(Drop(s, |word|)))
    else
      var rest := Drop(s, |word|);
      if rest == "" then Next(c, "")
      else if rest[0] == '\n' then Next(c, rest[1..])
      else Next(CmdInvalid, Cleanup(rest[1..]))
  }

  /** get_next. */
  function GetNext(s: string): Next {
    if s == "" then Next(EndOfCommands, "")
    else if s[0] == 'W' then
      if Take(s, 5) == "WAIT " then Next(CmdWait, Drop(s, 5)) else Keyword(s, "WRITE ", CmdWrite)
    else if s[0] == 'R' then Keyword(s, "READ ", CmdRead)
    else if s[0] == 'D' then Keyword(s, "DELETE ", CmdDelete)
    else if s[0] == 'S' then Bare(s, "SHOW", CmdShow)
    else if s[0] == 'B' then Bare(s, "BACKUP", CmdBackup)
    else if s[0] == 'H' then Bare(s, "HELP", CmdHelp)
    else if s[0] == '#' then Next(CmdEmpty, Cleanup(s[1..]))
    else if s[0] == '\n' then Next(CmdEmpty, s[1..])
    else Next(CmdInvalid, Cleanup(s[1..]))
  }

  // ---- list arguments

  /** How the loop over a list argument ended, with the items read. */
  datatype Items<T> = Bad(rest: string) | Closed(items: seq<T>, rest: string) | Full(rest: string)

  function Prepend<T>(x: T, l: Items<T>): Items<T> {
    if l.Closed? then Closed([x] + l.items, l.rest) else l
  }

  /** One turn of such a loop: malformed, the last item, or one with more to come. */
  datatype Turn<T> = Broken(rest: string) | Last(item: T, rest: string) | More(item: T, rest: string)

  /** The recognised items (none for a malformed command) and the rest of the input. */
  datatype Parsed<T> = Parsed(items: seq<T>, rest: string)

  datatype Ending = Ending(ok: bool, rest: string)

  /** The end of a list command: a full list is refused, and the line must end right after the bracket. */
  function EndOfList(full: bool, s: string): Ending {
    if full then Ending(false, Cleanup(s))
    else if s == "" || (s[0] != '\n' && s[0] != NUL) then Ending(false, Cleanup(Drop(s, 1)))
    else Ending(true, s[1..])
  }

  function FinishList<T>(l: Items<T>): Parsed<T> {
    if l.Bad? then Parsed([], l.rest)
    else
      var e := EndOfList(l.Full?, l.rest);
      Parsed(if e.ok then l.items else [], e.rest)
  }

  // ---- WRITE

  datatype PairResult = NoPair(rest: string) | OnePair(pair: Pair, rest: string)

  /** parse_pair: it cleans up itself when it fails. */
  function ParsePair(s: string): PairResult {
    var key := ReadString(s, MAX_STRING_SIZE);
    if key.code != SEPARATOR then NoPair(Cleanup(key.rest))
    else
      var value := ReadString(key.rest, MAX_STRING_SIZE);
      if value.code != CLOSE_PAIR then NoPair(Cleanup(value.rest))
      else OnePair(Pair(key.text, value.text), value.rest)
  }

  /** A turn of parse_write's loop.  A failed pair, already cleaned up after, is cleaned up after once more. */
  function PairTurn(s: string): Turn<Pair> {
    var p := ParsePair(s);
    if p.NoPair? then Broken(Cleanup(p.rest))
    else if p.rest == "" || (p.rest[0] != '(' && p.rest[0] != ']') then Broken(Cleanup(Drop(p.rest, 1)))
    else if p.rest[0] == ']' then Last(p.pair, p.rest[1..])
    else More(p.pair, p.rest[1..])
  }

  /** parse_write's loop with `room` places left. */
  function PairLoop(s: string, room: nat): Items<Pair>
    decreases room
  {
    if room == 0 then Full(s)
    else
      match PairTurn(s)
      case Broken(rest) => Bad(rest)
      case Last(pair, rest) => if room == 1 then Full(rest) else Closed([pair], rest)
      case More(pair, rest) => Prepend(pair, PairLoop(rest, room - 1))
  }

  /** The loop in closed form: after turns that each had more to come, the next turn or the bound decides. */
  lemma {:induction false} PairLoopAt(rests: seq<string>, items: seq<Pair>, room: nat)
    requires |rests| == |items| + 1 && |items| <= room
    requires forall i {:trigger PairTurn(rests[i])} :: 0 <= i < |items| ==> PairTurn(rests[i]) == More(items[i], rests[i + 1])
    ensures var n, l := |items|, PairLoop(rests[0], room);
            && (n == room ==> l == Full(rests[n]))
            && (n < room ==>
                  var t := PairTurn(rests[n]);
                  && (t.Broken? ==> l == Bad(t.rest))
                  && (t.Last? ==> l == if n + 1 == room then Full(t.rest) else Closed(items + [t.item], t.rest)))
    decreases room
  {
    if items != [] {
      assert PairTurn(rests[0]) == More(items[0], rests[1]);
      forall i {:trigger PairTurn(rests[1..][i])} | 0 <= i < |items[1..]|
        ensures PairTurn(rests[1..][i]) == More(items[1..][i], rests[1..][i + 1])
      {
        assert PairTurn(rests[i + 1]) == More(items[i + 1], rests[i + 2]);
      }
      PairLoopAt(rests[1..], items[1..], room - 1);
      assert items == [items[0]] + items[1..];
    }
  }

  /** parse_write. */
  function ParseWrite(s: string): Parsed<Pair> {
    if s == "" || s[0] != '[' then Parsed([], Cleanup(Drop(s, 1)))
    else if |s| < 2 || s[1] != '(' then Parsed([], Cleanup(Drop(s, 2)))
    else FinishList(PairLoop(s[2..], MAX_WRITE_SIZE))
  }

  // ---- READ and DELETE

  function KeyTurn(s: string): Turn<string> {
    var f := ReadString(s, MAX_STRING_SIZE);
    if f.code < 0 || f.code == CLOSE_PAIR then Broken(Cleanup(f.rest))
    else if f.code == CLOSE_LIST then Last(f.text, f.rest)
    else More(f.text, f.rest)
  }

  /** parse_read_delete's loop with `room` places left. */
  function KeyLoop(s: string, room: nat): Items<string>
    decreases room
  {
    if room == 0 then Full(s)
    else
      match KeyTurn(s)
      case Broken(rest) => Bad(rest)
      case Last(key, rest) => if room == 1 then Full(rest) else Closed([key], rest)
      case More(key, rest) => Prepend(key, KeyLoop(rest, room - 1))
  }

  /** parse_read_delete. */
  function ParseReadDelete(s: string): Parsed<string> {
    if s == "" || s[0] != '[' then Parsed([], Cleanup(Drop(s, 1)))
    else FinishList(KeyLoop(s[1..], MAX_WRITE_SIZE))
  }

  // ---- WAIT

  const UINT_MAX: nat := 0xFFFF_FFFF

  predicate IsDigit(c: char) { '0' <= c <= '9' }

  function DigitValue(c: char): nat
    requires IsDigit(c)
  {
    c as nat - '0' as nat
  }

  function Digits(s: string): (d: string)
    ensures d <= s
    ensures forall c :: c in d ==> IsDigit(c)
    ensures |d| < |s| ==> !IsDigit(s[|d|])
  {
    if s == "" || !IsDigit(s[0]) then "" else [s[0]] + Digits(s[1..])
  }

  lemma {:induction false} DigitsAt(s: string, i: nat)
    requires i <= |s| && (forall k :: 0 <= k < i ==> IsDigit(s[k])) && (i < |s| ==> !IsDigit(s[i]))
    ensures Digits(s) == s[..i]
  {
    if i > 0 {
      DigitsAt(s[1..], i - 1);
      assert s[..i] == [s[0]] + s[1..][..i - 1];
    }
  }

  /** strtoul on digits, base 10. */
  function Number(digits: string): nat
    requires forall c :: c in digits ==> IsDigit(c)
  {
    if digits == "" then 0
    else
      assert digits[|digits| - 1] in digits;
      10 * Number(digits[..|digits| - 1]) + DigitValue(digits[|digits| - 1])
  }

  /** read_uint: the number if it fits, the byte after it (NUL at end of input), and the rest; the byte is consumed. */
  datatype UInt = UInt(value: Option<nat>, next: char, rest: string)

  function ReadUInt(s: string): UInt {
    var d := Digits(s);
    var value := if Number(d) > UINT_MAX then None else Some(Number(d));
    if |d| == |s| then UInt(value, NUL, "") else UInt(value, s[|d|], s[|d| + 1..])
  }

  /** parse_wait without a thread id: the delay, or nothing for a malformed command. */
  datatype Wait = Wait(delay: Option<nat>, rest: string)

  function ParseWait(s: string): Wait {
    var u := ReadUInt(s);
    if u.value == None then Wait(None, Cleanup(u.rest))
    else if u.next == ' ' then Wait(u.value, Cleanup(u.rest))
    else if u.next == '\n' || u.next == NUL then Wait(u.value, u.rest)
    else Wait(None, Cleanup(u.rest))
  }

  // ---- one command with its arguments

  /** A whole command as run_job takes it. */
  datatype Job =
    | JobWrite(pairs: seq<Pair>)
    | JobRead(keys: seq<string>)
    | JobDelete(keys: seq<string>)
    | JobShow
    | JobWait(delay: nat)
    | JobBackup
    | JobHelp
    | JobEmpty
    | JobInvalid
    | JobEnd

  datatype JobAndRest = JobAndRest(job: Job, rest: string)

  /** strcpy drops what follows a NUL in a parsed string. */
  function CopyPairs(items: seq<Pair>): (r: seq<Pair>)
    ensures |r| == |items| && forall i :: 0 <= i < |r| ==> r[i] == Pair(CStr(items[i].key), CStr(items[i].value))
  {
    seq(|items|, i requires 0 <= i < |items| => Pair(CStr(items[i].key), CStr(items[i].value)))
  }

  function CopyKeys(items: seq<string>): (r: seq<string>)
    ensures |r| == |items| && forall i :: 0 <= i < |r| ==> r[i] == CStr(items[i])
  {
    seq(|items|, i requires 0 <= i < |items| => CStr(items[i]))
  }

  /** One iteration of run_job's loop, as far as the input goes. */
  function NextJob(s: string): JobAndRest {
    var n := GetNext(s);
    match n.command
    case CmdWrite =>
      var r := ParseWrite(n.rest);
      JobAndRest(if r.items == [] then JobInvalid else JobWrite(CopyPairs(r.items)), r.rest)
    case CmdRead =>
      var r := ParseReadDelete(n.rest);
      JobAndRest(if r.items == [] then JobInvalid else JobRead(CopyKeys(r.items)), r.rest)
    case CmdDelete =>
      var r := ParseReadDelete(n.rest);
      JobAndRest(if r.items == [] then JobInvalid else JobDelete(CopyKeys(r.items)), r.rest)
    case CmdShow => JobAndRest(JobShow, n.rest)
    case CmdWait =>
      var w := ParseWait(n.rest);
      JobAndRest(if w.delay == None then JobInvalid else JobWait(w.delay.value), w.rest)
    case CmdBackup => JobAndRest(JobBackup, n.rest)
    case CmdHelp => JobAndRest(JobHelp, n.rest)
    case CmdEmpty => JobAndRest(JobEmpty, n.rest)
    case CmdInvalid => JobAndRest(JobInvalid, n.rest)
    case EndOfCommands => JobAndRest(JobEnd, n.rest)
  }
}
