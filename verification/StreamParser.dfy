/**
  parser.c: the code that reads a job file byte by byte through its descriptor,
  proved against the functions of Parser.dfy.

  Evident intent where the code slips: an over-long string fails without writing
  past its buffer, and the digits of a number fit the buffer they are collected in.
 */
module StreamParser {
  import opened CStrings
  import opened LinkedList
  import opened Operations
  import opened Parser

  /** An open regular file: `read` returns as many bytes as asked for, or what is left. */
  class Stream {
    const data: string
    var pos: nat

    ghost predicate Valid()
      reads this
    {
      pos <= |data|
    }

    ghost function Rest(): string
      reads this
      requires Valid()
    {
      data[pos..]
    }

    constructor (data: string)
      ensures Valid() && Rest() == data
    {
      this.data, pos := data, 0;
    }

    method Read(n: nat) returns (bytes: string)
      requires Valid()
      modifies this
      ensures Valid() && bytes == Take(old(Rest()), n) && Rest() == Drop(old(Rest()), n)
    {
      var end := if pos + n <= |data| then pos + n else |data|;
      bytes := data[pos..end];
      pos := end;
    }
  }

  /** read(fd, &ch, 1) */
  method ReadByte(fd: Stream) returns (got: nat, ch: char)
    requires fd.Valid()
    modifies fd
    ensures fd.Valid() && got == if old(fd.Rest()) == "" then 0 else 1
    ensures got == 0 ==> fd.Rest() == "" && ch == NUL
    ensures got == 1 ==> ch == old(fd.Rest())[0] && fd.Rest() == old(fd.Rest())[1..]
  {
    var bytes := fd.Read(1);
    got := |bytes|;
    ch := if got == 1 then bytes[0] else NUL;
  }

  /** cleanup */
  method SkipLine(fd: Stream)
    requires fd.Valid()
    modifies fd
    ensures fd.Valid() && fd.Rest() == Cleanup(old(fd.Rest()))
  {
    var got, ch := ReadByte(fd);
    while got == 1 && ch != '\n'
      invariant fd.Valid() && got <= 1 && (got == 0 ==> fd.Rest() == "")
      invariant Cleanup(old(fd.Rest())) == if got == 0 || ch == '\n' then fd.Rest() else Cleanup(fd.Rest())
      decreases |fd.Rest()| + got
    {
      got, ch := ReadByte(fd);
    }
  }

  /** read_string: on success the buffer holds the bytes and their terminator. */
  method ReadStringInto(fd: Stream, buffer: array<char>, max: nat) returns (value: int)
    requires fd.Valid() && buffer.Length == max
    modifies fd, buffer
    ensures fd.Valid()
    ensures var f := ReadString(old(fd.Rest()), max);
            && value == f.code && fd.Rest() == f.rest
            && (value >= 0 ==> |f.text| < max && buffer[|f.text|] == NUL
                               && forall k :: 0 <= k < |f.text| ==> buffer[k] == f.text[k])
  {
    ghost var s := fd.Rest();
    var i := 0;
    while i < max
      invariant fd.Valid() && i <= max && i <= |s| && fd.Rest() == s[i..]
      invariant forall k :: 0 <= k < i ==> Ordinary(s[k]) && buffer[k] == s[k]
      decreases max - i
    {
      var got, ch := ReadByte(fd);
      if got == 0 || ch == ' ' {
        ReadStringAt(s, max, i);
        return -1;
      }
      if Terminator(ch) >= 0 {
        ReadStringAt(s, max, i);
        buffer[i] := NUL;
        return Terminator(ch);
      }
      buffer[i] := ch;
      i := i + 1;
    }
    ReadStringAt(s, max, i);
    return -1;
  }

  lemma CStrStops(text: string, tail: string)
    ensures CStr(text + [NUL] + tail) == CStr(text)
  {
    var all, n := text + [NUL] + tail, NulAt(text, 0);
    assert all[n] == NUL && forall k :: 0 <= k < n ==> all[k] == text[k];
    assert NulAt(all, 0) == n;
  }

  /** The C string in a buffer that holds `text` and its terminator. */
  method BufferString(buffer: array<char>, ghost text: string) returns (c: string)
    requires |text| < buffer.Length && buffer[|text|] == NUL && forall k :: 0 <= k < |text| ==> buffer[k] == text[k]
    ensures c == CStr(text)
  {
    assert buffer[..|text|] == text;
    CStrStops(text, buffer[|text| + 1..]);
    assert buffer[..] == text + [NUL] + buffer[|text| + 1..];
    c := CStr(buffer[..]);
  }

  /** parse_pair: the strings are those of the buffers when it returns 1. */
  method ParsePairInto(fd: Stream, key: array<char>, value: array<char>) returns (ok: int, k: string, v: string)
    requires fd.Valid() && key != value && key.Length == value.Length == MAX_STRING_SIZE
    modifies fd, key, value
    ensures fd.Valid()
    ensures var p := ParsePair(old(fd.Rest()));
            && fd.Rest() == p.rest && ok == (if p.OnePair? then 1 else 0)
            && (p.OnePair? ==> k == CStr(p.pair.key) && v == CStr(p.pair.value))
  {
    ghost var s := fd.Rest();
    var code := ReadStringInto(fd, key, MAX_STRING_SIZE);
    if code != SEPARATOR {
      SkipLine(fd);
      return 0, "", "";
    }
    k := BufferString(key, ReadString(s, MAX_STRING_SIZE).text);
    ghost var s' := fd.Rest();
    code := ReadStringInto(fd, value, MAX_STRING_SIZE);
    if code != CLOSE_PAIR {
      SkipLine(fd);
      return 0, "", "";
    }
    v := BufferString(value, ReadString(s', MAX_STRING_SIZE).text);
    ok := 1;
  }

  /** What is printed after `items` have been stored and `l` is what the loop will still find. */
  ghost function Followed<T>(items: seq<T>, l: Items<T>): Items<T> {
    if l.Closed? then Closed(items + l.items, l.rest) else l
  }

  lemma FollowedMore<T>(items: seq<T>, x: T, l: Items<T>)
    ensures Followed(items, Prepend(x, l)) == Followed(items + [x], l)
  {
    if l.Closed? {
      Assoc(items, [x], l.items);
    }
  }

  /** The end of a list command. */
  method EndOfListInto(fd: Stream, full: bool) returns (ok: bool)
    requires fd.Valid()
    modifies fd
    ensures fd.Valid()
    ensures var e := EndOfList(full, old(fd.Rest())); fd.Rest() == e.rest && ok == e.ok
  {
    if full {
      SkipLine(fd);
      return false;
    }
    var got, ch := ReadByte(fd);
    if got != 1 || (ch != '\n' && ch != NUL) {
      SkipLine(fd);
      return false;
    }
    return true;
  }

  datatype Kind = IsBroken | IsLast | IsMore

  /** The body of parse_write's loop, except that its cleanup after a failure is done here. */
  method PairTurnInto(fd: Stream, key: array<char>, value: array<char>) returns (kind: Kind, k: string, v: string)
    requires fd.Valid() && key != value && key.Length == value.Length == MAX_STRING_SIZE
    modifies fd, key, value
    ensures fd.Valid()
    ensures var t := PairTurn(old(fd.Rest()));
            && fd.Rest() == t.rest && kind == (if t.Broken? then IsBroken else if t.Last? then IsLast else IsMore)
            && (!t.Broken? ==> k == CStr(t.item.key) && v == CStr(t.item.value))
  {
    var ok;
    ok, k, v := ParsePairInto(fd, key, value);
    if ok == 0 {
      SkipLine(fd);
      return IsBroken, k, v;
    }
    var got, ch := ReadByte(fd);
    if got != 1 || (ch != '(' && ch != ']') {
      SkipLine(fd);
      return IsBroken, k, v;
    }
    kind := if ch == ']' then IsLast else IsMore;
  }

  /** The arrays hold the parsed pairs, as strcpy copies them. */
  ghost predicate Copied(keys: array<string>, values: array<string>, items: seq<Pair>)
    reads keys, values
  {
    && |items| <= keys.Length && |items| <= values.Length
    && (forall i :: 0 <= i < |items| ==> keys[i] == CStr(items[i].key))
    && (forall i :: 0 <= i < |items| ==> values[i] == CStr(items[i].value))
  }

  method CopyInto(keys: array<string>, values: array<string>, n: nat, k: string, v: string, ghost items: seq<Pair>, ghost item: Pair)
    requires keys != values && n == |items| < keys.Length == values.Length && Copied(keys, values, items)
    requires k == CStr(item.key) && v == CStr(item.value)
    modifies keys, values
    ensures Copied(keys, values, items + [item])
  {
    keys[n] := k;
    values[n] := v;
  }

  /** The loop of parse_write. */
  method PairLoopInto(fd: Stream, keys: array<string>, values: array<string>) returns (numPairs: nat, broken: bool, ghost items: seq<Pair>)
    requires fd.Valid() && keys != values && keys.Length == values.Length == MAX_WRITE_SIZE
    modifies fd, keys, values
    ensures fd.Valid() && numPairs == |items| <= MAX_WRITE_SIZE
    ensures var l := PairLoop(old(fd.Rest()), MAX_WRITE_SIZE);
            && fd.Rest() == l.rest && broken == l.Bad?
            && (!broken ==> if l.Closed? then l.items == items && numPairs < MAX_WRITE_SIZE else numPairs == MAX_WRITE_SIZE)
    ensures Copied(keys, values, items)
  {
    ghost var s := fd.Rest();
    ghost var rests := [s];
    var key, value := new char[MAX_STRING_SIZE], new char[MAX_STRING_SIZE];
    numPairs, broken, items := 0, false, [];
    while numPairs < MAX_WRITE_SIZE
      invariant fd.Valid() && numPairs == |items| <= MAX_WRITE_SIZE && Copied(keys, values, items)
      invariant |rests| == numPairs + 1 && rests[0] == s && rests[numPairs] == fd.Rest()
      invariant forall i {:trigger PairTurn(rests[i])} :: 0 <= i < numPairs ==> PairTurn(rests[i]) == More(items[i], rests[i + 1])
    {
      ghost var turn := PairTurn(fd.Rest());
      var kind, k, v := PairTurnInto(fd, key, value);
      if kind == IsBroken {
        PairLoopAt(rests, items, MAX_WRITE_SIZE);
        return numPairs, true, items;
      }
      CopyInto(keys, values, numPairs, k, v, items, turn.item);
      if kind == IsLast {
        PairLoopAt(rests, items, MAX_WRITE_SIZE);
        return numPairs + 1, false, items + [turn.item];
      }
      items, rests := items + [turn.item], rests + [turn.rest];
      numPairs := numPairs + 1;
    }
    PairLoopAt(rests, items, MAX_WRITE_SIZE);
  }

  /** parse_write: fills the arrays and returns how many pairs it recognised, 0 for a malformed command. */
  method ParseWriteInto(fd: Stream, keys: array<string>, values: array<string>) returns (numPairs: nat)
    requires fd.Valid() && keys != values && keys.Length == values.Length == MAX_WRITE_SIZE
    modifies fd, keys, values
    ensures fd.Valid()
    ensures var r := ParseWrite(old(fd.Rest()));
            fd.Rest() == r.rest && numPairs == |r.items| < MAX_WRITE_SIZE && Copied(keys, values, r.items)
  {
    var got, ch := ReadByte(fd);
    if got != 1 || ch != '[' {
      SkipLine(fd);
      return 0;
    }
    got, ch := ReadByte(fd);
    if got != 1 || ch != '(' {
      SkipLine(fd);
      return 0;
    }
    var broken;
    ghost var items;
    numPairs, broken, items := PairLoopInto(fd, keys, values);
    if broken {
      return 0;
    }
    var ok := EndOfListInto(fd, numPairs == MAX_WRITE_SIZE);
    if !ok {
      return 0;
    }
  }

  ghost predicate CopiedKeys(keys: array<string>, items: seq<string>)
    reads keys
  {
    |items| <= keys.Length && forall i :: 0 <= i < |items| ==> keys[i] == CStr(items[i])
  }

  method CopyKeyInto(keys: array<string>, n: nat, k: string, ghost items: seq<string>, ghost item: string)
    requires n == |items| < keys.Length && CopiedKeys(keys, items) && k == CStr(item)
    modifies keys
    ensures CopiedKeys(keys, items + [item])
  {
    keys[n] := k;
  }

  /** The body of parse_read_delete's loop. */
  method KeyTurnInto(fd: Stream, key: array<char>) returns (kind: Kind, k: string)
    requires fd.Valid() && key.Length == MAX_STRING_SIZE
    modifies fd, key
    ensures fd.Valid()
    ensures var t := KeyTurn(old(fd.Rest()));
            && fd.Rest() == t.rest && kind == (if t.Broken? then IsBroken else if t.Last? then IsLast else IsMore)
            && (!t.Broken? ==> k == CStr(t.item))
  {
    ghost var f := ReadString(fd.Rest(), MAX_STRING_SIZE);
    var output := ReadStringInto(fd, key, MAX_STRING_SIZE);
    if output < 0 || output == CLOSE_PAIR {
      SkipLine(fd);
      return IsBroken, "";
    }
    k := BufferString(key, f.text);
    kind := if output == CLOSE_LIST then IsLast else IsMore;
  }

  /** One turn of parse_read_delete's loop: of `all`, `items` have been stored, and now perhaps one more. */
  method KeyStepInto(fd: Stream, keys: array<string>, key: array<char>, numKeys: nat, ghost items: seq<string>, ghost all: Items<string>)
    returns (kind: Kind, ghost now: seq<string>)
    requires fd.Valid() && keys.Length == MAX_WRITE_SIZE && key.Length == MAX_STRING_SIZE
    requires numKeys == |items| < MAX_WRITE_SIZE && CopiedKeys(keys, items)
    requires all == Followed(items, KeyLoop(fd.Rest(), MAX_WRITE_SIZE - |items|))
    modifies fd, keys, key
    ensures fd.Valid() && CopiedKeys(keys, now) && |now| == if kind == IsBroken then numKeys else numKeys + 1
    ensures kind == IsBroken ==> all == Bad(fd.Rest())
    ensures kind == IsLast ==> all == if numKeys + 1 == MAX_WRITE_SIZE then Full(fd.Rest()) else Closed(now, fd.Rest())
    ensures kind == IsMore ==> all == Followed(now, KeyLoop(fd.Rest(), MAX_WRITE_SIZE - |now|))
  {
    ghost var turn := KeyTurn(fd.Rest());
    var k;
    kind, k := KeyTurnInto(fd, key);
    now := items;
    if kind != IsBroken {
      CopyKeyInto(keys, numKeys, k, items, turn.item);
      FollowedMore(items, turn.item, KeyLoop(turn.rest, MAX_WRITE_SIZE - numKeys - 1));
      now := items + [turn.item];
    }
  }

  /** The loop of parse_read_delete. */
  method KeyLoopInto(fd: Stream, keys: array<string>) returns (numKeys: nat, broken: bool, ghost items: seq<string>)
    requires fd.Valid() && keys.Length == MAX_WRITE_SIZE
    modifies fd, keys
    ensures fd.Valid() && numKeys == |items| <= MAX_WRITE_SIZE
    ensures var l := KeyLoop(old(fd.Rest()), MAX_WRITE_SIZE);
            && fd.Rest() == l.rest && broken == l.Bad?
            && (!broken ==> if l.Closed? then l.items == items && numKeys < MAX_WRITE_SIZE else numKeys == MAX_WRITE_SIZE)
    ensures CopiedKeys(keys, items)
  {
    ghost var all := KeyLoop(fd.Rest(), MAX_WRITE_SIZE);
    var key := new char[MAX_STRING_SIZE];
    numKeys, broken, items := 0, false, [];
    while numKeys < MAX_WRITE_SIZE
      invariant fd.Valid() && numKeys == |items| <= MAX_WRITE_SIZE
      invariant all == Followed(items, KeyLoop(fd.Rest(), MAX_WRITE_SIZE - |items|))
      invariant CopiedKeys(keys, items)
    {
      var kind;
      kind, items := KeyStepInto(fd, keys, key, numKeys, items, all);
      if kind == IsBroken {
        return numKeys, true, items;
      }
      numKeys := numKeys + 1;
      if kind == IsLast {
        return;
      }
    }
  }

  /** parse_read_delete: fills the array and returns how many keys it recognised, 0 for a malformed command. */
  method ParseReadDeleteInto(fd: Stream, keys: array<string>) returns (numKeys: nat)
    requires fd.Valid() && keys.Length == MAX_WRITE_SIZE
    modifies fd, keys
    ensures fd.Valid()
    ensures var r := ParseReadDelete(old(fd.Rest()));
            fd.Rest() == r.rest && numKeys == |r.items| < MAX_WRITE_SIZE && CopiedKeys(keys, r.items)
  {
    var got, ch := ReadByte(fd);
    if got != 1 || ch != '[' {
      SkipLine(fd);
      return 0;
    }
    var broken;
    ghost var items;
    numKeys, broken, items := KeyLoopInto(fd, keys);
    if broken {
      return 0;
    }
    var ok := EndOfListInto(fd, numKeys == MAX_WRITE_SIZE);
    if !ok {
      return 0;
    }
  }

  /** read_uint: collects digits up to the first other byte, which it consumes. */
  method ReadUIntInto(fd: Stream) returns (failed: int, value: nat, next: char)
    requires fd.Valid()
    modifies fd
    ensures fd.Valid()
    ensures var u := ReadUInt(old(fd.Rest()));
            && fd.Rest() == u.rest && next == u.next
            && (if u.value == None then failed == 1 else failed == 0 && value == u.value.value)
  {
    ghost var s := fd.Rest();
    var buf := "";
    var got, ch := ReadByte(fd);
    while got == 1 && IsDigit(ch)
      invariant fd.Valid() && |buf| <= |s| && buf == s[..|buf|]
      invariant forall k :: 0 <= k < |buf| ==> IsDigit(s[k])
      invariant if got == 1 then |buf| < |s| && ch == s[|buf|] && fd.Rest() == s[|buf| + 1..]
                else got == 0 && |buf| == |s| && ch == NUL && fd.Rest() == ""
      decreases |fd.Rest()| + got
    {
      buf := buf + [ch];
      got, ch := ReadByte(fd);
    }
    next := ch;
    DigitsAt(s, |buf|);
    var ul := Number(buf);
    if ul > UINT_MAX {
      return 1, 0, next;
    }
    return 0, ul, next;
  }

  /** parse_wait, called without a thread id. */
  method ParseWaitInto(fd: Stream) returns (code: int, delay: nat)
    requires fd.Valid()
    modifies fd
    ensures fd.Valid()
    ensures var w := ParseWait(old(fd.Rest()));
            fd.Rest() == w.rest && if w.delay == None then code == -1 else code == 0 && delay == w.delay.value
  {
    var failed, value, ch := ReadUIntInto(fd);
    if failed != 0 {
      SkipLine(fd);
      return -1, 0;
    }
    if ch == ' ' {
      SkipLine(fd);
      return 0, value;
    } else if ch == '\n' || ch == NUL {
      return 0, value;
    } else {
      SkipLine(fd);
      return -1, 0;
    }
  }

  /** Reads the rest of a command word whose first byte has been read. */
  method ReadWord(fd: Stream, first: char, word: string) returns (ok: bool)
    requires fd.Valid() && word != ""
    modifies fd
    ensures fd.Valid() && fd.Rest() == Drop(old(fd.Rest()), |word| - 1)
    ensures ok <==> Take([first] + old(fd.Rest()), |word|) == word
  {
    var bytes := fd.Read(|word| - 1);
    ok := [first] + bytes == word;
    assert Take([first] + old(fd.Rest()), |word|) == [first] + bytes;
  }

  method KeywordInto(fd: Stream, first: char, word: string, c: Command) returns (command: Command)
    requires fd.Valid() && word != ""
    modifies fd
    ensures fd.Valid() && Next(command, fd.Rest()) == Keyword([first] + old(fd.Rest()), word, c)
  {
    assert Drop([first] + fd.Rest(), |word|) == Drop(fd.Rest(), |word| - 1);
    var ok := ReadWord(fd, first, word);
    if !ok {
      SkipLine(fd);
      return CmdInvalid;
    }
    return c;
  }

  method BareInto(fd: Stream, first: char, word: string, c: Command) returns (command: Command)
    requires fd.Valid() && word != ""
    modifies fd
    ensures fd.Valid() && Next(command, fd.Rest()) == Bare([first] + old(fd.Rest()), word, c)
  {
    assert Drop([first] + fd.Rest(), |word|) == Drop(fd.Rest(), |word| - 1);
    var ok := ReadWord(fd, first, word);
    if !ok {
      SkipLine(fd);
      return CmdInvalid;
    }
    var got, ch := ReadByte(fd);
    if got != 0 && ch != '\n' {
      SkipLine(fd);
      return CmdInvalid;
    }
    return c;
  }

  /** The case of get_next that tells WAIT from WRITE: one byte more is read for the longer word. */
  method WaitOrWrite(fd: Stream) returns (command: Command)
    requires fd.Valid()
    modifies fd
    ensures fd.Valid()
    ensures var s := "W" + old(fd.Rest());
            Next(command, fd.Rest()) == if Take(s, 5) == "WAIT " then Next(CmdWait, Drop(s, 5)) else Keyword(s, "WRITE ", CmdWrite)
  {
    ghost var s := "W" + fd.Rest();
    var bytes := fd.Read(4);
    assert Take(s, 5) == "W" + bytes && fd.Rest() == Drop(s, 5);
    if "W" + bytes != "WAIT " {
      var more := fd.Read(1);
      assert Take(s, 6) == "W" + bytes + more && fd.Rest() == Drop(s, 6);
      if "W" + bytes + more != "WRITE " {
        SkipLine(fd);
        return CmdInvalid;
      }
      return CmdWrite;
    }
    return CmdWait;
  }

  method GetNextInto(fd: Stream) returns (command: Command)
    requires fd.Valid()
    modifies fd
    ensures fd.Valid() && Next(command, fd.Rest()) == GetNext(old(fd.Rest()))
  {
    ghost var s := fd.Rest();
    var got, ch := ReadByte(fd);
    if got != 1 {
      return EndOfCommands;
    }
    assert s == [ch] + fd.Rest();
    match ch {
      case 'W' => command := WaitOrWrite(fd);
      case 'R' => command := KeywordInto(fd, ch, "READ ", CmdRead);
      case 'D' => command := KeywordInto(fd, ch, "DELETE ", CmdDelete);
      case 'S' => command := BareInto(fd, ch, "SHOW", CmdShow);
      case 'B' => command := BareInto(fd, ch, "BACKUP", CmdBackup);
      case 'H' => command := BareInto(fd, ch, "HELP", CmdHelp);
      case '#' =>
        SkipLine(fd);
        command := CmdEmpty;
      case '\n' => command := CmdEmpty;
      case _ =>
        SkipLine(fd);
        command := CmdInvalid;
    }
  }
}
