/** The argument grammars, both ways: what the parser accepts is exactly what the printers below print. */
module Grammar {
  import opened CStrings
  import opened LinkedList
  import opened Operations
  import opened Parser

  /** What may stand between separators. */
  predicate Plain(f: string) {
    |f| < MAX_STRING_SIZE && forall k :: 0 <= k < |f| ==> Ordinary(f[k])
  }

  predicate PlainPair(p: Pair) { Plain(p.key) && Plain(p.value) }

  // ---- one string

  lemma FieldRead(f: string, c: char, rest: string)
    requires Plain(f) && Terminator(c) >= 0
    ensures ReadString(f + ([c] + rest), MAX_STRING_SIZE) == Field(Terminator(c), f, rest)
  {
    var s := f + ([c] + rest);
    assert s[..|f|] == f && s[|f| + 1..] == rest && s[|f|] == c;
    assert forall k :: 0 <= k < |f| ==> s[k] == f[k];
    ReadStringAt(s, MAX_STRING_SIZE, |f|);
  }

  function TerminatorChar(code: int): char {
    if code == SEPARATOR then ',' else if code == CLOSE_PAIR then ')' else ']'
  }

  lemma {:induction false} FieldOnly(s: string, max: nat)
    ensures var f := ReadString(s, max);
            f.code >= 0 ==>
              && f.code <= 2 && |f.text| < max && (forall k :: 0 <= k < |f.text| ==> Ordinary(f.text[k]))
              && s == f.text + ([TerminatorChar(f.code)] + f.rest)
  {
    if max > 0 && s != "" && Ordinary(s[0]) {
      FieldOnly(s[1..], max - 1);
      var g := ReadString(s[1..], max - 1);
      if g.code >= 0 {
        Assoc([s[0]], g.text, [TerminatorChar(g.code)] + g.rest);
        assert s == [s[0]] + s[1..];
      }
    }
  }

  // ---- one pair, from just after its opening parenthesis

  function PairBody(p: Pair): string { p.key + ("," + (p.value + ")")) }

  lemma PairRead(p: Pair, rest: string)
    requires PlainPair(p)
    ensures ParsePair(PairBody(p) + rest) == OnePair(p, rest)
  {
    var tail := p.value + (")" + rest);
    assert PairBody(p) + rest == p.key + ("," + tail);
    FieldRead(p.key, ',', tail);
    FieldRead(p.value, ')', rest);
  }

  lemma PairOnly(s: string)
    requires ParsePair(s).OnePair?
    ensures var r := ParsePair(s); PlainPair(r.pair) && s == PairBody(r.pair) + r.rest
  {
    var key := ReadString(s, MAX_STRING_SIZE);
    var value := ReadString(key.rest, MAX_STRING_SIZE);
    FieldOnly(s, MAX_STRING_SIZE);
    FieldOnly(key.rest, MAX_STRING_SIZE);
    assert key.text + ("," + (value.text + (")" + value.rest))) == PairBody(Pair(key.text, value.text)) + value.rest;
  }

  // ---- the list of pairs

  /** The text from just after "[(" to the closing bracket. */
  function PairsTail(ps: seq<Pair>): string
    requires ps != []
  {
    if |ps| == 1 then PairBody(ps[0]) + "]" else PairBody(ps[0]) + ("(" + PairsTail(ps[1..]))
  }

  predicate PlainPairs(ps: seq<Pair>) {
    forall i :: 0 <= i < |ps| ==> PlainPair(ps[i])
  }

  lemma PairTurnRead(p: Pair, c: char, rest: string)
    requires PlainPair(p) && (c == '(' || c == ']')
    ensures PairTurn(PairBody(p) + ([c] + rest)) == if c == ']' then Last(p, rest) else More(p, rest)
  {
    PairRead(p, [c] + rest);
  }

  lemma PairTurnOnly(s: string)
    requires !PairTurn(s).Broken?
    ensures var t := PairTurn(s);
            PlainPair(t.item) && s == PairBody(t.item) + ([if t.Last? then ']' else '('] + t.rest)
  {
    PairOnly(s);
    var r := ParsePair(s);
    assert r.rest == [r.rest[0]] + r.rest[1..];
  }

  lemma {:induction false} PairsRead(ps: seq<Pair>, rest: string, room: nat)
    requires ps != [] && |ps| < room && PlainPairs(ps)
    ensures PairLoop(PairsTail(ps) + rest, room) == Closed(ps, rest)
    decreases |ps|
  {
    if |ps| == 1 {
      Assoc(PairBody(ps[0]), "]", rest);
      PairTurnRead(ps[0], ']', rest);
      assert ps == [ps[0]];
    } else {
      var tail := PairsTail(ps[1..]) + rest;
      assert PairsTail(ps) + rest == PairBody(ps[0]) + (['('] + tail);
      PairTurnRead(ps[0], '(', tail);
      PairsRead(ps[1..], rest, room - 1);
      assert ps == [ps[0]] + ps[1..];
    }
  }

  lemma {:induction false} PairsOnly(s: string, room: nat)
    requires PairLoop(s, room).Closed?
    ensures var l := PairLoop(s, room);
            l.items != [] && |l.items| < room && PlainPairs(l.items) && s == PairsTail(l.items) + l.rest
    decreases room
  {
    var t := PairTurn(s);
    PairTurnOnly(s);
    if t.Last? {
      Assoc(PairBody(t.item), "]", t.rest);
    } else {
      PairsOnly(t.rest, room - 1);
      var l := PairLoop(t.rest, room - 1);
      assert ([t.item] + l.items)[1..] == l.items;
      assert PairBody(t.item) + (['('] + (PairsTail(l.items) + l.rest)) == (PairBody(t.item) + ("(" + PairsTail(l.items))) + l.rest;
    }
  }

  function PairText(p: Pair): string { "(" + PairBody(p) }

  function PairsText(ps: seq<Pair>): string {
    if ps == [] then "" else PairText(ps[0]) + PairsText(ps[1..])
  }

  /** A WRITE argument. */
  function WriteArgument(ps: seq<Pair>): string { "[" + (PairsText(ps) + "]") }

  lemma {:induction false} ArgumentTail(ps: seq<Pair>)
    requires ps != []
    ensures PairsText(ps) + "]" == "(" + PairsTail(ps)
  {
    if |ps| == 1 {
      assert PairsText(ps[1..]) == "";
    } else {
      ArgumentTail(ps[1..]);
      Assoc(PairText(ps[0]), PairsText(ps[1..]), "]");
    }
  }

  predicate EndsArgument(c: char) { c == '\n' || c == NUL }

  lemma WriteRead(ps: seq<Pair>, c: char, rest: string)
    requires ps != [] && |ps| < MAX_WRITE_SIZE && PlainPairs(ps) && EndsArgument(c)
    ensures ParseWrite(WriteArgument(ps) + ([c] + rest)) == Parsed(ps, rest)
  {
    ArgumentTail(ps);
    var tail := PairsTail(ps) + ([c] + rest);
    assert WriteArgument(ps) + ([c] + rest) == "[" + ("(" + tail);
    assert ("[" + ("(" + tail))[2..] == tail;
    PairsRead(ps, [c] + rest, MAX_WRITE_SIZE);
  }

  lemma ItemsArePlain(s: string)
    ensures var r := ParseWrite(s); |r.items| < MAX_WRITE_SIZE && PlainPairs(r.items)
  {
    if ParseWrite(s).items != [] {
      PairsOnly(s[2..], MAX_WRITE_SIZE);
    }
  }

  lemma FromTail(s: string, text: string, tail: string, rest: string)
    requires |s| >= 2 && s[0] == '[' && s[1] == '(' && s[2..] == tail + rest && text + "]" == "(" + tail
    ensures s == ("[" + (text + "]")) + rest
  {
    assert s == "[" + ("(" + s[2..]);
    Assoc("(", tail, rest);
    Assoc("[", "(" + tail, rest);
  }

  lemma WriteOnly(s: string) returns (c: char)
    requires ParseWrite(s).items != []
    ensures var r := ParseWrite(s);
            |r.items| < MAX_WRITE_SIZE && PlainPairs(r.items) && EndsArgument(c) && s == WriteArgument(r.items) + ([c] + r.rest)
  {
    var l := PairLoop(s[2..], MAX_WRITE_SIZE);
    PairsOnly(s[2..], MAX_WRITE_SIZE);
    ArgumentTail(l.items);
    c := l.rest[0];
    assert l.rest == [c] + l.rest[1..];
    FromTail(s, PairsText(l.items), PairsTail(l.items), l.rest);
  }

  /**
    The WRITE grammar, both ways: parse_write recognises the pairs `ps` and leaves `rest`
    exactly when there are 1 to 255 of them, their strings are plain, and the input is
    their printed argument, a line end and `rest`.
   */
  lemma WriteGrammar(s: string, ps: seq<Pair>, rest: string)
    requires ps != []
    ensures ParseWrite(s) == Parsed(ps, rest) <==>
            |ps| < MAX_WRITE_SIZE && PlainPairs(ps) && exists c :: EndsArgument(c) && s == WriteArgument(ps) + ([c] + rest)
  {
    if ParseWrite(s) == Parsed(ps, rest) {
      var c := WriteOnly(s);
    } else if |ps| < MAX_WRITE_SIZE && PlainPairs(ps) {
      forall c | EndsArgument(c) && s == WriteArgument(ps) + ([c] + rest) ensures false {
        WriteRead(ps, c, rest);
      }
    }
  }

  // ---- the list of keys

  function KeysTail(ks: seq<string>): string
    requires ks != []
  {
    if |ks| == 1 then ks[0] + "]" else ks[0] + ("," + KeysTail(ks[1..]))
  }

  predicate PlainKeys(ks: seq<string>) {
    forall i :: 0 <= i < |ks| ==> Plain(ks[i])
  }

  lemma {:induction false} KeysRead(ks: seq<string>, rest: string, room: nat)
    requires ks != [] && |ks| < room && PlainKeys(ks)
    ensures KeyLoop(KeysTail(ks) + rest, room) == Closed(ks, rest)
    decreases |ks|
  {
    if |ks| == 1 {
      Assoc(ks[0], "]", rest);
      FieldRead(ks[0], ']', rest);
      assert ks == [ks[0]];
    } else {
      var tail := KeysTail(ks[1..]) + rest;
      assert KeysTail(ks) + rest == ks[0] + ([','] + tail);
      FieldRead(ks[0], ',', tail);
      KeysRead(ks[1..], rest, room - 1);
      assert ks == [ks[0]] + ks[1..];
    }
  }

  lemma {:induction false} KeysOnly(s: string, room: nat)
    requires KeyLoop(s, room).Closed?
    ensures var l := KeyLoop(s, room);
            l.items != [] && |l.items| < room && PlainKeys(l.items) && s == KeysTail(l.items) + l.rest
    decreases room
  {
    var t := KeyTurn(s);
    FieldOnly(s, MAX_STRING_SIZE);
    if t.Last? {
      Assoc(t.item, "]", t.rest);
    } else {
      KeysOnly(t.rest, room - 1);
      var l := KeyLoop(t.rest, room - 1);
      assert ([t.item] + l.items)[1..] == l.items;
      assert t.item + ([','] + (KeysTail(l.items) + l.rest)) == (t.item + ("," + KeysTail(l.items))) + l.rest;
    }
  }

  /** A READ or DELETE argument. */
  function KeysArgument(ks: seq<string>): string
    requires ks != []
  {
    "[" + KeysTail(ks)
  }

  lemma KeysArgumentRead(ks: seq<string>, c: char, rest: string)
    requires ks != [] && |ks| < MAX_WRITE_SIZE && PlainKeys(ks) && EndsArgument(c)
    ensures ParseReadDelete(KeysArgument(ks) + ([c] + rest)) == Parsed(ks, rest)
  {
    var s := KeysArgument(ks) + ([c] + rest);
    assert s[1..] == KeysTail(ks) + ([c] + rest);
    KeysRead(ks, [c] + rest, MAX_WRITE_SIZE);
  }

  /** The grammar of READ and DELETE arguments, both ways. */
  lemma KeysGrammar(s: string, ks: seq<string>, rest: string)
    requires ks != []
    ensures ParseReadDelete(s) == Parsed(ks, rest) <==>
            |ks| < MAX_WRITE_SIZE && PlainKeys(ks) && exists c :: EndsArgument(c) && s == KeysArgument(ks) + ([c] + rest)
  {
    if ParseReadDelete(s) == Parsed(ks, rest) {
      var l := KeyLoop(s[1..], MAX_WRITE_SIZE);
      KeysOnly(s[1..], MAX_WRITE_SIZE);
      assert l.rest == [l.rest[0]] + rest && EndsArgument(l.rest[0]);
      assert s == "[" + s[1..];
      assert s == KeysArgument(ks) + ([l.rest[0]] + rest);
    }
    if |ks| < MAX_WRITE_SIZE && PlainKeys(ks) && exists c :: EndsArgument(c) && s == KeysArgument(ks) + ([c] + rest) {
      var c :| EndsArgument(c) && s == KeysArgument(ks) + ([c] + rest);
      KeysArgumentRead(ks, c, rest);
    }
  }
}
