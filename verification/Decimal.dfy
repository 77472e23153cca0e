/** Numbers as text: write_uint of io.c prints what read_uint of parser.c reads. */
module Decimal {
  import opened CStrings
  import opened LinkedList
  import opened Parser

  const INT_MAX: nat := 0x7FFF_FFFF
  const BUFFER: nat := 16

  function DigitChar(d: nat): (c: char)
    requires d < 10
    ensures IsDigit(c) && DigitValue(c) == d
  {
    '0' + d as char
  }

  /** The canonical decimal of `v`. */
  function Text(v: nat): (t: string)
    ensures t != "" && forall c :: c in t ==> IsDigit(c)
  {
    if v < 10 then [DigitChar(v)] else Text(v / 10) + [DigitChar(v % 10)]
  }

  predicate Canonical(t: string) {
    t != "" && (forall c :: c in t ==> IsDigit(c)) && (t[0] == '0' ==> |t| == 1)
  }

  lemma {:induction false} TextIsCanonical(v: nat)
    ensures Canonical(Text(v)) && Number(Text(v)) == v
    ensures v > 0 ==> Text(v)[0] != '0'
  {
    if v < 10 {
      assert Text(v)[..0] == "";
      assert Number(Text(v)) == 10 * Number("") + v;
    } else {
      TextIsCanonical(v / 10);
      assert Text(v)[..|Text(v)| - 1] == Text(v / 10);
    }
  }

  lemma {:induction false} PositiveNumber(t: string)
    requires Canonical(t) && t[0] != '0'
    ensures Number(t) > 0
  {
    if |t| > 1 {
      PositiveNumber(t[..|t| - 1]);
    }
  }

  /** Every canonical text is the text of its number. */
  lemma {:induction false} CanonicalIsText(t: string)
    requires Canonical(t)
    ensures Text(Number(t)) == t
  {
    var last := t[|t| - 1];
    var front := t[..|t| - 1];
    assert last in t && DigitChar(DigitValue(last)) == last;
    if |t| == 1 {
      assert front == "" && t == [last];
    } else {
      assert Canonical(front);
      CanonicalIsText(front);
      PositiveNumber(front);
      assert Number(t) / 10 == Number(front) && Number(t) % 10 == DigitValue(last);
      assert t == front + [last];
    }
  }

  lemma DigitsOfText(v: nat, next: char, rest: string)
    requires !IsDigit(next)
    ensures Digits(Text(v) + ([next] + rest)) == Text(v)
  {
    var t := Text(v);
    var s := t + ([next] + rest);
    assert forall k :: 0 <= k < |t| ==> s[k] == t[k] && t[k] in t;
    assert s[|t|] == next && s[..|t|] == t;
    DigitsAt(s, |t|);
  }

  /** read_uint undoes the printing of every number it can hold, and refuses every greater one. */
  lemma ReadBack(v: nat, next: char, rest: string)
    requires !IsDigit(next)
    ensures ReadUInt(Text(v) + ([next] + rest)) == UInt(if v <= UINT_MAX then Some(v) else None, next, rest)
  {
    var s := Text(v) + ([next] + rest);
    TextIsCanonical(v);
    DigitsOfText(v, next, rest);
    assert s[|Text(v)|] == next && s[|Text(v)| + 1..] == rest;
  }

  function Pow10(n: nat): nat {
    if n == 0 then 1 else 10 * Pow10(n - 1)
  }

  lemma {:induction false} DigitCount(v: nat, n: nat)
    requires v < Pow10(n) && n > 0
    ensures |Text(v)| <= n
    decreases n
  {
    if v >= 10 {
      DigitCount(v / 10, n - 1);
    }
  }

  /** The digits of `v`, none for 0: what the loop of write_uint has yet to store. */
  function Pending(v: nat): string {
    if v == 0 then "" else Text(v)
  }

  lemma PendingStep(v: nat)
    requires v > 0
    ensures Pending(v) == Pending(v / 10) + [DigitChar(v % 10)]
  {}

  /** buffer[--i] = c */
  method StoreBefore(buffer: array<char>, i: nat, c: char) returns (j: nat)
    requires 0 < i <= buffer.Length
    modifies buffer
    ensures j == i - 1 && buffer[j..] == [c] + old(buffer[i..])
  {
    j := i - 1;
    buffer[j] := c;
  }

  lemma IntFitsBuffer(v: nat)
    requires v <= INT_MAX
    ensures |Pending(v)| <= 10
  {
    assert Pow10(5) == 100000;
    assert Pow10(10) == 10 * (10 * (10 * (10 * (10 * Pow10(5)))));
    DigitCount(v, 10);
  }

  /** write_uint: digits are stored from the back of a 16-byte buffer, which is never left. */
  method WriteUInt(value: int) returns (out: string)
    requires value <= INT_MAX
    ensures out == Text(if value > 0 then value else 0)
  {
    var buffer := new char[BUFFER];
    var i := BUFFER;
    var v := value;
    ghost var text := Pending(if value > 0 then value else 0);
    IntFitsBuffer(if value > 0 then value else 0);
    while v > 0
      invariant 0 <= i <= BUFFER && (value > 0 ==> v >= 0) && (value <= 0 ==> v == value)
      invariant text == Pending(if v > 0 then v else 0) + buffer[i..]
      decreases v
    {
      PendingStep(v);
      Assoc(Pending(v / 10), [DigitChar(v % 10)], buffer[i..]);
      i := StoreBefore(buffer, i, DigitChar(v % 10));
      v := v / 10;
    }
    assert text == buffer[i..];
    if i == BUFFER {
      i := StoreBefore(buffer, i, '0');
    }
    out := buffer[i..];
  }
}
