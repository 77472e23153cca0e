/** Sizes fixed by the headers, and the C string operations the server relies on. */
module CStrings {

  const MAX_STRING_SIZE: nat := 40
  const MAX_WRITE_SIZE: nat := 256
  const MAX_SESSION_COUNT: nat := 8
  const TABLE_SIZE: nat := 26

  datatype Option<+T> = None | Some(value: T)

  const NUL: char := '\0'

  /** The index of the first NUL from `i` on, or the length. */
  function NulAt(s: string, i: nat): (n: nat)
    requires i <= |s|
    ensures i <= n <= |s| && (n < |s| ==> s[n] == NUL)
    ensures forall k :: i <= k < n ==> s[k] != NUL
    decreases |s| - i
  {
    if i == |s| || s[i] == NUL then i else NulAt(s, i + 1)
  }

  /** What a C string function sees in a buffer: the bytes before the first NUL. */
  function CStr(s: string): (r: string)
    ensures NUL !in r
    ensures r <= s
    ensures |r| < |s| ==> s[|r|] == NUL
  {
    s[..NulAt(s, 0)]
  }

  lemma CStrOfNulFree(s: string, tail: string)
    requires NUL !in s
    ensures CStr(s) == s
    ensures CStr(s + [NUL] + tail) == s
  {
    var all := s + [NUL] + tail;
    assert all[|s|] == NUL;
    assert forall k :: 0 <= k < |s| ==> all[k] == s[k] && s[k] in s;
    assert NulAt(all, 0) == |s|;
    assert NulAt(s, 0) == |s|;
  }

  /** The text that snprintf(aux, MAX_STRING_SIZE, ...) leaves in aux. */
  function Clip(s: string): string {
    if |s| < MAX_STRING_SIZE then s else s[..MAX_STRING_SIZE - 1]
  }

  /** Several write_str calls on one descriptor, seen as one text. */
  function Join(parts: seq<string>): string {
    if parts == [] then "" else Join(parts[..|parts| - 1]) + parts[|parts| - 1]
  }

  lemma JoinSnoc(parts: seq<string>, part: string)
    ensures Join(parts + [part]) == Join(parts) + part
  {
    assert (parts + [part])[..|parts|] == parts;
  }

  lemma {:induction false} JoinAppend(a: seq<string>, b: seq<string>)
    ensures Join(a + b) == Join(a) + Join(b)
  {
    if b == [] {
      assert a + b == a;
    } else {
      var before, part := b[..|b| - 1], b[|b| - 1];
      JoinAppend(a, before);
      JoinSnoc(a + before, part);
      assert (a + before) + [part] == a + b;
      assert Join(a) + Join(before) + part == Join(a) + (Join(before) + part);
    }
  }

  lemma JoinCons(part: string, parts: seq<string>)
    ensures Join([part] + parts) == part + Join(parts)
  {
    JoinSnoc([], part);
    assert [] + [part] == [part];
    JoinAppend([part], parts);
  }

  /** Parts none of which is longer, and one of which is shorter, join to a shorter text. */
  lemma {:induction false} JoinCompare(a: seq<string>, b: seq<string>)
    requires |a| == |b| && forall i :: 0 <= i < |a| ==> a[i] == b[i] || |a[i]| < |b[i]|
    ensures if a == b then Join(a) == Join(b) else |Join(a)| < |Join(b)|
  {
    if a != [] {
      var n := |a| - 1;
      JoinCompare(a[..n], b[..n]);
      assert a == a[..n] + [a[n]] && b == b[..n] + [b[n]];
    }
  }

  /** An opening bracket before the first part, nothing when there is none. */
  function Opened(parts: seq<string>): string {
    if parts == [] then "" else "[" + Join(parts)
  }

  lemma OpenedSnoc(parts: seq<string>, part: string)
    ensures Opened(parts + [part]) == (if parts == [] then "[" else Opened(parts)) + part
  {
    JoinSnoc(parts, part);
  }
}
