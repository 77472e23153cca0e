/**
  SHOW and BACKUP: two walks over the same table, one printing with snprintf, the
  other with staged bounded copies because it runs in a forked child.
 */
module Rendering {
  import opened CStrings
  import opened Table
  import opened HashTables

  function Line(key: string, value: string): string { "(" + key + ", " + value + ")\n" }

  /** snprintf(aux, MAX_STRING_SIZE, "(%s, %s)\n", key, value). */
  function ShowLine(key: string, value: string): string { Clip(Line(key, value)) }

  function ShowLines(records: seq<Record>): string {
    if records == [] then ""
    else ShowLines(records[..|records| - 1]) + ShowLine(records[|records| - 1].key, records[|records| - 1].value)
  }

  /** Every binding of the table, bucket by bucket and along each chain. */
  function ShowText(t: Buckets): string { ShowLines(Flatten(t)) }

  /** One more record of a chain, one more line. */
  lemma ShowNext(before: seq<Record>, records: seq<Record>, j: nat)
    requires j < |records|
    ensures ShowLines(before + records[..j + 1]) == ShowLines(before + records[..j]) + ShowLine(records[j].key, records[j].value)
  {
    var all := before + records[..j + 1];
    assert all[..|all| - 1] == before + records[..j];
  }

  /** Copies at most `n` bytes of a C string, without its terminator. */
  method StrnMemcpy(dest: array<char>, at: nat, src: string, n: nat) returns (copied: nat)
    requires at + n <= dest.Length
    modifies dest
    ensures copied == if |CStr(src)| < n then |CStr(src)| else n
    ensures dest[..at + copied] == old(dest[..at]) + CStr(src)[..copied]
    ensures dest[at + copied..] == old(dest[at + copied..])
  {
    var text := CStr(src);
    copied := if |text| < n then |text| else n;
    forall i | 0 <= i < copied {
      dest[at + i] := text[i];
    }
  }

  /** A bounded copy into what is left of the buffer continues the clipped text. */
  lemma ClipExtend(s: string, x: string)
    ensures |Clip(s)| < MAX_STRING_SIZE
    ensures var room := MAX_STRING_SIZE - |Clip(s)| - 1;
            Clip(s) + x[..if |x| < room then |x| else room] == Clip(s + x)
  {}

  /** One staged copy: the room is never negative and never past the buffer. */
  method Stage(aux: array<char>, n: nat, src: string, ghost text: string) returns (m: nat)
    requires aux.Length == MAX_STRING_SIZE && NUL !in src
    requires n == |Clip(text)| && aux[..n] == Clip(text)
    modifies aux
    ensures m == |Clip(text + src)| < MAX_STRING_SIZE && aux[..m] == Clip(text + src)
  {
    ClipExtend(text, src);
    CStrOfNulFree(src, "");
    var copied := StrnMemcpy(aux, n, src, MAX_STRING_SIZE - n - 1);
    m := n + copied;
  }

  /** The terminator goes just after the copied bytes, and write_str stops there. */
  method TerminateAndRead(aux: array<char>, n: nat, ghost text: string) returns (read: string)
    requires n == |Clip(text)| < aux.Length == MAX_STRING_SIZE && aux[..n] == Clip(text) && NUL !in text
    modifies aux
    ensures read == Clip(text)
  {
    aux[n] := NUL;
    read := CStr(aux[..]);
    CStrOfNulFree(aux[..n], aux[n + 1..]);
    assert aux[..] == aux[..n] + [NUL] + aux[n + 1..];
  }

  /** The child's rendering of a record is byte for byte what SHOW prints for it. */
  method RenderRecord(key: string, value: string) returns (text: string)
    requires NUL !in key && NUL !in value
    ensures text == ShowLine(key, value)
  {
    var aux := new char[MAX_STRING_SIZE];
    aux[0] := '(';
    var numBytesCopied := 1;
    numBytesCopied := Stage(aux, numBytesCopied, key, "(");
    numBytesCopied := Stage(aux, numBytesCopied, ", ", "(" + key);
    numBytesCopied := Stage(aux, numBytesCopied, value, "(" + key + ", ");
    numBytesCopied := Stage(aux, numBytesCopied, ")\n", "(" + key + ", " + value);
    text := TerminateAndRead(aux, numBytesCopied, Line(key, value));
  }

  method ShowChain(head: KeyNode?, out: string,
                   ghost before: seq<Record>, ghost nodes: seq<KeyNode>, ghost records: Chain, ghost fp: set<object>)
    returns (newOut: string)
    requires IsChain(head, nodes, records, fp) && out == ShowLines(before)
    ensures newOut == ShowLines(before + records)
  {
    newOut := out;
    var keyNode := head;
    ghost var j := 0;
    assert before + records[..0] == before;
    while keyNode != null
      invariant j <= |nodes| && keyNode == if j < |nodes| then nodes[j] else null
      invariant newOut == ShowLines(before + records[..j])
      decreases |nodes| - j
    {
      assert nodes[j].Holds(records[j]);
      ShowNext(before, records, j);
      newOut := newOut + ShowLine(keyNode.key, keyNode.value);
      keyNode := keyNode.next;
      j := j + 1;
    }
    assert records[..j] == records;
  }

  method KvsShow(ht: HashTable) returns (out: string)
    requires ht.Valid()
    ensures out == ShowText(ht.model)
  {
    out := "";
    for i := 0 to TABLE_SIZE
      invariant out == ShowLines(Flatten(ht.model[..i]))
    {
      assert ht.Bucket(i, ht.table[i]);
      FlattenSnoc(ht.model[..i], ht.model[i]);
      assert ht.model[..i] + [ht.model[i]] == ht.model[..i + 1];
      out := ShowChain(ht.table[i], out, Flatten(ht.model[..i]), ht.chains[i], ht.model[i], ht.owned[i]);
    }
    assert ht.model[..TABLE_SIZE] == ht.model;
  }

  /** strdup'd keys and values hold no NUL. */
  ghost predicate NulFree(records: seq<Record>) {
    forall i :: 0 <= i < |records| ==> NUL !in records[i].key && NUL !in records[i].value
  }

  method BackupChain(head: KeyNode?, out: string,
                     ghost before: seq<Record>, ghost nodes: seq<KeyNode>, ghost records: Chain, ghost fp: set<object>)
    returns (newOut: string)
    requires IsChain(head, nodes, records, fp) && out == ShowLines(before) && NulFree(records)
    ensures newOut == ShowLines(before + records)
  {
    newOut := out;
    var keyNode := head;
    ghost var j := 0;
    assert before + records[..0] == before;
    while keyNode != null
      invariant IsChain(head, nodes, records, fp)
      invariant j <= |nodes| && keyNode == if j < |nodes| then nodes[j] else null
      invariant newOut == ShowLines(before + records[..j])
      decreases |nodes| - j
    {
      assert nodes[j].Holds(records[j]);
      ShowNext(before, records, j);
      var aux := RenderRecord(keyNode.key, keyNode.value);
      newOut := newOut + aux;
      keyNode := keyNode.next;
      j := j + 1;
    }
    assert records[..j] == records;
  }

  /** What the forked child writes: exactly SHOW's text of the table it was forked with. */
  method KvsBackup(ht: HashTable) returns (out: string)
    requires ht.Valid() && forall i :: 0 <= i < TABLE_SIZE ==> NulFree(ht.model[i])
    ensures out == ShowText(ht.model)
  {
    out := "";
    for i := 0 to TABLE_SIZE
      invariant ht.Valid()
      invariant out == ShowLines(Flatten(ht.model[..i]))
    {
      assert ht.Bucket(i, ht.table[i]);
      FlattenSnoc(ht.model[..i], ht.model[i]);
      assert ht.model[..i] + [ht.model[i]] == ht.model[..i + 1];
      out := BackupChain(ht.table[i], out, Flatten(ht.model[..i]), ht.chains[i], ht.model[i], ht.owned[i]);
    }
    assert ht.model[..TABLE_SIZE] == ht.model;
  }
}
