/**
  read_all and write_all of common/io.c, over a pipe that moves as many bytes per call
  as it likes, is interrupted by signals and may fail.
 */
module Transfer {
  import opened CStrings

  /** What the next system call does: move up to `n` bytes (at least one), EINTR, or another error. */
  datatype Event = Moves(n: nat) | Interrupted | Fails

  function Moved(n: nat, room: nat): (k: nat)
    requires room > 0
    ensures 0 < k <= room
  {
    if n == 0 then 1 else if n < room then n else room
  }

  /** A pipe whose writers are done: reading it when it is empty is the end of file. */
  class Pipe {
    var bytes: string
    var outgoing: seq<Event>
    var incoming: seq<Event>

    constructor (outgoing: seq<Event>, incoming: seq<Event>)
      ensures bytes == "" && this.outgoing == outgoing && this.incoming == incoming
    {
      bytes, this.outgoing, this.incoming := "", outgoing, incoming;
    }

    /** write(2); once the events are used up everything moves at once. */
    method Write(data: string) returns (result: int, eintr: bool)
      requires data != ""
      modifies this
      ensures incoming == old(incoming) && outgoing == (if old(outgoing) == [] then [] else old(outgoing)[1..])
      ensures var e := if old(outgoing) == [] then Moves(|data|) else old(outgoing)[0];
              if e.Moves? then result == Moved(e.n, |data|) && bytes == old(bytes) + data[..result]
              else result == -1 && eintr == e.Interrupted? && bytes == old(bytes)
    {
      var e := if outgoing == [] then Moves(|data|) else outgoing[0];
      outgoing := if outgoing == [] then [] else outgoing[1..];
      result, eintr := -1, e.Interrupted?;
      if e.Moves? {
        result := Moved(e.n, |data|);
        bytes := bytes + data[..result];
      }
    }

    /** read(2) of at most `size` bytes. */
    method Read(size: nat) returns (result: int, eintr: bool, data: string)
      requires size > 0
      modifies this
      ensures outgoing == old(outgoing) && incoming == (if old(incoming) == [] then [] else old(incoming)[1..])
      ensures var e := if old(incoming) == [] then Moves(size) else old(incoming)[0];
              if e.Moves? then
                var room := if |old(bytes)| < size then |old(bytes)| else size;
                && result == (if room == 0 then 0 else Moved(e.n, room))
                && data == old(bytes)[..result] && bytes == old(bytes)[result..]
              else result == -1 && eintr == e.Interrupted? && data == "" && bytes == old(bytes)
    {
      var e := if incoming == [] then Moves(size) else incoming[0];
      incoming := if incoming == [] then [] else incoming[1..];
      result, eintr, data := -1, e.Interrupted?, "";
      if e.Moves? {
        var room := if |bytes| < size then |bytes| else size;
        result := if room == 0 then 0 else Moved(e.n, room);
        data, bytes := bytes[..result], bytes[result..];
      }
    }
  }

  /** The schedule lets `need` bytes out: it has moved them all before any failure. */
  predicate Completes(plan: seq<Event>, need: nat)
    decreases |plan|
  {
    if need == 0 || plan == [] then true
    else
      match plan[0]
      case Moves(n) => Completes(plan[1..], need - Moved(n, need))
      case Interrupted => Completes(plan[1..], need)
      case Fails => false
  }

  /** write_all: 1 exactly when the schedule completes; then the whole buffer went out, once and in order. */
  method WriteAll(fd: Pipe, buffer: string) returns (r: int)
    modifies fd
    ensures fd.incoming == old(fd.incoming)
    ensures r == if Completes(old(fd.outgoing), |buffer|) then 1 else -1
    ensures r == 1 ==> fd.bytes == old(fd.bytes) + buffer
    ensures r == -1 ==> exists k :: 0 <= k < |buffer| && fd.bytes == old(fd.bytes) + buffer[..k]
  {
    var bytesWritten := 0;
    while bytesWritten < |buffer|
      invariant bytesWritten <= |buffer| && fd.incoming == old(fd.incoming)
      invariant fd.bytes == old(fd.bytes) + buffer[..bytesWritten]
      invariant Completes(fd.outgoing, |buffer| - bytesWritten) == Completes(old(fd.outgoing), |buffer|)
      decreases |buffer| - bytesWritten, |fd.outgoing|
    {
      var result, eintr := fd.Write(buffer[bytesWritten..]);
      if result == -1 {
        if eintr {
          continue;
        }
        return -1;
      }
      assert buffer[bytesWritten..][..result] == buffer[bytesWritten..bytesWritten + result];
      bytesWritten := bytesWritten + result;
    }
    return 1;
  }

  /** How a read_all ends: its code, the bytes it took, how many events it used up, and whether it marked the caller's flag. */
  datatype Reading = Reading(code: int, taken: nat, used: nat, marked: bool)

  function Min(a: nat, b: nat): nat {
    if a < b then a else b
  }

  /** `need` bytes wanted of `avail`, after `got` others, by a caller that watches for signals or does not. */
  function Reads(plan: seq<Event>, need: nat, avail: nat, got: nat, watching: bool): (d: Reading)
    ensures d.taken <= need && d.taken <= avail && d.used <= |plan|
    decreases |plan|
  {
    if need == 0 then Reading(1, 0, 0, false)
    else if plan == [] then Reading(if avail >= need then 1 else 0, Min(need, avail), 0, false)
    else
      match plan[0]
      case Moves(n) =>
        if avail == 0 then Reading(0, 0, 1, false)
        else
          var k := Moved(n, Min(need, avail));
          var d := Reads(plan[1..], need - k, avail - k, got + k, watching);
          Reading(d.code, k + d.taken, d.used + 1, d.marked)
      case Interrupted =>
        if watching && got == 0 then Reading(-1, 0, 1, true)
        else
          var d := Reads(plan[1..], need, avail, got, watching);
          Reading(d.code, d.taken, d.used + 1, watching || d.marked)
      case Fails => Reading(-1, 0, 1, false)
  }

  /** 1 exactly for all the bytes; 0 only once the pipe is empty and the bytes are too few; -1 otherwise. */
  lemma {:induction false} ReadsMeaning(plan: seq<Event>, need: nat, avail: nat, got: nat, watching: bool)
    ensures var d := Reads(plan, need, avail, got, watching);
            && -1 <= d.code <= 1
            && (d.code == 1 <==> d.taken == need)
            && (d.code == 0 ==> d.taken == avail < need)
    decreases |plan|
  {
    if need > 0 && plan != [] {
      match plan[0]
      case Moves(n) =>
        if avail > 0 {
          var k := Moved(n, Min(need, avail));
          ReadsMeaning(plan[1..], need - k, avail - k, got + k, watching);
        }
      case Interrupted => ReadsMeaning(plan[1..], need, avail, got, watching);
      case Fails =>
    }
  }

  /** The event that ends a reading with -1: an error, or a signal that reaches a watching caller before the first byte. */
  predicate Breaks(e: Event, got: nat, watching: bool) {
    e.Fails? || (e.Interrupted? && watching && got == 0)
  }

  /** -1 exactly when the last event used up was such a one. */
  lemma {:induction false} BrokenExactly(plan: seq<Event>, need: nat, avail: nat, got: nat, watching: bool)
    ensures var d := Reads(plan, need, avail, got, watching);
            d.code == -1 <==> d.used > 0 && Breaks(plan[d.used - 1], got + d.taken, watching)
    decreases |plan|
  {
    if need > 0 && plan != [] {
      match plan[0]
      case Moves(n) =>
        if avail > 0 {
          var k := Moved(n, Min(need, avail));
          BrokenExactly(plan[1..], need - k, avail - k, got + k, watching);
        }
      case Interrupted => BrokenExactly(plan[1..], need, avail, got, watching);
      case Fails =>
    }
  }

  predicate Signalled(plan: seq<Event>, n: nat)
    requires n <= |plan|
  {
    exists i :: 0 <= i < n && plan[i].Interrupted?
  }

  lemma SignalledNext(plan: seq<Event>, n: nat)
    requires n < |plan|
    ensures Signalled(plan, n + 1) <==> plan[0].Interrupted? || Signalled(plan[1..], n)
  {
    if Signalled(plan[1..], n) {
      var i :| 0 <= i < n && plan[1..][i].Interrupted?;
      assert plan[i + 1].Interrupted?;
    }
    if Signalled(plan, n + 1) && !plan[0].Interrupted? {
      var i :| 0 <= i < n + 1 && plan[i].Interrupted?;
      assert plan[1..][i - 1].Interrupted?;
    }
  }

  /** The flag is marked exactly when one of the events used up was a signal and the caller watched. */
  lemma {:induction false} MarkedExactly(plan: seq<Event>, need: nat, avail: nat, got: nat, watching: bool)
    ensures var d := Reads(plan, need, avail, got, watching); d.marked <==> watching && Signalled(plan, d.used)
    decreases |plan|
  {
    if need > 0 && plan != [] {
      match plan[0]
      case Moves(n) =>
        SignalledNext(plan, 0);
        if avail > 0 {
          var k := Moved(n, Min(need, avail));
          MarkedExactly(plan[1..], need - k, avail - k, got + k, watching);
          SignalledNext(plan, Reads(plan[1..], need - k, avail - k, got + k, watching).used);
        }
      case Interrupted =>
        assert Signalled(plan, 1);
        MarkedExactly(plan[1..], need, avail, got, watching);
        SignalledNext(plan, Reads(plan[1..], need, avail, got, watching).used);
      case Fails => SignalledNext(plan, 0);
    }
  }

  predicate OnlyMoves(plan: seq<Event>) {
    forall i :: 0 <= i < |plan| ==> plan[i].Moves?
  }

  predicate NoFailure(plan: seq<Event>) {
    forall i :: 0 <= i < |plan| ==> !plan[i].Fails?
  }

  /** Short reads alone never make it fail: what decides is whether the bytes are there. */
  lemma {:induction false} ShortReads(plan: seq<Event>, need: nat, avail: nat, got: nat, watching: bool)
    requires OnlyMoves(plan)
    ensures var d := Reads(plan, need, avail, got, watching);
            && d.code == (if avail >= need then 1 else 0) && d.taken == (if avail >= need then need else avail) && !d.marked
    decreases |plan|
  {
    if need > 0 && plan != [] && avail > 0 {
      var k := Moved(plan[0].n, Min(need, avail));
      ShortReads(plan[1..], need - k, avail - k, got + k, watching);
    }
  }

  // ---- the loop, step by step

  /** What one read(2) may answer: nothing at the end of the file, some of the bytes, or -1. */
  predicate Answers(plan: seq<Event>, need: nat, avail: nat, result: int, eintr: bool)
    requires need > 0
  {
    if plan == [] || plan[0].Moves? then
      var room := Min(need, avail);
      result == if room == 0 then 0 else if plan == [] then room else Moved(plan[0].n, room)
    else result == -1 && eintr == plan[0].Interrupted?
  }

  /** The reading `d` goes on as `next` after `taken` bytes and `used` events. */
  predicate Resumes(d: Reading, next: Reading, taken: nat, used: nat, marked: bool) {
    d == Reading(next.code, taken + next.taken, used + next.used, marked || next.marked)
  }

  /** Whether the loop goes on after that answer. */
  predicate GoesOn(result: int, eintr: bool, got: nat, watching: bool) {
    result > 0 || (result == -1 && eintr && !(watching && got == 0))
  }

  lemma OneRead(plan: seq<Event>, need: nat, avail: nat, got: nat, watching: bool, result: int, eintr: bool)
    requires need > 0 && Answers(plan, need, avail, result, eintr)
    ensures var k, used := if result > 0 then result else 0, if plan == [] then 0 else 1;
            var d, marked := Reads(plan, need, avail, got, watching), watching && result == -1 && eintr;
            && k <= need && k <= avail
            && if GoesOn(result, eintr, got, watching) then
                 Resumes(d, Reads(plan[used..], need - k, avail - k, got + k, watching), k, used, marked)
               else d == Reading(result, 0, used, marked)
  {}

  method StoreAt(buffer: array<char>, at: nat, data: string, ghost source: string)
    requires at + |data| <= buffer.Length && at + |data| <= |source|
    requires buffer[..at] == source[..at] && data == source[at..at + |data|]
    modifies buffer
    ensures buffer[..at + |data|] == source[..at + |data|]
    ensures forall k :: at + |data| <= k < buffer.Length ==> buffer[k] == old(buffer[k])
  {
    forall i | 0 <= i < |data| {
      buffer[at + i] := data[i];
    }
  }

  /** One read(2) into the buffer at `at`, from a pipe that held `source` at first. */
  method ReadSome(fd: Pipe, buffer: array<char>, at: nat, size: nat, ghost source: string) returns (result: int, eintr: bool)
    requires at < size <= buffer.Length && at <= |source|
    requires fd.bytes == source[at..] && buffer[..at] == source[..at]
    modifies fd, buffer
    ensures fd.outgoing == old(fd.outgoing)
    ensures fd.incoming == old(fd.incoming)[if old(fd.incoming) == [] then 0 else 1..]
    ensures Answers(old(fd.incoming), size - at, |source| - at, result, eintr)
    ensures var now := if result == -1 then at else at + result;
            && at <= now <= |source| && now <= size && fd.bytes == source[now..] && buffer[..now] == source[..now]
            && forall k :: now <= k < buffer.Length ==> buffer[k] == old(buffer[k])
  {
    var data;
    result, eintr, data := fd.Read(size - at);
    if result > 0 {
      StoreAt(buffer, at, data, source);
    }
  }

  /** The body of read_all's loop: it ends the reading `d` with code `r`, or resumes it as `next`. */
  method ReadOnce(fd: Pipe, buffer: array<char>, at: nat, size: nat, watching: bool, ghost source: string, ghost d: Reading)
    returns (ended: bool, r: int, at': nat, marked: bool, ghost next: Reading, ghost used: nat)
    requires at < size <= buffer.Length && at <= |source|
    requires fd.bytes == source[at..] && buffer[..at] == source[..at]
    requires d == Reads(fd.incoming, size - at, |source| - at, at, watching)
    modifies fd, buffer
    ensures fd.outgoing == old(fd.outgoing)
    ensures used <= |old(fd.incoming)| && fd.incoming == old(fd.incoming)[used..]
    ensures at <= at' <= |source| && at' <= size && fd.bytes == source[at'..] && buffer[..at'] == source[..at']
    ensures forall k :: at' <= k < buffer.Length ==> buffer[k] == old(buffer[k])
    ensures ended ==> d == Reading(r, at' - at, used, marked)
    ensures !ended ==>
              && Resumes(d, next, at' - at, used, marked)
              && next == Reads(fd.incoming, size - at', |source| - at', at', watching)
              && (at' > at || |fd.incoming| < |old(fd.incoming)|)
  {
    ghost var plan, need, avail := fd.incoming, size - at, |source| - at;
    used := if plan == [] then 0 else 1;
    var result, eintr := ReadSome(fd, buffer, at, size, source);
    OneRead(plan, need, avail, at, watching, result, eintr);
    ended, r, at' := !GoesOn(result, eintr, at, watching), result, if result > 0 then at + result else at;
    marked := watching && result == -1 && eintr;
    next := Reads(fd.incoming, size - at', |source| - at', at', watching);
  }

  /**
    read_all: its code, the bytes taken and the flag are those of the schedule.  The
    bytes taken are the next ones and are at the front of the buffer, whatever it
    returns.  `intr` is the caller's flag (none for a NULL pointer); once set it stops
    every later call.
   */
  method ReadAll(fd: Pipe, buffer: array<char>, size: nat, intr: Option<bool>) returns (r: int, intr': Option<bool>, ghost taken: nat)
    requires size <= buffer.Length
    modifies fd, buffer
    ensures fd.outgoing == old(fd.outgoing)
    ensures taken <= size && taken <= |old(fd.bytes)|
    ensures fd.bytes == old(fd.bytes)[taken..] && buffer[..taken] == old(fd.bytes)[..taken]
    ensures forall k :: taken <= k < buffer.Length ==> buffer[k] == old(buffer[k])
    ensures intr == Some(true) ==> r == -1 && taken == 0 && intr' == intr && fd.incoming == old(fd.incoming)
    ensures intr != Some(true) ==>
              var d := Reads(old(fd.incoming), size, |old(fd.bytes)|, 0, intr.Some?);
              && r == d.code && taken == d.taken && fd.incoming == old(fd.incoming)[d.used..]
              && intr' == if d.marked then Some(true) else intr
  {
    taken, intr' := 0, intr;
    if intr == Some(true) {
      return -1, intr', taken;
    }
    var watching, bytesRead := intr.Some?, 0;
    ghost var source, plan := fd.bytes, fd.incoming;
    ghost var all := Reads(plan, size, |source|, 0, watching);
    ghost var d, at, marked := all, 0, false;
    while bytesRead < size
      invariant bytesRead <= size && bytesRead <= |source| && fd.outgoing == old(fd.outgoing)
      invariant fd.bytes == source[bytesRead..] && buffer[..bytesRead] == source[..bytesRead]
      invariant forall k :: bytesRead <= k < buffer.Length ==> buffer[k] == old(buffer[k])
      invariant 0 <= at <= |plan| && fd.incoming == plan[at..]
      invariant intr' == if marked then Some(true) else intr
      invariant d == Reads(fd.incoming, size - bytesRead, |source| - bytesRead, bytesRead, watching)
      invariant Resumes(all, d, bytesRead, at, marked)
      decreases size - bytesRead, |fd.incoming|
    {
      var ended, signal;
      ghost var used;
      ended, r, bytesRead, signal, d, used := ReadOnce(fd, buffer, bytesRead, size, watching, source, d);
      at, taken := at + used, bytesRead;
      if signal {
        intr', marked := Some(true), true;
      }
      if ended {
        return;
      }
    }
    return 1, intr', bytesRead;
  }

  /** One side after the other: a message sent whole and received whole is the same message, however both sides were cut up. */
  method Transmit(fd: Pipe, message: string, buffer: array<char>, intr: Option<bool>) returns (sent: int, received: int, intr': Option<bool>)
    requires fd.bytes == "" && |message| <= buffer.Length && intr != Some(true)
    modifies fd, buffer
    ensures sent == if Completes(old(fd.outgoing), |message|) then 1 else -1
    ensures sent == 1 ==> received == Reads(old(fd.incoming), |message|, |message|, 0, intr.Some?).code
    ensures sent == 1 && received == 1 ==> buffer[..|message|] == message && fd.bytes == ""
  {
    sent := WriteAll(fd, message);
    received, intr' := 0, intr;
    if sent == 1 {
      assert fd.bytes == message;
      ghost var taken;
      ReadsMeaning(fd.incoming, |message|, |message|, 0, intr.Some?);
      received, intr', taken := ReadAll(fd, buffer, |message|, intr);
    }
  }

  // ---- both sides at once: the calls of write_all and of read_all in any order

  datatype Side = Going | Complete | AtEof | Gone

  /** What has been written, what is in the pipe, and what has been read. */
  datatype Exchange = Exchange(sent: nat, pipe: string, received: string, writer: Side, reader: Side)

  datatype Call = WriteCall(e: Event) | ReadCall(e: Event)

  function Start(message: string): Exchange {
    var side := if message == "" then Complete else Going;
    Exchange(0, "", "", side, side)
  }

  /** Reading an empty pipe waits for as long as there is a writer. */
  predicate Enabled(x: Exchange, c: Call) {
    match c
    case WriteCall(_) => x.writer == Going
    case ReadCall(e) => x.reader == Going && (e.Moves? ==> x.pipe != "" || x.writer != Going)
  }

  function Written(message: string, x: Exchange, e: Event): Exchange {
    match e
    case Moves(n) =>
      if x.sent >= |message| then x.(writer := Complete)
      else
        var now := x.sent + Moved(n, |message| - x.sent);
        x.(sent := now, pipe := x.pipe + message[x.sent..now], writer := if now == |message| then Complete else Going)
    case Interrupted => x
    case Fails => x.(writer := Gone)
  }

  function Received(message: string, watching: bool, x: Exchange, e: Event): Exchange {
    match e
    case Moves(n) =>
      if x.pipe == "" || |x.received| >= |message| then x.(reader := AtEof)
      else
        var k := Moved(n, Min(|message| - |x.received|, |x.pipe|));
        x.(pipe := x.pipe[k..], received := x.received + x.pipe[..k],
           reader := if |x.received| + k == |message| then Complete else Going)
    case Interrupted => if watching && x.received == "" then x.(reader := Gone) else x
    case Fails => x.(reader := Gone)
  }

  function Apply(message: string, watching: bool, x: Exchange, c: Call): Exchange {
    match c
    case WriteCall(e) => Written(message, x, e)
    case ReadCall(e) => Received(message, watching, x, e)
  }

  function Exec(message: string, watching: bool, calls: seq<Call>): Option<Exchange> {
    if calls == [] then Some(Start(message))
    else
      var m := Exec(message, watching, calls[..|calls| - 1]);
      var c := calls[|calls| - 1];
      if m.Some? && Enabled(m.value, c) then Some(Apply(message, watching, m.value, c)) else None
  }

  ghost predicate InOrder(message: string, x: Exchange) {
    && x.sent <= |message| && x.received + x.pipe == message[..x.sent]
    && (x.writer == Complete ==> x.sent == |message|) && (x.writer == Going ==> x.sent < |message|)
    && (x.reader == Complete ==> |x.received| == |message|) && (x.reader == Going ==> |x.received| < |message|)
    && (x.reader == AtEof ==> x.pipe == "" && x.writer == Gone)
    && x.writer != AtEof
  }

  lemma CallKeeps(message: string, watching: bool, x: Exchange, c: Call)
    requires InOrder(message, x) && Enabled(x, c)
    ensures InOrder(message, Apply(message, watching, x, c))
  {
    var x' := Apply(message, watching, x, c);
    if c.WriteCall? {
      assert message[..x.sent] + message[x.sent..x'.sent] == message[..x'.sent];
    } else {
      assert x.received + x.pipe == x'.received + x'.pipe;
    }
  }

  /** A call that neither fails nor makes a watching reader give up. */
  predicate Benign(c: Call, watching: bool) {
    !c.e.Fails? && (c.ReadCall? && watching ==> !c.e.Interrupted?)
  }

  /**
    In any order of the two sides' calls what is read is always a prefix of the message,
    a reader that completes has read the message and left nothing, and it meets an end of
    file only if the writer failed.  Without errors, nor signals to a watching reader,
    neither side gives up.
   */
  lemma {:induction false} ExchangeIsExact(message: string, watching: bool, calls: seq<Call>)
    requires Exec(message, watching, calls).Some?
    ensures var x := Exec(message, watching, calls).value;
            && InOrder(message, x) && x.received <= message
            && (x.reader == Complete ==> x.received == message && x.pipe == "")
            && ((forall c :: c in calls ==> Benign(c, watching)) ==> x.writer != Gone && (x.reader == Going || x.reader == Complete))
  {
    if calls != [] {
      var before, c := calls[..|calls| - 1], calls[|calls| - 1];
      assert c in calls && forall d :: d in before ==> d in calls;
      ExchangeIsExact(message, watching, before);
      CallKeeps(message, watching, Exec(message, watching, before).value, c);
    }
    var x := Exec(message, watching, calls).value;
    assert x.received == message[..x.sent][..|x.received|];
  }

  /** As long as a side goes on, some call is possible, and each that moves bytes leaves fewer to move. */
  lemma ExchangeGoesOn(message: string, watching: bool, x: Exchange)
    requires InOrder(message, x) && (x.writer == Going || x.reader == Going)
    ensures exists c :: Enabled(x, c) && c.e == Moves(1)
    ensures forall c :: Enabled(x, c) && c.e.Moves? ==>
              var x' := Apply(message, watching, x, c);
              x'.reader == AtEof || (|message| - x'.sent) + (|message| - |x'.received|) < (|message| - x.sent) + (|message| - |x.received|)
  {
    assert Enabled(x, if x.writer == Going then WriteCall(Moves(1)) else ReadCall(Moves(1)));
  }
}
