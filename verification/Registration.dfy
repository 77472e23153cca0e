/**
  Registration frames: kvs_connect builds them, manages_register_fifo takes them apart
  and enqueues the three paths.

  Evident intent where the code slips: one frame size on both sides (122 bytes, the 121
  printed ones and their terminator), and the paths reach the queue under their names.
 */
module Registration {
  import opened CStrings
  import opened LinkedList
  import opened RegistrationQueues
  import opened Transfer

  const FRAME: nat := 122
  const OP_CODE_CONNECT: int := 1

  /** A path sprintf can pad and the server can find again. */
  predicate PathOk(p: string) {
    |p| <= FIELD && NUL !in p && ' ' !in p
  }

  predicate TripleOk(t: Triple) {
    PathOk(t.request) && PathOk(t.response) && PathOk(t.notification)
  }

  /** "%-40s" */
  function Pad(p: string): (r: string)
    ensures |p| <= FIELD ==> |r| == FIELD
  {
    if |p| < FIELD then p + seq(FIELD - |p|, _ => ' ') else p
  }

  /** The buffer kvs_connect writes. */
  function Frame(t: Triple): (f: string)
    ensures TripleOk(t) ==> |f| == FRAME
  {
    "1" + (Pad(t.request) + (Pad(t.response) + (Pad(t.notification) + [NUL])))
  }

  /** The server's loop over a field: a space becomes a terminator. */
  function Unpad(field: string): (r: string)
    ensures |r| == |field| && forall i :: 0 <= i < |r| ==> r[i] == if field[i] == ' ' then NUL else field[i]
  {
    seq(|field|, i requires 0 <= i < |field| => if field[i] == ' ' then NUL else field[i])
  }

  function OpCode(frame: string): int
    requires frame != ""
  {
    frame[0] as int - '0' as int
  }

  /** The three names, each in a 41-byte array whose last byte is its terminator. */
  function Decode(frame: string): Triple
    requires |frame| == FRAME
  {
    Triple(CStr(Unpad(frame[41..81]) + [NUL]), CStr(Unpad(frame[1..41]) + [NUL]), CStr(Unpad(frame[81..121]) + [NUL]))
  }

  /** The loop itself, on the server's 41-byte array. */
  method CopyField(buffer: array<char>, from: nat) returns (name: string)
    requires from + FIELD <= buffer.Length
    ensures name == CStr(Unpad(buffer[from..from + FIELD]) + [NUL])
  {
    var fifoName := new char[FIELD + 1](_ => NUL);
    forall i | 0 <= i < FIELD {
      fifoName[i] := buffer[from + i];
    }
    ghost var field := fifoName[..FIELD];
    for i := 0 to FIELD
      invariant fifoName[FIELD] == NUL
      invariant forall j :: 0 <= j < FIELD ==> fifoName[j] == if j < i && field[j] == ' ' then NUL else field[j]
    {
      if fifoName[i] == ' ' {
        fifoName[i] := NUL;
      }
    }
    assert field == buffer[from..from + FIELD];
    assert fifoName[..] == Unpad(field) + [NUL];
    name := CStr(fifoName[..]);
  }

  lemma UnpadPad(p: string)
    requires PathOk(p)
    ensures CStr(Unpad(Pad(p)) + [NUL]) == p
  {
    var field := Unpad(Pad(p)) + [NUL];
    assert forall i :: 0 <= i < |p| ==> p[i] in p && field[i] == p[i];
    assert field[..|p|] == p && field[|p|] == NUL;
    assert field == p + [NUL] + field[|p| + 1..];
    CStrOfNulFree(p, field[|p| + 1..]);
  }

  /** A frame decodes to the triple it was built from. */
  lemma FrameRoundTrip(t: Triple)
    requires TripleOk(t)
    ensures |Frame(t)| == FRAME && OpCode(Frame(t)) == OP_CODE_CONNECT && Decode(Frame(t)) == t
  {
    var f := Frame(t);
    assert f[1..41] == Pad(t.request);
    assert f[41..81] == Pad(t.response);
    assert f[81..121] == Pad(t.notification);
    UnpadPad(t.request);
    UnpadPad(t.response);
    UnpadPad(t.notification);
  }

  /** A path and the spaces that fill its field. */
  predicate InField(frame: string, from: nat, path: string)
    requires from + FIELD <= |frame|
  {
    forall k :: 0 <= k < FIELD ==> frame[from + k] == if k < |path| then path[k] else ' '
  }

  lemma PadFills(frame: string, from: nat, p: string)
    requires |p| <= FIELD && from + FIELD <= |frame| && frame[from..from + FIELD] == Pad(p)
    ensures InField(frame, from, p)
  {
    forall k | 0 <= k < FIELD ensures frame[from + k] == if k < |p| then p[k] else ' ' {
      assert frame[from..from + FIELD][k] == frame[from + k];
    }
  }

  /** On the wire: the operation, the request, response and notification paths in fields of 40 bytes, and a terminator. */
  lemma FrameLayout(t: Triple)
    requires TripleOk(t)
    ensures var f := Frame(t);
            && |f| == FRAME && f[0] == '1' && f[FRAME - 1] == NUL
            && InField(f, 1, t.request) && InField(f, 41, t.response) && InField(f, 81, t.notification)
  {
    var f := Frame(t);
    assert f[1..41] == Pad(t.request) && f[41..81] == Pad(t.response) && f[81..121] == Pad(t.notification);
    PadFills(f, 1, t.request);
    PadFills(f, 41, t.response);
    PadFills(f, 81, t.notification);
  }

  function Frames(ts: seq<Triple>): string {
    if ts == [] then "" else Frame(ts[0]) + Frames(ts[1..])
  }

  /** The server's reads: one frame after the other. */
  function DecodeAll(bytes: string): seq<Triple>
    decreases |bytes|
  {
    if |bytes| < FRAME then [] else [Decode(bytes[..FRAME])] + DecodeAll(bytes[FRAME..])
  }

  lemma FirstFrame(frame: string, rest: string)
    requires |frame| == FRAME
    ensures DecodeAll(frame + rest) == [Decode(frame)] + DecodeAll(rest)
  {
    assert (frame + rest)[..FRAME] == frame && (frame + rest)[FRAME..] == rest;
  }

  /** Registrations sent one after the other arrive as they were sent, in order. */
  lemma {:induction false} FramesRoundTrip(ts: seq<Triple>)
    requires forall i :: 0 <= i < |ts| ==> TripleOk(ts[i])
    ensures DecodeAll(Frames(ts)) == ts
  {
    if ts != [] {
      FrameRoundTrip(ts[0]);
      FramesRoundTrip(ts[1..]);
      FirstFrame(Frame(ts[0]), Frames(ts[1..]));
    }
  }

  function Names(t: Triple): Triple {
    Triple(CStr(t.response), CStr(t.request), CStr(t.notification))
  }

  predicate Terminated(t: Triple) { NUL in t.response && NUL in t.request && NUL in t.notification }

  /** From the client to the manager: the paths come out of the queue whole and terminated exactly when none fills its field. */
  lemma PathsSurvive(t: Triple)
    requires TripleOk(t)
    ensures Terminated(Stored(Decode(Frame(t)))) <==> |t.response| < FIELD && |t.request| < FIELD && |t.notification| < FIELD
    ensures Terminated(Stored(Decode(Frame(t)))) ==> Names(Stored(Stored(Decode(Frame(t))))) == t
  {
    FrameRoundTrip(t);
    CopiedTwice(t);
    FieldSurvives(t.response);
    FieldSurvives(t.request);
    FieldSurvives(t.notification);
  }

  // ---- the turns of manages_register_fifo

  /** What read_all brought: a frame, or an end of file or an error after some bytes of one. */
  datatype Turn = Got(frame: string) | EndOfFile(partial: string) | Error(partial: string)

  predicate TurnOk(turn: Turn) {
    match turn
    case Got(frame) => |frame| == FRAME
    case EndOfFile(partial) => |partial| < FRAME
    case Error(partial) => |partial| < FRAME
  }

  predicate TurnsOk(turns: seq<Turn>) {
    forall k :: 0 <= k < |turns| ==> TurnOk(turns[k])
  }

  /** The buffer after the turn: read_all overwrites it from the front. */
  function Buffer(buffer: string, turn: Turn): (r: string)
    requires |buffer| == FRAME && TurnOk(turn)
    ensures |r| == FRAME
  {
    match turn
    case Got(frame) => frame
    case EndOfFile(partial) => partial + buffer[|partial|..]
    case Error(partial) => partial + buffer[|partial|..]
  }

  function BufferAfter(buffer: string, turns: seq<Turn>): (r: string)
    requires |buffer| == FRAME && TurnsOk(turns)
    ensures |r| == FRAME
  {
    if turns == [] then buffer else Buffer(BufferAfter(buffer, turns[..|turns| - 1]), turns[|turns| - 1])
  }

  /** What a turn enqueues.  Only -1 skips it: an end of file decodes whatever the buffer holds `now`. */
  function Added(turn: Turn, now: string): seq<Triple>
    requires |now| == FRAME
  {
    if turn.Error? || OpCode(now) != OP_CODE_CONNECT then [] else [Decode(now)]
  }

  function Enqueued(buffer: string, turns: seq<Turn>): seq<Triple>
    requires |buffer| == FRAME && TurnsOk(turns)
  {
    if turns == [] then []
    else
      Enqueued(buffer, turns[..|turns| - 1]) + Added(turns[|turns| - 1], BufferAfter(buffer, turns))
  }

  /** The registrations that clients really sent. */
  function Sent(turns: seq<Turn>): seq<Triple>
    requires TurnsOk(turns)
  {
    if turns == [] then []
    else
      var before, turn := turns[..|turns| - 1], turns[|turns| - 1];
      assert TurnOk(turn);
      if turn.Got? && OpCode(turn.frame) == OP_CODE_CONNECT then Sent(before) + [Decode(turn.frame)] else Sent(before)
  }

  /** At no end of file does the buffer hold a connect request, old or half overwritten. */
  ghost predicate NoStaleConnect(buffer: string, turns: seq<Turn>)
    requires |buffer| == FRAME && TurnsOk(turns)
  {
    turns != [] ==>
      && NoStaleConnect(buffer, turns[..|turns| - 1])
      && (turns[|turns| - 1].EndOfFile? ==> OpCode(BufferAfter(buffer, turns)) != OP_CODE_CONNECT)
  }

  lemma {:induction false} AtLeastSent(buffer: string, turns: seq<Turn>)
    requires |buffer| == FRAME && TurnsOk(turns)
    ensures |Enqueued(buffer, turns)| >= |Sent(turns)|
    ensures if NoStaleConnect(buffer, turns) then Enqueued(buffer, turns) == Sent(turns) else |Enqueued(buffer, turns)| > |Sent(turns)|
  {
    if turns != [] {
      AtLeastSent(buffer, turns[..|turns| - 1]);
    }
  }

  /** The queue receives exactly the registrations that were sent if and only if no end of file finds a connect request in the buffer. */
  lemma EnqueuedIsSent(buffer: string, turns: seq<Turn>)
    requires |buffer| == FRAME && TurnsOk(turns)
    ensures Enqueued(buffer, turns) == Sent(turns) <==> NoStaleConnect(buffer, turns)
  {
    AtLeastSent(buffer, turns);
  }

  lemma SentSnoc(turns: seq<Turn>, turn: Turn)
    requires TurnOk(turn) && TurnsOk(turns)
    ensures Sent(turns + [turn]) == Sent(turns) + if turn.Got? && OpCode(turn.frame) == OP_CODE_CONNECT then [Decode(turn.frame)] else []
  {
    assert (turns + [turn])[..|turns|] == turns;
  }

  lemma EnqueuedSnoc(buffer: string, turns: seq<Turn>, turn: Turn)
    requires |buffer| == FRAME && TurnOk(turn) && TurnsOk(turns)
    ensures var now := Buffer(BufferAfter(buffer, turns), turn);
            && BufferAfter(buffer, turns + [turn]) == now
            && Enqueued(buffer, turns + [turn]) ==
               Enqueued(buffer, turns) + Added(turn, now)
  {
    assert (turns + [turn])[..|turns|] == turns;
  }

  lemma SentOnce(frame: string)
    requires |frame| == FRAME && OpCode(frame) == OP_CODE_CONNECT
    ensures Sent([Got(frame), EndOfFile("")]) == [Decode(frame)]
  {
    SentSnoc([], Got(frame));
    SentSnoc([Got(frame)], EndOfFile(""));
    assert [] + [Got(frame)] == [Got(frame)] && [Got(frame)] + [EndOfFile("")] == [Got(frame), EndOfFile("")];
  }

  /** An end of file that brings nothing leaves the buffer, and enqueues what it holds. */
  lemma EndKeepsBuffer(buffer: string)
    requires |buffer| == FRAME
    ensures Buffer(buffer, EndOfFile("")) == buffer
  {
    assert "" + buffer[0..] == buffer;
  }

  lemma EnqueuedOnce(buffer: string, frame: string)
    requires |buffer| == FRAME == |frame| && OpCode(frame) == OP_CODE_CONNECT
    ensures TurnsOk([Got(frame)]) && BufferAfter(buffer, [Got(frame)]) == frame
    ensures Enqueued(buffer, [Got(frame)]) == [Decode(frame)]
  {
    var turns := [Got(frame)];
    assert turns[..0] == [];
    assert BufferAfter(buffer, turns) == frame;
    assert Enqueued(buffer, turns) == [] + Added(turns[0], frame);
  }

  /** One end of file later. */
  lemma EnqueuedOnceMore(buffer: string, turns: seq<Turn>)
    requires |buffer| == FRAME && TurnsOk(turns) && OpCode(BufferAfter(buffer, turns)) == OP_CODE_CONNECT
    ensures Enqueued(buffer, turns + [EndOfFile("")]) == Enqueued(buffer, turns) + [Decode(BufferAfter(buffer, turns))]
  {
    EndKeepsBuffer(BufferAfter(buffer, turns));
    EnqueuedSnoc(buffer, turns, EndOfFile(""));
  }

  lemma EnqueuedAgain(buffer: string, frame: string)
    requires |buffer| == FRAME == |frame| && OpCode(frame) == OP_CODE_CONNECT
    ensures Enqueued(buffer, [Got(frame), EndOfFile("")]) == [Decode(frame), Decode(frame)]
  {
    EnqueuedOnce(buffer, frame);
    EnqueuedOnceMore(buffer, [Got(frame)]);
    assert [Got(frame)] + [EndOfFile("")] == [Got(frame), EndOfFile("")];
  }

  /** The failing input: a client registers and closes the pipe; the end of file registers it again. */
  lemma RegisteredTwice(buffer: string, t: Triple)
    requires |buffer| == FRAME && TripleOk(t)
    ensures Sent([Got(Frame(t)), EndOfFile("")]) == [t]
    ensures Enqueued(buffer, [Got(Frame(t)), EndOfFile("")]) == [t, t]
  {
    FrameRoundTrip(t);
    SentOnce(Frame(t));
    EnqueuedAgain(buffer, Frame(t));
  }

  // ---- where the turns come from

  /** The pipe's unread bytes, what its system calls will do, and the interrupt flag. */
  datatype Input = Input(bytes: string, plan: seq<Event>, intr: Option<bool>)

  /** How read_all ends on it; with the flag set it does not even start. */
  function ReadingOf(i: Input): (d: Reading)
    ensures d.taken <= FRAME && d.taken <= |i.bytes| && d.used <= |i.plan|
  {
    if i.intr == Some(true) then Reading(-1, 0, 0, false) else Reads(i.plan, FRAME, |i.bytes|, 0, i.intr.Some?)
  }

  /** The turn that follows from it. */
  function TurnOf(i: Input): (turn: Turn)
    ensures TurnOk(turn)
  {
    var d := ReadingOf(i);
    ReadsMeaning(i.plan, FRAME, |i.bytes|, 0, i.intr.Some?);
    if d.code == 1 then Got(i.bytes[..d.taken])
    else if d.code == 0 then EndOfFile(i.bytes[..d.taken])
    else Error(i.bytes[..d.taken])
  }

  function InputAfter(i: Input): Input {
    var d := ReadingOf(i);
    Input(i.bytes[d.taken..], i.plan[d.used..], if d.marked then Some(true) else i.intr)
  }

  lemma CodeOfTurn(i: Input)
    ensures ReadingOf(i).code == if TurnOf(i).Got? then 1 else if TurnOf(i).EndOfFile? then 0 else -1
    ensures TurnOf(i).EndOfFile? ==> InputAfter(i).bytes == ""
  {
    ReadsMeaning(i.plan, FRAME, |i.bytes|, 0, i.intr.Some?);
  }

  /** Short reads alone: a frame as long as there is one, the end of file otherwise. */
  lemma ShortReadTurn(i: Input)
    requires OnlyMoves(i.plan) && i.intr != Some(true)
    ensures TurnOf(i) == if |i.bytes| >= FRAME then Got(i.bytes[..FRAME]) else EndOfFile(i.bytes)
    ensures InputAfter(i).bytes == if |i.bytes| >= FRAME then i.bytes[FRAME..] else ""
    ensures OnlyMoves(InputAfter(i).plan) && InputAfter(i).intr == i.intr
  {
    ShortReads(i.plan, FRAME, |i.bytes|, 0, i.intr.Some?);
  }

  /** Before a turn clients have written some more, and its system calls will do as planned. */
  datatype Visit = Visit(written: string, plan: seq<Event>)

  function Visited(i: Input, v: Visit): Input {
    Input(i.bytes + v.written, v.plan, i.intr)
  }

  function InputAfterAll(i: Input, visits: seq<Visit>): Input {
    if visits == [] then i
    else InputAfter(Visited(InputAfterAll(i, visits[..|visits| - 1]), visits[|visits| - 1]))
  }

  /** The turns of the registration thread, whatever clients write and the system does. */
  function TurnsOf(i: Input, visits: seq<Visit>): (turns: seq<Turn>)
    ensures |turns| == |visits| && TurnsOk(turns)
  {
    if visits == [] then []
    else
      var before := visits[..|visits| - 1];
      TurnsOf(i, before) + [TurnOf(Visited(InputAfterAll(i, before), visits[|visits| - 1]))]
  }

  /** The frames that clients wrote before each turn. */
  function AllFrames(groups: seq<seq<Triple>>): seq<Triple> {
    if groups == [] then [] else AllFrames(groups[..|groups| - 1]) + groups[|groups| - 1]
  }

  lemma {:induction false} FramesAppend(a: seq<Triple>, b: seq<Triple>)
    ensures Frames(a + b) == Frames(a) + Frames(b)
  {
    if a == [] {
      assert a + b == b;
    } else {
      assert (a + b)[1..] == a[1..] + b;
      FramesAppend(a[1..], b);
    }
  }

  predicate AllOk(ts: seq<Triple>) {
    forall k :: 0 <= k < |ts| ==> TripleOk(ts[k])
  }

  lemma {:induction false} FramesLength(ts: seq<Triple>)
    requires AllOk(ts)
    ensures |Frames(ts)| == FRAME * |ts|
  {
    if ts != [] {
      FramesLength(ts[1..]);
    }
  }

  /** The reading fails after it has taken some bytes of a frame. */
  predicate BreaksFrame(i: Input) {
    var d := ReadingOf(i);
    d.taken > 0 && d.used > 0 && i.plan[d.used - 1].Fails?
  }

  /** Only then does a turn keep bytes that are no frame and go on. */
  lemma BreaksFrameIs(i: Input)
    ensures TurnOf(i).Error? && TurnOf(i).partial != "" <==> BreaksFrame(i)
  {
    if i.intr != Some(true) {
      ReadsMeaning(i.plan, FRAME, |i.bytes|, 0, i.intr.Some?);
      BrokenExactly(i.plan, FRAME, |i.bytes|, 0, i.intr.Some?);
    }
  }

  /** What a turn does to the waiting frames `ts`: it gets the first, finds the end of the file, or leaves them alone. */
  predicate TakesFirst(ts: seq<Triple>, turn: Turn, left: seq<Triple>) {
    match turn
    case Got(frame) =>
      && ts != [] && |frame| == FRAME && OpCode(frame) == OP_CODE_CONNECT && Decode(frame) == ts[0]
      && left == ts[1..]
    case EndOfFile(partial) => partial == "" && ts == [] == left
    case Error(partial) => partial == "" && left == ts
  }

  /** Which of the three, and what it takes from the pipe. */
  lemma KindOfTurn(i: Input, ts: seq<Triple>)
    requires AllOk(ts) && i.bytes == Frames(ts) && !BreaksFrame(i)
    ensures ts == [] ==> !TurnOf(i).Got?
    ensures var turn, next := TurnOf(i), InputAfter(i).bytes;
            match turn
            case Got(frame) => |i.bytes| >= FRAME && frame == i.bytes[..FRAME] && next == i.bytes[FRAME..]
            case EndOfFile(partial) => partial == "" && ts == [] && next == i.bytes
            case Error(partial) => partial == "" && next == i.bytes
  {
    FramesLength(ts);
    BreaksFrameIs(i);
    CodeOfTurn(i);
    if i.intr != Some(true) {
      ReadsMeaning(i.plan, FRAME, |i.bytes|, 0, i.intr.Some?);
    }
  }

  lemma FirstOfFrames(ts: seq<Triple>)
    requires AllOk(ts) && ts != []
    ensures var f := Frames(ts)[..FRAME];
            && |f| == FRAME && OpCode(f) == OP_CODE_CONNECT && Decode(f) == ts[0] && Frames(ts)[FRAME..] == Frames(ts[1..])
  {
    FrameRoundTrip(ts[0]);
    assert Frames(ts)[..FRAME] == Frame(ts[0]) && Frames(ts)[FRAME..] == Frames(ts[1..]);
  }

  lemma TurnOverFrames(i: Input, ts: seq<Triple>) returns (left: seq<Triple>)
    requires AllOk(ts) && i.bytes == Frames(ts) && !BreaksFrame(i)
    ensures TakesFirst(ts, TurnOf(i), left)
    ensures InputAfter(i).bytes == Frames(left) && AllOk(left)
  {
    KindOfTurn(i, ts);
    left := ts;
    if TurnOf(i).Got? {
      left := ts[1..];
      FirstOfFrames(ts);
    }
  }

  lemma SentMore(turns: seq<Turn>, turn: Turn, ts: seq<Triple>, left: seq<Triple>)
    requires TurnsOk(turns) && TurnOk(turn) && AllOk(ts) && TakesFirst(ts, turn, left)
    ensures TurnsOk(turns + [turn]) && Sent(turns + [turn]) + left == Sent(turns) + ts
  {
    SentSnoc(turns, turn);
    if turn.Got? {
      assert [ts[0]] + left == ts;
      Assoc(Sent(turns), [ts[0]], left);
    }
  }

  // ---- what a run keeps of the registrations

  const NOTHING := Input("", [], Some(false))

  /** Before each turn clients write whole frames. */
  ghost predicate WholeFrames(visits: seq<Visit>, groups: seq<seq<Triple>>) {
    |visits| == |groups| && forall k :: 0 <= k < |visits| ==> AllOk(groups[k]) && visits[k].written == Frames(groups[k])
  }

  /** The frames `left` wait in the pipe, and with those got they are the ones clients wrote, in order, each once. */
  ghost predicate Conserved(visits: seq<Visit>, groups: seq<seq<Triple>>, left: seq<Triple>) {
    && InputAfterAll(NOTHING, visits).bytes == Frames(left) && AllOk(left)
    && Sent(TurnsOf(NOTHING, visits)) + left == AllFrames(groups)
  }

  /** No turn of the run fails in the middle of a frame. */
  ghost predicate NoFrameBroken(i: Input, visits: seq<Visit>) {
    visits != [] ==>
      var before := visits[..|visits| - 1];
      NoFrameBroken(i, before) && !BreaksFrame(Visited(InputAfterAll(i, before), visits[|visits| - 1]))
  }

  lemma {:induction false} WholeFramesAreKept(visits: seq<Visit>, groups: seq<seq<Triple>>) returns (left: seq<Triple>)
    requires WholeFrames(visits, groups) && NoFrameBroken(NOTHING, visits)
    ensures Conserved(visits, groups, left)
  {
    left := [];
    if visits != [] {
      var n := |visits| - 1;
      var before := visits[..n];
      var waiting := WholeFramesAreKept(before, groups[..n]);
      var i := Visited(InputAfterAll(NOTHING, before), visits[n]);
      FramesAppend(waiting, groups[n]);
      left := TurnOverFrames(i, waiting + groups[n]);
      SentMore(TurnsOf(NOTHING, before), TurnOf(i), waiting + groups[n], left);
      Assoc(Sent(TurnsOf(NOTHING, before)), waiting, groups[n]);
    }
  }

  /** The bytes a turn takes from the pipe. */
  function Weight(turn: Turn): nat {
    match turn
    case Got(frame) => |frame|
    case EndOfFile(partial) => |partial|
    case Error(partial) => |partial|
  }

  function Weights(turns: seq<Turn>): nat {
    if turns == [] then 0 else Weights(turns[..|turns| - 1]) + Weight(turns[|turns| - 1])
  }

  lemma TurnWeighs(i: Input)
    ensures |InputAfter(i).bytes| + Weight(TurnOf(i)) == |i.bytes|
  {}

  /** What was written is in the pipe or was taken from it. */
  lemma {:induction false} BytesAreKept(visits: seq<Visit>, groups: seq<seq<Triple>>)
    requires WholeFrames(visits, groups)
    ensures |InputAfterAll(NOTHING, visits).bytes| + Weights(TurnsOf(NOTHING, visits)) == FRAME * |AllFrames(groups)|
  {
    if visits != [] {
      var n := |visits| - 1;
      BytesAreKept(visits[..n], groups[..n]);
      FramesLength(groups[n]);
      TurnWeighs(Visited(InputAfterAll(NOTHING, visits[..n]), visits[n]));
    }
  }

  /** A registration weighs a frame, and a broken frame weighs something without being one. */
  lemma {:induction false} SentWeighs(i: Input, visits: seq<Visit>)
    ensures Weights(TurnsOf(i, visits)) >= FRAME * |Sent(TurnsOf(i, visits))|
    ensures !NoFrameBroken(i, visits) ==> Weights(TurnsOf(i, visits)) > FRAME * |Sent(TurnsOf(i, visits))|
  {
    if visits != [] {
      var before := visits[..|visits| - 1];
      var x := Visited(InputAfterAll(i, before), visits[|visits| - 1]);
      SentWeighs(i, before);
      SentSnoc(TurnsOf(i, before), TurnOf(x));
      BreaksFrameIs(x);
    }
  }

  lemma KeptIsUnbroken(visits: seq<Visit>, groups: seq<seq<Triple>>, left: seq<Triple>)
    requires WholeFrames(visits, groups) && Conserved(visits, groups, left)
    ensures NoFrameBroken(NOTHING, visits)
  {
    assert |AllFrames(groups)| == |Sent(TurnsOf(NOTHING, visits))| + |left|;
    BytesAreKept(visits, groups);
    FramesLength(left);
    SentWeighs(NOTHING, visits);
  }

  /**
    Conservation, exactly: when clients write whole frames, the registrations got turn by
    turn and those still in the pipe are the ones clients wrote, in order, each once, if
    and only if no turn failed after some bytes of a frame - however reads are cut short
    and whatever signals come.
   */
  lemma LostExactly(visits: seq<Visit>, groups: seq<seq<Triple>>)
    requires WholeFrames(visits, groups)
    ensures (exists left :: Conserved(visits, groups, left)) <==> NoFrameBroken(NOTHING, visits)
  {
    if NoFrameBroken(NOTHING, visits) {
      var left := WholeFramesAreKept(visits, groups);
    }
    forall left | Conserved(visits, groups, left) ensures NoFrameBroken(NOTHING, visits) {
      KeptIsUnbroken(visits, groups, left);
    }
  }

  lemma {:induction false} NoFailureBreaksNone(i: Input, visits: seq<Visit>)
    requires forall k :: 0 <= k < |visits| ==> NoFailure(visits[k].plan)
    ensures NoFrameBroken(i, visits)
  {
    if visits != [] {
      var n := |visits| - 1;
      assert forall k :: 0 <= k < n ==> visits[..n][k] == visits[k];
      NoFailureBreaksNone(i, visits[..n]);
    }
  }

  /** Short reads and signals alone lose nothing. */
  lemma NothingIsLost(visits: seq<Visit>, groups: seq<seq<Triple>>) returns (left: seq<Triple>)
    requires WholeFrames(visits, groups) && forall k :: 0 <= k < |visits| ==> NoFailure(visits[k].plan)
    ensures Conserved(visits, groups, left)
  {
    NoFailureBreaksNone(NOTHING, visits);
    left := WholeFramesAreKept(visits, groups);
  }

  // ---- what a signal costs

  /** One of the system calls of the turn was interrupted. */
  predicate Reached(i: Input) { Signalled(i.plan, ReadingOf(i).used) }

  lemma FlagAfterTurn(i: Input)
    requires i.intr.Some?
    ensures InputAfter(i).intr == Some(i.intr.value || Reached(i))
  {
    MarkedExactly(i.plan, FRAME, |i.bytes|, 0, true);
  }

  ghost predicate SomeReached(i: Input, visits: seq<Visit>) {
    visits != [] &&
    var before := visits[..|visits| - 1];
    SomeReached(i, before) || Reached(Visited(InputAfterAll(i, before), visits[|visits| - 1]))
  }

  /** After a run the flag is set exactly when a signal reached one of its calls. */
  lemma {:induction false} FlagExactly(i: Input, visits: seq<Visit>)
    requires i.intr == Some(false)
    ensures InputAfterAll(i, visits).intr == Some(SomeReached(i, visits))
  {
    if visits != [] {
      var before := visits[..|visits| - 1];
      FlagExactly(i, before);
      FlagAfterTurn(Visited(InputAfterAll(i, before), visits[|visits| - 1]));
    }
  }

  function WrittenBy(visits: seq<Visit>): string {
    if visits == [] then "" else WrittenBy(visits[..|visits| - 1]) + visits[|visits| - 1].written
  }

  /** Turns that read nothing and report an error. */
  function Errors(n: nat): (turns: seq<Turn>)
    ensures |turns| == n
  {
    if n == 0 then [] else Errors(n - 1) + [Error("")]
  }

  lemma TurnUnderFlag(i: Input)
    requires i.intr == Some(true)
    ensures TurnOf(i) == Error("") && InputAfter(i).bytes == i.bytes && InputAfter(i).intr == Some(true)
  {}

  lemma {:induction false} PipeUnderFlag(i: Input, visits: seq<Visit>)
    requires i.intr == Some(true)
    ensures InputAfterAll(i, visits).intr == Some(true) && InputAfterAll(i, visits).bytes == i.bytes + WrittenBy(visits)
  {
    if visits != [] {
      var before, v := visits[..|visits| - 1], visits[|visits| - 1];
      PipeUnderFlag(i, before);
      TurnUnderFlag(Visited(InputAfterAll(i, before), v));
      Assoc(i.bytes, WrittenBy(before), v.written);
    }
  }

  lemma OneMoreError(n: nat)
    ensures Errors(n + 1) == Errors(n) + [Error("")]
  {}

  lemma OneMoreTurn(i: Input, visits: seq<Visit>, n: nat)
    requires n < |visits|
    ensures TurnsOf(i, visits[..n + 1]) == TurnsOf(i, visits[..n]) + [TurnOf(Visited(InputAfterAll(i, visits[..n]), visits[n]))]
  {
    assert visits[..n + 1][..n] == visits[..n];
  }

  lemma NextTurnUnderFlag(i: Input, visits: seq<Visit>, n: nat)
    requires i.intr == Some(true) && n < |visits|
    ensures TurnsOf(i, visits[..n + 1]) == TurnsOf(i, visits[..n]) + [Error("")]
  {
    PipeUnderFlag(i, visits[..n]);
    TurnUnderFlag(Visited(InputAfterAll(i, visits[..n]), visits[n]));
    OneMoreTurn(i, visits, n);
  }

  /** With the flag set no turn reads anything: what clients write stays in the pipe. */
  lemma TurnsUnderFlag(i: Input, visits: seq<Visit>)
    requires i.intr == Some(true)
    ensures TurnsOf(i, visits) == Errors(|visits|)
  {
    for n := 0 to |visits|
      invariant TurnsOf(i, visits[..n]) == Errors(n)
    {
      NextTurnUnderFlag(i, visits, n);
      OneMoreError(n);
    }
    assert visits[..|visits|] == visits;
  }

  lemma LastOfAppend<T>(a: seq<T>, b: seq<T>)
    requires b != []
    ensures (a + b)[..|a + b| - 1] == a + b[..|b| - 1] && (a + b)[|a + b| - 1] == b[|b| - 1]
  {}

  lemma {:induction false} InputAppend(i: Input, a: seq<Visit>, b: seq<Visit>)
    ensures InputAfterAll(i, a + b) == InputAfterAll(InputAfterAll(i, a), b)
  {
    if b == [] {
      assert a + b == a;
    } else {
      InputAppend(i, a, b[..|b| - 1]);
      LastOfAppend(a, b);
    }
  }

  lemma {:induction false} TurnsAppend(i: Input, a: seq<Visit>, b: seq<Visit>)
    ensures TurnsOf(i, a + b) == TurnsOf(i, a) + TurnsOf(InputAfterAll(i, a), b)
  {
    if b == [] {
      assert a + b == a;
    } else {
      var before, v := b[..|b| - 1], b[|b| - 1];
      TurnsAppend(i, a, before);
      InputAppend(i, a, before);
      LastOfAppend(a, b);
      Assoc(TurnsOf(i, a), TurnsOf(InputAfterAll(i, a), before), [TurnOf(Visited(InputAfterAll(i, a + before), v))]);
    }
  }

  lemma ErrorAddsNothing(buffer: string, turns: seq<Turn>)
    requires |buffer| == FRAME && TurnsOk(turns)
    ensures TurnsOk(turns + [Error("")])
    ensures Sent(turns + [Error("")]) == Sent(turns) && Enqueued(buffer, turns + [Error("")]) == Enqueued(buffer, turns)
  {
    EnqueuedSnoc(buffer, turns, Error(""));
    SentSnoc(turns, Error(""));
  }

  lemma ErrorsAddNothing(buffer: string, turns: seq<Turn>, n: nat)
    requires |buffer| == FRAME && TurnsOk(turns)
    ensures TurnsOk(turns + Errors(n))
    ensures Sent(turns + Errors(n)) == Sent(turns) && Enqueued(buffer, turns + Errors(n)) == Enqueued(buffer, turns)
  {
    assert turns + Errors(0) == turns;
    for k := 0 to n
      invariant TurnsOk(turns + Errors(k))
      invariant Sent(turns + Errors(k)) == Sent(turns) && Enqueued(buffer, turns + Errors(k)) == Enqueued(buffer, turns)
    {
      ErrorAddsNothing(buffer, turns + Errors(k));
      OneMoreError(k);
      Assoc(turns, Errors(k), [Error("")]);
    }
  }

  /**
    The cost of a signal: once one has reached a call of read_all, no later turn gets a
    frame or enqueues anything, and all that is in the pipe and all that clients still
    write stays there.
   */
  lemma SignalEndsRegistration(i: Input, buffer: string, visits: seq<Visit>, later: seq<Visit>)
    requires i.intr == Some(false) && |buffer| == FRAME && SomeReached(i, visits)
    ensures TurnsOf(i, visits + later) == TurnsOf(i, visits) + Errors(|later|)
    ensures Sent(TurnsOf(i, visits + later)) == Sent(TurnsOf(i, visits))
    ensures Enqueued(buffer, TurnsOf(i, visits + later)) == Enqueued(buffer, TurnsOf(i, visits))
    ensures InputAfterAll(i, visits + later).bytes == InputAfterAll(i, visits).bytes + WrittenBy(later)
  {
    FlagExactly(i, visits);
    InputAppend(i, visits, later);
    TurnsAppend(i, visits, later);
    TurnsUnderFlag(InputAfterAll(i, visits), later);
    PipeUnderFlag(InputAfterAll(i, visits), later);
    ErrorsAddNothing(buffer, TurnsOf(i, visits), |later|);
  }

  /** What enqueue makes of the registrations. */
  function AllStored(ts: seq<Triple>): (r: seq<Triple>)
    ensures |r| == |ts| && forall k :: 0 <= k < |r| ==> r[k] == Stored(ts[k])
  {
    seq(|ts|, k requires 0 <= k < |ts| => Stored(ts[k]))
  }

  // ---- input, buffer and queue together

  datatype Stage = Stage(input: Input, buffer: string, queue: seq<Triple>)

  function TurnTo(s: Stage): (next: Stage)
    requires |s.buffer| == FRAME
    ensures |next.buffer| == FRAME
  {
    var turn := TurnOf(s.input);
    var now := Buffer(s.buffer, turn);
    Stage(InputAfter(s.input), now, s.queue + AllStored(Added(turn, now)))
  }

  /** The queue of a turn that is skipped, or whose buffer holds no connect request, stays as it is. */
  lemma QueueAfterTurn(s: Stage)
    requires |s.buffer| == FRAME
    ensures var turn, next := TurnOf(s.input), TurnTo(s);
            next.queue == if turn.Error? || OpCode(next.buffer) != OP_CODE_CONNECT then s.queue
                          else s.queue + [Stored(Decode(next.buffer))]
  {
    var added := Added(TurnOf(s.input), TurnTo(s).buffer);
    assert added != [] ==> AllStored(added) == [Stored(added[0])];
  }

  function VisitTo(s: Stage, v: Visit): (next: Stage)
    requires |s.buffer| == FRAME
    ensures |next.buffer| == FRAME
  {
    TurnTo(s.(input := Visited(s.input, v)))
  }

  function StageAfter(s: Stage, visits: seq<Visit>): (next: Stage)
    requires |s.buffer| == FRAME
    ensures |next.buffer| == FRAME
  {
    if visits == [] then s else VisitTo(StageAfter(s, visits[..|visits| - 1]), visits[|visits| - 1])
  }

  lemma GainSnoc(waiting: seq<Triple>, enqueued: seq<Triple>, added: seq<Triple>)
    ensures waiting + AllStored(enqueued + added) == (waiting + AllStored(enqueued)) + AllStored(added)
  {
    assert AllStored(enqueued + added) == AllStored(enqueued) + AllStored(added);
  }

  lemma GainExactly(waiting: seq<Triple>, buffer: string, turns: seq<Turn>)
    requires |buffer| == FRAME && TurnsOk(turns)
    ensures waiting + AllStored(Enqueued(buffer, turns)) == waiting + AllStored(Sent(turns)) <==> NoStaleConnect(buffer, turns)
  {
    AtLeastSent(buffer, turns);
    assert |waiting + AllStored(Enqueued(buffer, turns))| == |waiting| + |Enqueued(buffer, turns)|;
  }

  /** After any visits the queue has gained what their turns enqueue. */
  lemma {:induction false} StageIsEnqueued(s: Stage, visits: seq<Visit>)
    requires |s.buffer| == FRAME
    ensures var next, turns := StageAfter(s, visits), TurnsOf(s.input, visits);
            && next.input == InputAfterAll(s.input, visits)
            && next.buffer == BufferAfter(s.buffer, turns)
            && next.queue == s.queue + AllStored(Enqueued(s.buffer, turns))
  {
    if visits != [] {
      var before, v := visits[..|visits| - 1], visits[|visits| - 1];
      StageIsEnqueued(s, before);
      var turns, turn := TurnsOf(s.input, before), TurnOf(Visited(InputAfterAll(s.input, before), v));
      EnqueuedSnoc(s.buffer, turns, turn);
      GainSnoc(s.queue, Enqueued(s.buffer, turns), Added(turn, Buffer(BufferAfter(s.buffer, turns), turn)));
    }
  }

  lemma RunGains(s: Stage, visits: seq<Visit>)
    requires |s.buffer| == FRAME
    ensures var turns, queue := TurnsOf(s.input, visits), StageAfter(s, visits).queue;
            && queue == s.queue + AllStored(Enqueued(s.buffer, turns))
            && (queue == s.queue + AllStored(Sent(turns)) <==> NoStaleConnect(s.buffer, turns))
  {
    StageIsEnqueued(s, visits);
    GainExactly(s.queue, s.buffer, TurnsOf(s.input, visits));
  }

  /** A connect request that is all the pipe holds is enqueued by the turn that gets it ... */
  lemma FrameTaken(s: Stage)
    requires |s.buffer| == FRAME && OnlyMoves(s.input.plan) && s.input.intr == Some(false)
    requires |s.input.bytes| == FRAME && OpCode(s.input.bytes) == OP_CODE_CONNECT
    ensures var next, frame := TurnTo(s), s.input.bytes;
            && next.input.bytes == "" && OnlyMoves(next.input.plan) && next.input.intr == Some(false)
            && next.buffer == frame && next.queue == s.queue + [Stored(Decode(frame))]
  {
    var frame := s.input.bytes;
    ShortReadTurn(s.input);
    assert frame[..FRAME] == frame;
    var ts := [Decode(frame)];
    assert AllStored(ts) == [Stored(ts[0])];
  }

  /** ... and again by the end of file after it. */
  lemma EndTaken(s: Stage)
    requires |s.buffer| == FRAME && OnlyMoves(s.input.plan) && s.input.intr == Some(false)
    requires s.input.bytes == "" && OpCode(s.buffer) == OP_CODE_CONNECT
    ensures TurnTo(s).queue == s.queue + [Stored(Decode(s.buffer))]
  {
    ShortReadTurn(s.input);
    EndKeepsBuffer(s.buffer);
    var ts := [Decode(s.buffer)];
    assert AllStored(ts) == [Stored(ts[0])];
  }

  // ---- the thread itself

  /** The read at the start of a turn. */
  method ReadTurn(fd: Pipe, buffer: array<char>, intr: Option<bool>) returns (r: int, intr': Option<bool>, ghost turn: Turn)
    requires buffer.Length == FRAME
    modifies fd, buffer
    ensures turn == TurnOf(Input(old(fd.bytes), old(fd.incoming), intr))
    ensures Input(fd.bytes, fd.incoming, intr') == InputAfter(Input(old(fd.bytes), old(fd.incoming), intr))
    ensures r == if turn.Got? then 1 else if turn.EndOfFile? then 0 else -1
    ensures buffer[..] == Buffer(old(buffer[..]), turn)
  {
    ghost var before, i := buffer[..], Input(fd.bytes, fd.incoming, intr);
    ghost var taken;
    turn := TurnOf(i);
    CodeOfTurn(i);
    r, intr', taken := ReadAll(fd, buffer, FRAME, intr);
    var now := buffer[..];
    assert now[..taken] == i.bytes[..taken] && now[taken..] == before[taken..];
    assert now == now[..taken] + now[taken..];
  }

  /** The three names out of the buffer. */
  method CopyNames(buffer: array<char>) returns (request: string, response: string, notification: string)
    requires buffer.Length == FRAME
    ensures Triple(response, request, notification) == Decode(buffer[..])
  {
    request := CopyField(buffer, 1);
    response := CopyField(buffer, 41);
    notification := CopyField(buffer, 81);
    assert buffer[..][1..41] == buffer[1..41] && buffer[..][41..81] == buffer[41..81] && buffer[..][81..121] == buffer[81..121];
  }

  /** The rest of a turn: a connect request is taken apart and enqueued. */
  method DecodeTurn(buffer: array<char>, queue: Queue)
    requires buffer.Length == FRAME && queue.Valid() && buffer !in queue.Repr
    modifies queue.Repr
    ensures queue.Valid() && fresh(queue.Repr - old(queue.Repr))
    ensures queue.Contents() == if OpCode(buffer[..]) != OP_CODE_CONNECT then old(queue.Contents())
                                else old(queue.Contents()) + [Stored(Decode(buffer[..]))]
  {
    var opcode := buffer[0] as int - '0' as int;
    if opcode == OP_CODE_CONNECT {
      var requestFifoName, responseFifoName, notificationFifoName := CopyNames(buffer);
      queue.Enqueue(responseFifoName, requestFifoName, notificationFifoName);
    }
  }

  /** One turn of the registration thread, without the semaphores around the enqueue (Handoff.dfy). */
  method RegisterTurn(fd: Pipe, buffer: array<char>, queue: Queue, intr: Option<bool>) returns (intr': Option<bool>)
    requires buffer.Length == FRAME && queue.Valid() && fd !in queue.Repr && buffer !in queue.Repr
    modifies fd, buffer, queue.Repr
    ensures queue.Valid() && fresh(queue.Repr - old(queue.Repr))
    ensures Stage(Input(fd.bytes, fd.incoming, intr'), buffer[..], queue.Contents()) ==
            TurnTo(old(Stage(Input(fd.bytes, fd.incoming, intr), buffer[..], queue.Contents())))
  {
    var r;
    ghost var turn;
    QueueAfterTurn(Stage(Input(fd.bytes, fd.incoming, intr), buffer[..], queue.Contents()));
    r, intr', turn := ReadTurn(fd, buffer, intr);
    if r == -1 {
      return;
    }
    DecodeTurn(buffer, queue);
  }

  /** Clients write, and then the thread takes its turn. */
  method VisitTurn(fd: Pipe, buffer: array<char>, queue: Queue, intr: Option<bool>, v: Visit) returns (intr': Option<bool>)
    requires buffer.Length == FRAME && queue.Valid() && fd !in queue.Repr && buffer !in queue.Repr
    modifies fd, buffer, queue.Repr
    ensures queue.Valid() && fresh(queue.Repr - old(queue.Repr))
    ensures Stage(Input(fd.bytes, fd.incoming, intr'), buffer[..], queue.Contents()) ==
            VisitTo(old(Stage(Input(fd.bytes, fd.incoming, intr), buffer[..], queue.Contents())), v)
  {
    ghost var s := Stage(Input(fd.bytes, fd.incoming, intr), buffer[..], queue.Contents());
    fd.bytes, fd.incoming := fd.bytes + v.written, v.plan;
    assert queue.Valid() && Stage(Input(fd.bytes, fd.incoming, intr), buffer[..], queue.Contents()) == s.(input := Visited(s.input, v));
    intr' := RegisterTurn(fd, buffer, queue, intr);
  }

  /** The loop of the thread, from an unset flag on. */
  method VisitAll(fd: Pipe, buffer: array<char>, queue: Queue, visits: seq<Visit>) returns (intr: Option<bool>)
    requires buffer.Length == FRAME && queue.Valid() && fd !in queue.Repr && buffer !in queue.Repr
    modifies fd, buffer, queue.Repr
    ensures queue.Valid() && fresh(queue.Repr - old(queue.Repr))
    ensures Stage(Input(fd.bytes, fd.incoming, intr), buffer[..], queue.Contents()) ==
            StageAfter(old(Stage(Input(fd.bytes, fd.incoming, Some(false)), buffer[..], queue.Contents())), visits)
  {
    ghost var start := Stage(Input(fd.bytes, fd.incoming, Some(false)), buffer[..], queue.Contents());
    intr := Some(false);
    for n := 0 to |visits|
      invariant queue.Valid() && fresh(queue.Repr - old(queue.Repr)) && fd !in queue.Repr && buffer !in queue.Repr
      invariant Stage(Input(fd.bytes, fd.incoming, intr), buffer[..], queue.Contents()) == StageAfter(start, visits[..n])
    {
      assert visits[..n + 1][..n] == visits[..n];
      intr := VisitTurn(fd, buffer, queue, intr, visits[n]);
    }
    assert visits[..|visits|] == visits;
  }

  /**
    The registration thread over any number of turns: clients write before each, and the
    system cuts reads short, interrupts or fails as it likes.  The queue gains what the
    turns enqueue, and exactly the registrations that were sent if and only if no end of
    file finds a connect request in the buffer.
   */
  method RegisterAll(fd: Pipe, buffer: array<char>, queue: Queue, visits: seq<Visit>) returns (ghost turns: seq<Turn>)
    requires buffer.Length == FRAME && queue.Valid() && fd !in queue.Repr && buffer !in queue.Repr
    modifies fd, buffer, queue.Repr
    ensures queue.Valid() && fresh(queue.Repr - old(queue.Repr))
    ensures turns == TurnsOf(Input(old(fd.bytes), old(fd.incoming), Some(false)), visits) && TurnsOk(turns)
    ensures queue.Contents() == old(queue.Contents()) + AllStored(Enqueued(old(buffer[..]), turns))
    ensures queue.Contents() == old(queue.Contents()) + AllStored(Sent(turns)) <==> NoStaleConnect(old(buffer[..]), turns)
  {
    ghost var start := Stage(Input(fd.bytes, fd.incoming, Some(false)), buffer[..], queue.Contents());
    var intr := VisitAll(fd, buffer, queue, visits);
    turns := TurnsOf(start.input, visits);
    RunGains(start, visits);
  }

  /**
    The failing run: a pipe that holds one connect request and no more, and a system
    that does nothing worse than cut reads short.  The second turn enqueues the client again.
   */
  method RegisterTwice(fd: Pipe, buffer: array<char>, queue: Queue)
    requires buffer.Length == FRAME && queue.Valid() && fd !in queue.Repr && buffer !in queue.Repr
    requires |fd.bytes| == FRAME && OpCode(fd.bytes) == OP_CODE_CONNECT && OnlyMoves(fd.incoming)
    modifies fd, buffer, queue.Repr
    ensures queue.Valid()
    ensures var stored := Stored(Decode(old(fd.bytes))); queue.Contents() == old(queue.Contents()) + [stored] + [stored]
  {
    ghost var first := Stage(Input(fd.bytes, fd.incoming, Some(false)), buffer[..], queue.Contents());
    FrameTaken(first);
    EndTaken(TurnTo(first));
    var intr := RegisterTurn(fd, buffer, queue, Some(false));
    intr := RegisterTurn(fd, buffer, queue, intr);
  }
}
