/** RFC 6455 frames as bytes, and the reading of one bounded message as a function of the peer's stream. */
module WebSocket {
  import opened Bytes

  const MAX_MESSAGE := 1024 * 1024
  const MAX_WIRE := 8 * MAX_MESSAGE
  const MAX_FRAMES := 128
  const CHUNK := 65536

  const CONTINUATION := 0
  const TEXT := 1
  const CLOSE := 8
  const PING := 9
  const PONG := 10

  /** The closed labels a refusal carries. */
  datatype Kind = Deadline | EndOfStream | Bound | BadFrame | Closed | BadText | Io | UnknownKind

  // ---- frames as bytes, section 5.2 of RFC 6455 ----

  datatype Frame = Frame(fin: bool, opcode: nat, payload: seq<Byte>)

  predicate Sendable(f: Frame) {
    f.opcode < 16 && |f.payload| < 0x8000_0000_0000_0000
  }

  function FirstByte(fin: bool, opcode: nat): Byte
    requires opcode < 16
  {
    (if fin then 128 else 0) + opcode
  }

  /** The shortest length field, with the mask bit as given. */
  function LengthField(size: nat, masked: bool): seq<Byte> {
    var bit := if masked then 128 else 0;
    if size < 126 then [bit + size]
    else if size <= 65535 then [bit + 126] + BigEndian(size, 2)
    else [bit + 127] + BigEndian(size, 8)
  }

  /** The first byte and the length field together. */
  function HeadSize(size: nat): nat {
    if size < 126 then 2 else if size <= 65535 then 4 else 10
  }

  /** A frame as the server sends it: never masked. */
  function ServerBytes(f: Frame): seq<Byte>
    requires Sendable(f)
  {
    [FirstByte(f.fin, f.opcode)] + LengthField(|f.payload|, false) + f.payload
  }

  function Masked(payload: seq<Byte>, mask: seq<Byte>): (s: seq<Byte>)
    requires |mask| == 4
    ensures |s| == |payload|
  {
    seq(|payload|, i requires 0 <= i < |payload| => Xor(payload[i], mask[i % 4]))
  }

  /** A frame as this client sends it: final and masked. */
  function ClientBytes(opcode: nat, payload: seq<Byte>, mask: seq<Byte>): seq<Byte>
    requires opcode < 16 && |mask| == 4
  {
    [FirstByte(true, opcode)] + LengthField(|payload|, true) + mask + Masked(payload, mask)
  }

  // ---- reading ----

  /** The bytes the peer will send before it closes, and the two running budgets. */
  datatype Wire = Wire(input: seq<Byte>, frames: nat, wire: nat)

  datatype Read<T> = Ok(value: T, next: Wire) | Refused(kind: Kind)

  function Exact(w: Wire, count: nat): Read<seq<Byte>> {
    if count > MAX_MESSAGE || w.wire + count > MAX_WIRE then Refused(Bound)
    else if |w.input| < count then Refused(EndOfStream)
    else Ok(w.input[..count], Wire(w.input[count..], w.frames, w.wire + count))
  }

  datatype Head = Head(fin: bool, opcode: nat, size: nat)

  function ReadSize(w: Wire, short: nat): Read<nat> {
    if short == 126 then
      var e := Exact(w, 2);
      if e.Refused? then Refused(e.kind) else if Number(e.value) < 126 then Refused(BadFrame) else Ok(Number(e.value), e.next)
    else if short == 127 then
      var e := Exact(w, 8);
      if e.Refused? then Refused(e.kind)
      else if !(65535 < Number(e.value) < 0x8000_0000_0000_0000) then Refused(BadFrame) else Ok(Number(e.value), e.next)
    else Ok(short, w)
  }

  function ReadHead(w: Wire): (h: Read<Head>)
    ensures h.Ok? ==> |h.next.input| < |w.input|
  {
    if w.frames >= MAX_FRAMES then Refused(Bound)
    else
      var e := Exact(w.(frames := w.frames + 1), 2);
      if e.Refused? then Refused(e.kind) else HeadOf(e.value[0], e.value[1], e.next)
  }

  /** No reserved bit, no mask bit, and the length that follows. */
  function HeadOf(first: Byte, second: Byte, w: Wire): (h: Read<Head>)
    ensures h.Ok? ==> |h.next.input| <= |w.input|
  {
    if (first / 16) % 8 != 0 || second >= 128 then Refused(BadFrame)
    else
      var size := ReadSize(w, second % 128);
      if size.Refused? then Refused(size.kind) else Ok(Head(first >= 128, first % 16, size.value), size.next)
  }

  /** A frame sent costs one frame, and its header, mask and payload. */
  function SendFrame(w: Wire, payload: seq<Byte>): Read<seq<Byte>> {
    if |payload| > MAX_MESSAGE || w.frames >= MAX_FRAMES then Refused(Bound)
    else if w.wire + HeadSize(|payload|) + 4 + |payload| > MAX_WIRE then Refused(Bound)
    else Ok(payload, Wire(w.input, w.frames + 1, w.wire + HeadSize(|payload|) + 4 + |payload|))
  }

  /** One complete message and the payloads of the pings answered on the way, or the refusal. */
  datatype Message = Message(text: seq<Byte>, pongs: seq<seq<Byte>>)

  predicate IsControl(opcode: nat) {
    opcode == CLOSE || opcode == PING || opcode == PONG
  }

  /** What one frame does to the reading: refuse it, finish the message, or go on with the pongs it caused. */
  datatype Step =
    | Fail(kind: Kind)
    | Stop(text: seq<Byte>, end: Wire)
    | Again(next: Wire, complete: seq<Byte>, started: bool, pongs: seq<seq<Byte>>)

  function ControlStep(h: Head, w: Wire, complete: seq<Byte>, started: bool): (s: Step)
    ensures s.Again? ==> |s.next.input| <= |w.input|
  {
    if !h.fin || h.size > 125 then Fail(BadFrame)
    else
      var p := Exact(w, h.size);
      if p.Refused? then Fail(p.kind)
      else if h.opcode == CLOSE then Fail(Closed)
      else if h.opcode == PONG then Again(p.next, complete, started, [])
      else
        var pong := SendFrame(p.next, p.value);
        if pong.Refused? then Fail(pong.kind) else Again(pong.next, complete, started, [p.value])
  }

  function DataStep(utf8: seq<Byte> -> bool, h: Head, w: Wire, complete: seq<Byte>, started: bool, limit: nat): (s: Step)
    ensures s.Again? ==> |s.next.input| <= |w.input|
  {
    if h.opcode != (if started then CONTINUATION else TEXT) then Fail(BadFrame)
    else if |complete| + h.size > limit then Fail(Bound)
    else
      var p := Exact(w, h.size);
      if p.Refused? then Fail(p.kind)
      else if !h.fin then Again(p.next, complete + p.value, true, [])
      else if utf8(complete + p.value) then Stop(complete + p.value, p.next)
      else Fail(BadText)
  }

  function FrameStep(utf8: seq<Byte> -> bool, w: Wire, complete: seq<Byte>, started: bool, limit: nat): (s: Step)
    ensures s.Again? ==> |s.next.input| < |w.input|
  {
    var h := ReadHead(w);
    if h.Refused? then Fail(h.kind)
    else if IsControl(h.value.opcode) then ControlStep(h.value, h.next, complete, started)
    else DataStep(utf8, h.value, h.next, complete, started, limit)
  }

  /** Each label of a refused data frame has its one cause. */
  lemma DataRefusals(utf8: seq<Byte> -> bool, h: Head, w: Wire, complete: seq<Byte>, started: bool, limit: nat)
    requires limit <= MAX_MESSAGE
    ensures var s := DataStep(utf8, h, w, complete, started, limit);
            var due := h.opcode == if started then 0 else 1;
            var fits := |complete| + h.size <= limit && w.wire + h.size <= MAX_WIRE;
            && (s == Fail(BadFrame) <==> !due)
            && (s == Fail(Bound) <==> due && !fits)
            && (s == Fail(EndOfStream) <==> due && fits && |w.input| < h.size)
            && (s == Fail(BadText) <==> due && fits && h.size <= |w.input| && h.fin && !utf8(complete + w.input[..h.size]))
            && (s.Stop? <==> due && fits && h.size <= |w.input| && h.fin && utf8(complete + w.input[..h.size]))
            && (s.Again? <==> due && fits && h.size <= |w.input| && !h.fin)
  {
  }

  /** And so has each of a refused control frame: a close that arrives whole ends the reading as closed. */
  lemma ControlRefusals(h: Head, w: Wire, complete: seq<Byte>, started: bool)
    requires IsControl(h.opcode)
    ensures var s := ControlStep(h, w, complete, started);
            var proper, fits := h.fin && h.size <= 125, w.wire + h.size <= MAX_WIRE;
            && (s == Fail(BadFrame) <==> !proper)
            && (s == Fail(EndOfStream) <==> proper && fits && |w.input| < h.size)
            && (s == Fail(Closed) <==> proper && fits && h.size <= |w.input| && h.opcode == 8)
            && (s == Fail(Bound) <==> proper && (!fits || (h.size <= |w.input| && h.opcode == 9 && (w.frames >= MAX_FRAMES || w.wire + h.size + 6 + h.size > MAX_WIRE))))
            && (s.Again? ==> s.complete == complete && s.started == started && (s.pongs != [] <==> h.opcode == 9))
  {
  }

  function WithPongs(pongs: seq<seq<Byte>>, r: Read<Message>): Read<Message> {
    if r.Ok? then Ok(Message(r.value.text, pongs + r.value.pongs), r.next) else r
  }

  function ReadFrames(utf8: seq<Byte> -> bool, w: Wire, complete: seq<Byte>, started: bool, limit: nat): Read<Message>
    decreases |w.input|
  {
    match FrameStep(utf8, w, complete, started, limit)
    case Fail(kind) => Refused(kind)
    case Stop(text, end) => Ok(Message(text, []), end)
    case Again(next, complete', started', pongs) => WithPongs(pongs, ReadFrames(utf8, next, complete', started', limit))
  }

  function ReadMessage(utf8: seq<Byte> -> bool, w: Wire, limit: int): Read<Message> {
    if !(0 < limit <= MAX_MESSAGE) then Refused(Bound) else ReadFrames(utf8, w, [], false, limit)
  }

  // ---- one message as the server may send it, section 5.4 of RFC 6455 ----

  /** A text frame and its continuations, the last one final, with pings and pongs between them. */
  predicate Script(fs: seq<Frame>, started: bool)
    decreases |fs|
  {
    && fs != [] && Sendable(fs[0])
    && if fs[0].opcode == PING || fs[0].opcode == PONG
       then fs[0].fin && |fs[0].payload| <= 125 && Script(fs[1..], started)
       else fs[0].opcode == (if started then CONTINUATION else TEXT) && if fs[0].fin then |fs| == 1 else Script(fs[1..], true)
  }

  function Text(fs: seq<Frame>): seq<Byte> {
    if fs == [] then [] else (if IsControl(fs[0].opcode) then [] else fs[0].payload) + Text(fs[1..])
  }

  function Pings(fs: seq<Frame>): seq<seq<Byte>> {
    if fs == [] then [] else (if fs[0].opcode == PING then [fs[0].payload] else []) + Pings(fs[1..])
  }

  function Stream(fs: seq<Frame>): seq<Byte>
    requires forall f :: f in fs ==> Sendable(f)
  {
    if fs == [] then [] else ServerBytes(fs[0]) + Stream(fs[1..])
  }

  lemma {:induction false} ScriptIsSendable(fs: seq<Frame>, started: bool)
    requires Script(fs, started)
    ensures forall f :: f in fs ==> Sendable(f)
  {
    if fs[1..] != [] {
      if fs[0].opcode == PING || fs[0].opcode == PONG {
        ScriptIsSendable(fs[1..], started);
      } else {
        ScriptIsSendable(fs[1..], true);
      }
    }
  }

  function PongBytes(pings: seq<seq<Byte>>): nat {
    if pings == [] then 0 else 6 + |pings[0]| + PongBytes(pings[1..])
  }
}
