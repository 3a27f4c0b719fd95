/** Reading inverts fragmentation, and accepts nothing else. */
module WebSocketExact {
  import opened Bytes
  import opened Options
  import opened WebSocket

  lemma Powers()
    ensures Power(2) == 0x1_0000 && Power(8) == 0x1_0000_0000_0000_0000
  {
    assert Power(2) == 256 * 256 && Power(3) == 256 * Power(2) && Power(4) == 256 * Power(3);
    assert Power(5) == 256 * Power(4) && Power(6) == 256 * Power(5) && Power(7) == 256 * Power(6) && Power(8) == 256 * Power(7);
  }

  // ---- one header, both ways ----

  lemma SizeReads(w: Wire, size: nat, rest: seq<Byte>)
    requires size < 0x8000_0000_0000_0000 && w.input == LengthField(size, false)[1..] + rest && w.wire <= MAX_WIRE
    ensures ReadSize(w, LengthField(size, false)[0]) ==
            if w.wire + HeadSize(size) - 2 > MAX_WIRE then Refused(Bound) else Ok(size, Wire(rest, w.frames, w.wire + HeadSize(size) - 2))
  {
    Powers();
    var extra := HeadSize(size) - 2;
    assert w.input[extra..] == rest;
    if 126 <= size {
      NumberOfBigEndian(size, extra);
      assert w.input[..extra] == BigEndian(size, extra);
    }
  }

  lemma FirstByteParts(fin: bool, opcode: nat)
    requires opcode < 16
    ensures var b := FirstByte(fin, opcode); (b / 16) % 8 == 0 && (b >= 128 <==> fin) && b % 16 == opcode
  {
  }

  lemma FieldStart(size: nat)
    ensures var field := LengthField(size, false);
            |field| == HeadSize(size) - 1 && field[0] < 128 && field[0] % 128 == field[0] && field == [field[0]] + field[1..]
  {
  }

  lemma HeadReads(w: Wire, f: Frame, rest: seq<Byte>)
    requires Sendable(f) && w.input == ServerBytes(f) + rest
    ensures ReadHead(w) ==
            if w.frames >= MAX_FRAMES || w.wire + HeadSize(|f.payload|) > MAX_WIRE then Refused(Bound)
            else Ok(Head(f.fin, f.opcode, |f.payload|), Wire(f.payload + rest, w.frames + 1, w.wire + HeadSize(|f.payload|)))
  {
    var first, field := FirstByte(f.fin, f.opcode), LengthField(|f.payload|, false);
    HeadThenBody(f, rest);
    TwoThenHead(w, first, field[0], field[1..] + (f.payload + rest));
    if w.frames < MAX_FRAMES && w.wire + 2 <= MAX_WIRE {
      HeadOfReads(Wire(field[1..] + (f.payload + rest), w.frames + 1, w.wire + 2), f.fin, f.opcode, |f.payload|, f.payload + rest);
    }
  }

  /** The first two bytes read, the head goes on from them. */
  lemma TwoThenHead(w: Wire, a: Byte, b: Byte, rest: seq<Byte>)
    requires w.input == [a, b] + rest
    ensures ReadHead(w) ==
            if w.frames >= MAX_FRAMES || w.wire + 2 > MAX_WIRE then Refused(Bound) else HeadOf(a, b, Wire(rest, w.frames + 1, w.wire + 2))
  {
    if w.wire + 2 <= MAX_WIRE {
      TwoBytes(w.(frames := w.frames + 1), a, b, rest);
    }
  }

  lemma HeadOfReads(w: Wire, fin: bool, opcode: nat, size: nat, rest: seq<Byte>)
    requires opcode < 16 && size < 0x8000_0000_0000_0000 && w.wire <= MAX_WIRE
    requires w.input == LengthField(size, false)[1..] + rest
    ensures HeadOf(FirstByte(fin, opcode), LengthField(size, false)[0], w) ==
            if w.wire + HeadSize(size) - 2 > MAX_WIRE then Refused(Bound)
            else Ok(Head(fin, opcode, size), Wire(rest, w.frames, w.wire + HeadSize(size) - 2))
  {
    FirstByteParts(fin, opcode);
    FieldStart(size);
    SizeReads(w, size, rest);
  }

  lemma HeadThenBody(f: Frame, rest: seq<Byte>)
    requires Sendable(f)
    ensures var field := LengthField(|f.payload|, false);
            ServerBytes(f) + rest == [FirstByte(f.fin, f.opcode), field[0]] + (field[1..] + (f.payload + rest))
  {
    var first, field := FirstByte(f.fin, f.opcode), LengthField(|f.payload|, false);
    FieldStart(|f.payload|);
    FiveParts(first, field[0], field[1..], f.payload, rest);
  }

  lemma FiveParts(a: Byte, b: Byte, c: seq<Byte>, d: seq<Byte>, e: seq<Byte>)
    ensures [a] + ([b] + c) + d + e == [a, b] + (c + (d + e))
  {
  }

  lemma TwoBytes(w: Wire, a: Byte, b: Byte, rest: seq<Byte>)
    requires w.input == [a, b] + rest && w.wire + 2 <= MAX_WIRE
    ensures Exact(w, 2) == Ok([a, b], Wire(rest, w.frames, w.wire + 2))
  {
    assert w.input[..2] == [a, b] && w.input[2..] == rest;
  }

  /** An accepted length is in its shortest form. */
  lemma SizeIsShortest(w: Wire, short: nat)
    requires short < 128 && ReadSize(w, short).Ok?
    ensures var r := ReadSize(w, short);
            r.value < 0x8000_0000_0000_0000 && [short] + w.input == LengthField(r.value, false) + r.next.input
  {
    Powers();
    if short == 126 || short == 127 {
      var extra := if short == 126 then 2 else 8;
      BigEndianOfNumber(w.input[..extra]);
      ShortestField(short, w.input[..extra], w.input[extra..]);
      assert w.input == w.input[..extra] + w.input[extra..];
    }
  }

  lemma ShortestField(short: nat, bytes: seq<Byte>, rest: seq<Byte>)
    requires if short == 126 then 126 <= Number(bytes) <= 65535 else short == 127 && 65535 < Number(bytes)
    requires |bytes| == (if short == 126 then 2 else 8) && BigEndian(Number(bytes), |bytes|) == bytes
    ensures [short] + (bytes + rest) == LengthField(Number(bytes), false) + rest
  {
  }

  lemma HeadOfIsCanonical(first: Byte, second: Byte, w: Wire)
    requires HeadOf(first, second, w).Ok?
    ensures var r := HeadOf(first, second, w);
            && r.value.opcode < 16 && r.value.size < 0x8000_0000_0000_0000
            && [first, second] + w.input == [FirstByte(r.value.fin, r.value.opcode)] + LengthField(r.value.size, false) + r.next.input
  {
    assert first == FirstByte(first >= 128, first % 16);
    SizeIsShortest(w, second);
    assert [first, second] + w.input == [first] + ([second] + w.input);
  }

  /** An accepted header is the canonical one: unmasked, without reserved bits, shortest length. */
  lemma HeadIsCanonical(w: Wire)
    requires ReadHead(w).Ok?
    ensures var r := ReadHead(w);
            && r.value.opcode < 16 && r.value.size < 0x8000_0000_0000_0000
            && w.input == [FirstByte(r.value.fin, r.value.opcode)] + LengthField(r.value.size, false) + r.next.input
  {
    var e := Exact(w.(frames := w.frames + 1), 2);
    HeadOfIsCanonical(e.value[0], e.value[1], e.next);
    assert w.input == [e.value[0], e.value[1]] + e.next.input;
  }

  // ---- one message, both ways ----

  /** The budgets a script needs, on top of what is already spent. */
  predicate Fits(w: Wire, fs: seq<Frame>, complete: seq<Byte>, limit: nat)
    requires forall f :: f in fs ==> Sendable(f)
  {
    && w.frames + |fs| + |Pings(fs)| <= MAX_FRAMES
    && w.wire + |Stream(fs)| + PongBytes(Pings(fs)) <= MAX_WIRE
    && |complete| + |Text(fs)| <= limit
  }

  function Spent(w: Wire, fs: seq<Frame>, rest: seq<Byte>): Wire
    requires forall f :: f in fs ==> Sendable(f)
  {
    Wire(rest, w.frames + |fs| + |Pings(fs)|, w.wire + |Stream(fs)| + PongBytes(Pings(fs)))
  }

  /** r is what reading the script should give: the whole text with the pings it answered, or a refusal. */
  predicate Judged(r: Read<Message>, utf8: seq<Byte> -> bool, w: Wire, fs: seq<Frame>, rest: seq<Byte>, complete: seq<Byte>, limit: nat)
    requires forall f :: f in fs ==> Sendable(f)
  {
    if Fits(w, fs, complete, limit) && utf8(complete + Text(fs))
    then r == Ok(Message(complete + Text(fs), Pings(fs)), Spent(w, fs, rest))
    else r.Refused?
  }

  /** The frame's bytes, or a pong it would cause, are over a budget. */
  predicate Over(w: Wire, f: Frame) {
    w.frames >= MAX_FRAMES || w.wire + HeadSize(|f.payload|) + |f.payload| > MAX_WIRE
  }

  lemma PayloadReads(w: Wire, payload: seq<Byte>, tail: seq<Byte>)
    requires w.input == payload + tail && |payload| <= MAX_MESSAGE
    ensures Exact(w, |payload|) ==
            if w.wire + |payload| > MAX_WIRE then Refused(Bound) else Ok(payload, Wire(tail, w.frames, w.wire + |payload|))
  {
    assert w.input[..|payload|] == payload && w.input[|payload|..] == tail;
  }

  function Next(w: Wire, f: Frame, tail: seq<Byte>): Wire {
    Wire(tail, w.frames + 1, w.wire + HeadSize(|f.payload|) + |f.payload|)
  }

  lemma ControlReads(utf8: seq<Byte> -> bool, w: Wire, f: Frame, tail: seq<Byte>, complete: seq<Byte>, started: bool, limit: nat)
    requires Sendable(f) && f.fin && |f.payload| <= 125 && (f.opcode == PING || f.opcode == PONG) && w.input == ServerBytes(f) + tail
    ensures FrameStep(utf8, w, complete, started, limit) ==
            if Over(w, f) then Fail(Bound)
            else if f.opcode == PONG then Again(Next(w, f, tail), complete, started, [])
            else
              var pong := SendFrame(Next(w, f, tail), f.payload);
              if pong.Refused? then Fail(Bound) else Again(pong.next, complete, started, [f.payload])
  {
    HeadReads(w, f, tail);
    var h := ReadHead(w);
    if h.Ok? {
      PayloadReads(h.next, f.payload, tail);
    }
  }

  lemma DataReads(utf8: seq<Byte> -> bool, w: Wire, f: Frame, tail: seq<Byte>, complete: seq<Byte>, started: bool, limit: nat)
    requires Sendable(f) && f.opcode == (if started then CONTINUATION else TEXT) && w.input == ServerBytes(f) + tail && limit <= MAX_MESSAGE
    ensures FrameStep(utf8, w, complete, started, limit) ==
            if Over(w, f) || |complete| + |f.payload| > limit then Fail(Bound)
            else if !f.fin then Again(Next(w, f, tail), complete + f.payload, true, [])
            else if utf8(complete + f.payload) then Stop(complete + f.payload, Next(w, f, tail)) else Fail(BadText)
  {
    HeadReads(w, f, tail);
    var h := ReadHead(w);
    if h.Ok? && |complete| + |f.payload| <= limit {
      PayloadReads(h.next, f.payload, tail);
    }
  }

  /** One frame that goes on: the rest of the script decides, with this frame's cost added. */
  lemma FrameThenRest(utf8: seq<Byte> -> bool, w: Wire, fs: seq<Frame>, rest: seq<Byte>, complete: seq<Byte>, limit: nat,
    next: Wire, more: seq<Byte>, pongs: seq<seq<Byte>>, r': Read<Message>)
    requires fs != [] && (forall f :: f in fs ==> Sendable(f))
    requires more + Text(fs[1..]) == complete + Text(fs) && pongs + Pings(fs[1..]) == Pings(fs)
    requires next.frames == w.frames + 1 + |pongs|
    requires next.wire + |Stream(fs[1..])| + PongBytes(Pings(fs[1..])) == w.wire + |Stream(fs)| + PongBytes(Pings(fs))
    requires Judged(r', utf8, next, fs[1..], rest, more, limit)
    ensures Judged(WithPongs(pongs, r'), utf8, w, fs, rest, complete, limit)
  {
    assert |more| + |Text(fs[1..])| == |more + Text(fs[1..])| == |complete| + |Text(fs)|;
    assert |Pings(fs)| == |pongs| + |Pings(fs[1..])|;
  }

  lemma ControlText(fs: seq<Frame>)
    requires fs != [] && IsControl(fs[0].opcode)
    ensures Text(fs) == Text(fs[1..])
  {
  }

  function Then(step: Step, r': Read<Message>): Read<Message> {
    match step
    case Fail(kind) => Refused(kind)
    case Stop(text, end) => Ok(Message(text, []), end)
    case Again(_, _, _, pongs) => WithPongs(pongs, r')
  }

  lemma PongJudged(utf8: seq<Byte> -> bool, w: Wire, fs: seq<Frame>, rest: seq<Byte>, complete: seq<Byte>, started: bool, limit: nat,
    r': Read<Message>)
    requires fs != [] && (forall f :: f in fs ==> Sendable(f)) && fs[0].opcode == PONG
    requires var next := Next(w, fs[0], Stream(fs[1..]) + rest); !Over(w, fs[0]) ==> Judged(r', utf8, next, fs[1..], rest, complete, limit)
    ensures var step := if Over(w, fs[0]) then Fail(Bound) else Again(Next(w, fs[0], Stream(fs[1..]) + rest), complete, started, []);
            Judged(Then(step, r'), utf8, w, fs, rest, complete, limit)
  {
    ScriptSums(fs);
    ControlText(fs);
    if !Over(w, fs[0]) {
      assert [] + Pings(fs[1..]) == Pings(fs);
      FrameThenRest(utf8, w, fs, rest, complete, limit, Next(w, fs[0], Stream(fs[1..]) + rest), complete, [], r');
    }
  }

  lemma PingJudged(utf8: seq<Byte> -> bool, w: Wire, fs: seq<Frame>, rest: seq<Byte>, complete: seq<Byte>, started: bool, limit: nat,
    r': Read<Message>)
    requires fs != [] && (forall f :: f in fs ==> Sendable(f)) && fs[0].opcode == PING && |fs[0].payload| <= 125
    requires var pong := SendFrame(Next(w, fs[0], Stream(fs[1..]) + rest), fs[0].payload);
             !Over(w, fs[0]) && pong.Ok? ==> Judged(r', utf8, pong.next, fs[1..], rest, complete, limit)
    ensures var pong := SendFrame(Next(w, fs[0], Stream(fs[1..]) + rest), fs[0].payload);
            var step := if Over(w, fs[0]) || pong.Refused? then Fail(Bound) else Again(pong.next, complete, started, [fs[0].payload]);
            Judged(Then(step, r'), utf8, w, fs, rest, complete, limit)
  {
    ScriptSums(fs);
    ControlText(fs);
    var pong := SendFrame(Next(w, fs[0], Stream(fs[1..]) + rest), fs[0].payload);
    if Over(w, fs[0]) || pong.Refused? {
      assert |Pings(fs)| >= 1;
    } else {
      FrameThenRest(utf8, w, fs, rest, complete, limit, pong.next, complete, [fs[0].payload], r');
    }
  }

  lemma DataJudged(utf8: seq<Byte> -> bool, w: Wire, fs: seq<Frame>, rest: seq<Byte>, complete: seq<Byte>, limit: nat, r': Read<Message>)
    requires fs != [] && (forall f :: f in fs ==> Sendable(f)) && !IsControl(fs[0].opcode) && (fs[0].fin ==> |fs| == 1)
    requires var f := fs[0];
             !Over(w, f) && |complete| + |f.payload| <= limit && !f.fin ==>
             Judged(r', utf8, Next(w, f, Stream(fs[1..]) + rest), fs[1..], rest, complete + f.payload, limit)
    ensures var f := fs[0];
            var next := Next(w, f, Stream(fs[1..]) + rest);
            var step := if Over(w, f) || |complete| + |f.payload| > limit then Fail(Bound)
                        else if !f.fin then Again(next, complete + f.payload, true, [])
                        else if utf8(complete + f.payload) then Stop(complete + f.payload, next) else Fail(BadText);
            Judged(Then(step, r'), utf8, w, fs, rest, complete, limit)
  {
    var f := fs[0];
    ScriptSums(fs);
    assert complete + f.payload + Text(fs[1..]) == complete + Text(fs);
    if Over(w, f) || |complete| + |f.payload| > limit {
      assert |Text(fs)| >= |f.payload|;
    } else if f.fin {
      assert fs[1..] == [] && Text(fs) == f.payload;
      assert Stream(fs[1..]) + rest == rest;
    } else {
      FrameThenRest(utf8, w, fs, rest, complete, limit, Next(w, f, Stream(fs[1..]) + rest), complete + f.payload, [], r');
    }
  }

  /** Every split into frames, with pings and pongs in between, is read back whole, or refused when over a budget or not text. */
  lemma {:induction false} ReadInvertsFragmentation(utf8: seq<Byte> -> bool, w: Wire, fs: seq<Frame>, rest: seq<Byte>,
    complete: seq<Byte>, started: bool, limit: nat)
    requires Script(fs, started) && (forall f :: f in fs ==> Sendable(f)) && w.input == Stream(fs) + rest && limit <= MAX_MESSAGE
    ensures Judged(ReadFrames(utf8, w, complete, started, limit), utf8, w, fs, rest, complete, limit)
    decreases |fs|
  {
    var tail := Stream(fs[1..]) + rest;
    assert w.input == ServerBytes(fs[0]) + tail;
    var step, r' := FrameStep(utf8, w, complete, started, limit), Refused(Bound);
    if step.Again? {
      NextStarts(utf8, w, fs, tail, complete, started, limit);
      ReadInvertsFragmentation(utf8, step.next, fs[1..], rest, step.complete, step.started, limit);
      r' := ReadFrames(utf8, step.next, step.complete, step.started, limit);
    }
    assert ReadFrames(utf8, w, complete, started, limit) == Then(step, r');
    StepJudged(utf8, w, fs, rest, complete, started, limit, step, r');
  }

  /** A frame that goes on leaves the rest of the script to read. */
  lemma NextStarts(utf8: seq<Byte> -> bool, w: Wire, fs: seq<Frame>, tail: seq<Byte>, complete: seq<Byte>, started: bool, limit: nat)
    requires Script(fs, started) && w.input == ServerBytes(fs[0]) + tail && limit <= MAX_MESSAGE
    requires FrameStep(utf8, w, complete, started, limit).Again?
    ensures var step := FrameStep(utf8, w, complete, started, limit); step.next.input == tail && Script(fs[1..], step.started)
  {
    if IsControl(fs[0].opcode) {
      ControlReads(utf8, w, fs[0], tail, complete, started, limit);
    } else {
      DataReads(utf8, w, fs[0], tail, complete, started, limit);
    }
  }

  lemma StepJudged(utf8: seq<Byte> -> bool, w: Wire, fs: seq<Frame>, rest: seq<Byte>, complete: seq<Byte>, started: bool, limit: nat,
    step: Step, r': Read<Message>)
    requires Script(fs, started) && (forall f :: f in fs ==> Sendable(f)) && limit <= MAX_MESSAGE
    requires w.input == ServerBytes(fs[0]) + (Stream(fs[1..]) + rest) && step == FrameStep(utf8, w, complete, started, limit)
    requires step.Again? ==> Judged(r', utf8, step.next, fs[1..], rest, step.complete, limit)
    ensures Judged(Then(step, r'), utf8, w, fs, rest, complete, limit)
  {
    var tail := Stream(fs[1..]) + rest;
    if fs[0].opcode == PING {
      ControlReads(utf8, w, fs[0], tail, complete, started, limit);
      PingJudged(utf8, w, fs, rest, complete, started, limit, r');
    } else if fs[0].opcode == PONG {
      ControlReads(utf8, w, fs[0], tail, complete, started, limit);
      PongJudged(utf8, w, fs, rest, complete, started, limit, r');
    } else {
      DataReads(utf8, w, fs[0], tail, complete, started, limit);
      DataJudged(utf8, w, fs, rest, complete, limit, r');
    }
  }

  lemma ScriptSums(fs: seq<Frame>)
    requires fs != [] && forall f :: f in fs ==> Sendable(f)
    ensures |Stream(fs)| == HeadSize(|fs[0].payload|) + |fs[0].payload| + |Stream(fs[1..])|
    ensures PongBytes(Pings(fs)) == (if fs[0].opcode == PING then 6 + |fs[0].payload| else 0) + PongBytes(Pings(fs[1..]))
    ensures Pings(fs) == (if fs[0].opcode == PING then [fs[0].payload] else []) + Pings(fs[1..])
  {
    FieldStart(|fs[0].payload|);
    assert Pings(fs)[if fs[0].opcode == PING then 1 else 0..] == Pings(fs[1..]);
  }

  // ---- what an accepted input must have been ----

  lemma PayloadIsPrefix(w: Wire, count: nat)
    requires Exact(w, count).Ok?
    ensures w.input == Exact(w, count).value + Exact(w, count).next.input && |Exact(w, count).value| == count
  {
  }

  /** A header and its payload are the bytes of one canonical frame. */
  lemma AcceptedFrame(w: Wire) returns (f: Frame)
    requires ReadHead(w).Ok? && Exact(ReadHead(w).next, ReadHead(w).value.size).Ok?
    ensures Sendable(f) && f.fin == ReadHead(w).value.fin && f.opcode == ReadHead(w).value.opcode && |f.payload| == ReadHead(w).value.size
    ensures w.input == ServerBytes(f) + Exact(ReadHead(w).next, ReadHead(w).value.size).next.input
  {
    var h := ReadHead(w);
    HeadIsCanonical(w);
    PayloadIsPrefix(h.next, h.value.size);
    f := Frame(h.value.fin, h.value.opcode, Exact(h.next, h.value.size).value);
    FrameJoins([FirstByte(f.fin, f.opcode)] + LengthField(|f.payload|, false), f.payload, Exact(h.next, h.value.size).next.input);
  }

  lemma FrameJoins(a: seq<Byte>, b: seq<Byte>, c: seq<Byte>)
    ensures a + (b + c) == a + b + c
  {
  }

  lemma AcceptedStep(utf8: seq<Byte> -> bool, w: Wire, complete: seq<Byte>, started: bool, limit: nat) returns (f: Frame)
    requires !FrameStep(utf8, w, complete, started, limit).Fail?
    ensures Sendable(f)
    ensures var step := FrameStep(utf8, w, complete, started, limit);
            && w.input == ServerBytes(f) + (if step.Stop? then step.end.input else step.next.input)
            && if f.opcode == PING || f.opcode == PONG
               then f.fin && |f.payload| <= 125 && step.Again? && step.started == started
               else f.opcode == (if started then CONTINUATION else TEXT) && (f.fin <==> step.Stop?) && (step.Again? ==> step.started)
  {
    f := AcceptedFrame(w);
  }

  /** Whatever is accepted was one message as the server may send it. */
  lemma {:induction false} AcceptedIsScript(utf8: seq<Byte> -> bool, w: Wire, complete: seq<Byte>, started: bool, limit: nat) returns (fs: seq<Frame>)
    requires ReadFrames(utf8, w, complete, started, limit).Ok?
    ensures Script(fs, started) && (forall f :: f in fs ==> Sendable(f))
    ensures w.input == Stream(fs) + ReadFrames(utf8, w, complete, started, limit).next.input
    decreases |w.input|
  {
    var step := FrameStep(utf8, w, complete, started, limit);
    var f := AcceptedStep(utf8, w, complete, started, limit);
    if step.Stop? {
      fs := [f];
      assert Stream(fs) == ServerBytes(f) + Stream([]) == ServerBytes(f);
    } else {
      var more := AcceptedIsScript(utf8, step.next, step.complete, step.started, limit);
      fs := [f] + more;
      assert fs[1..] == more;
      FrameJoins(ServerBytes(f), Stream(more), ReadFrames(utf8, w, complete, started, limit).next.input);
    }
  }

  /** The stream starts with a message of these frames. */
  ghost predicate StartsWith(w: Wire, fs: seq<Frame>, rest: seq<Byte>) {
    Script(fs, false) && (forall f :: f in fs ==> Sendable(f)) && w.input == Stream(fs) + rest
  }

  /** A message is returned exactly when the stream starts with one that is text and fits the budgets. */
  lemma AcceptsExactlyWhen(utf8: seq<Byte> -> bool, w: Wire, limit: int)
    ensures ReadMessage(utf8, w, limit).Ok? <==>
            && 0 < limit <= MAX_MESSAGE
            && exists fs, rest :: StartsWith(w, fs, rest) && Fits(w, fs, [], limit) && utf8(Text(fs))
  {
    if ReadMessage(utf8, w, limit).Ok? {
      var fs := AcceptedIsScript(utf8, w, [], false, limit);
      var rest := ReadFrames(utf8, w, [], false, limit).next.input;
      ReadInvertsFragmentation(utf8, w, fs, rest, [], false, limit);
      assert StartsWith(w, fs, rest) && [] + Text(fs) == Text(fs);
    }
    if 0 < limit <= MAX_MESSAGE && exists fs, rest :: StartsWith(w, fs, rest) && Fits(w, fs, [], limit) && utf8(Text(fs)) {
      var fs, rest :| StartsWith(w, fs, rest) && Fits(w, fs, [], limit) && utf8(Text(fs));
      ReadInvertsFragmentation(utf8, w, fs, rest, [], false, limit);
      assert [] + Text(fs) == Text(fs);
    }
  }

  /** The returned text, the answered pings and the consumed bytes are those of the message's frames. */
  lemma ReadsExactly(utf8: seq<Byte> -> bool, w: Wire, limit: int, fs: seq<Frame>, rest: seq<Byte>)
    requires StartsWith(w, fs, rest) && ReadMessage(utf8, w, limit).Ok?
    ensures ReadMessage(utf8, w, limit) == Ok(Message(Text(fs), Pings(fs)), Spent(w, fs, rest))
  {
    ReadInvertsFragmentation(utf8, w, fs, rest, [], false, limit);
    assert [] + Text(fs) == Text(fs);
  }

  /** A length in two or in eight bytes is taken exactly when no shorter form could have carried it, within the budgets. */
  lemma LongLengthTakenExactlyWhen(w: Wire, first: Byte, width: nat, size: nat, rest: seq<Byte>)
    requires (width == 2 || width == 8) && size < Power(width)
    requires w.input == [first, if width == 2 then 126 else 127] + BigEndian(size, width) + rest
    ensures ReadHead(w).Ok? <==>
              && HeadSize(size) == 2 + width && size < 0x8000_0000_0000_0000
              && (first / 16) % 8 == 0 && w.frames < MAX_FRAMES && w.wire + 2 + width <= MAX_WIRE
  {
    Powers();
    NumberOfBigEndian(size, width);
    var code: Byte := if width == 2 then 126 else 127;
    assert w.input == [first, code] + (BigEndian(size, width) + rest);
    if w.frames < MAX_FRAMES && w.wire + 2 <= MAX_WIRE {
      TwoBytes(w.(frames := w.frames + 1), first, code, BigEndian(size, width) + rest);
      PayloadReads(Wire(BigEndian(size, width) + rest, w.frames + 1, w.wire + 2), BigEndian(size, width), rest);
    }
  }

  // ---- this client's own frames ----

  datatype Unframed = Unframed(fin: bool, opcode: nat, payload: seq<Byte>, rest: seq<Byte>)

  /** A server's reading of one masked frame, section 5.3 of RFC 6455. */
  function Unframe(s: seq<Byte>): Option<Unframed> {
    if |s| < 2 || (s[0] / 16) % 8 != 0 || s[1] < 128 then None
    else
      var short := s[1] - 128;
      var extra := if short == 126 then 2 else if short == 127 then 8 else 0;
      if |s| < 2 + extra + 4 then None
      else
        var size := if extra == 0 then short else Number(s[2..2 + extra]);
        var mask, body := s[2 + extra..6 + extra], s[6 + extra..];
        if |body| < size then None
        else Some(Unframed(s[0] >= 128, s[0] % 16, Masked(body[..size], mask), body[size..]))
  }

  lemma UnmaskRestores(payload: seq<Byte>, mask: seq<Byte>)
    requires |mask| == 4
    ensures Masked(Masked(payload, mask), mask) == payload
  {
    forall i | 0 <= i < |payload|
      ensures Masked(Masked(payload, mask), mask)[i] == payload[i]
    {
      XorBack(payload[i], mask[i % 4]);
    }
  }

  /** Every frame this client writes, under any mask, parses and unmasks back to its payload. */
  lemma ClientFrameUnmasks(opcode: nat, payload: seq<Byte>, mask: seq<Byte>, rest: seq<Byte>)
    requires opcode < 16 && |mask| == 4 && |payload| <= MAX_MESSAGE
    ensures Unframe(ClientBytes(opcode, payload, mask) + rest) == Some(Unframed(true, opcode, payload, rest))
  {
    var head, body := [FirstByte(true, opcode)] + LengthField(|payload|, true), Masked(payload, mask) + rest;
    FirstByteParts(true, opcode);
    ClientHead(|payload|);
    assert ClientBytes(opcode, payload, mask) + rest == head + mask + body;
    assert head[1] == LengthField(|payload|, true)[0] && head[2..] == LengthField(|payload|, true)[1..];
    UnframeParts(head, mask, Masked(payload, mask), rest);
    UnmaskRestores(payload, mask);
  }

  /** Reading a frame given as header, mask and masked payload. */
  lemma UnframeParts(head: seq<Byte>, mask: seq<Byte>, masked: seq<Byte>, rest: seq<Byte>)
    requires |masked| <= MAX_MESSAGE && |head| == HeadSize(|masked|) && |mask| == 4
    requires (head[0] / 16) % 8 == 0 && 128 <= head[1]
    requires (head[1] - 128 == 126 <==> |head| == 4) && (head[1] - 128 == 127 <==> |head| == 10)
    requires if |head| == 2 then head[1] - 128 == |masked| else Number(head[2..]) == |masked|
    ensures Unframe(head + mask + (masked + rest)) == Some(Unframed(head[0] >= 128, head[0] % 16, Masked(masked, mask), rest))
  {
    var s := head + mask + (masked + rest);
    Pieces(head, mask, masked + rest);
    assert (masked + rest)[..|masked|] == masked && (masked + rest)[|masked|..] == rest;
  }

  lemma Pieces(a: seq<Byte>, b: seq<Byte>, c: seq<Byte>)
    ensures var s := a + b + c;
            && s[|a|..|a| + |b|] == b && s[|a| + |b|..] == c
            && forall i :: 0 <= i < |a| ==> s[i] == a[i] && s[i..|a|] == a[i..]
  {
  }

  lemma ClientHead(size: nat)
    requires size <= MAX_MESSAGE
    ensures var field := LengthField(size, true);
            && |field| == HeadSize(size) - 1 && 128 <= field[0]
            && (field[0] - 128 == 126 <==> HeadSize(size) == 4) && (field[0] - 128 == 127 <==> HeadSize(size) == 10)
            && if HeadSize(size) == 2 then field[0] - 128 == size else Number(field[1..]) == size
  {
    Powers();
    if size >= 126 {
      NumberOfBigEndian(size, HeadSize(size) - 2);
    }
  }

  /** The wire carries, behind the four mask bytes, the exclusive or of payload and repeated mask: bit by bit, set where they differ. */
  lemma ClientFrameIsMasked(opcode: nat, payload: seq<Byte>, mask: seq<Byte>, i: nat, bit: nat)
    requires opcode < 16 && |mask| == 4 && |payload| <= MAX_MESSAGE && i < |payload| && bit < 8
    ensures var bytes, head := ClientBytes(opcode, payload, mask), HeadSize(|payload|);
            && |bytes| == head + 4 + |payload| && bytes[0] == 128 + opcode && bytes[head..head + 4] == mask
            && (Bit(bytes[head + 4 + i], bit) == 1 <==> Bit(payload[i], bit) != Bit(mask[i % 4], bit))
  {
    var head := [FirstByte(true, opcode)] + LengthField(|payload|, true);
    ClientHead(|payload|);
    Pieces(head, mask, Masked(payload, mask));
    assert ClientBytes(opcode, payload, mask) == head + mask + Masked(payload, mask);
    assert (head + mask + Masked(payload, mask))[|head| + 4 + i] == Masked(payload, mask)[i];
    XorDiffers(payload[i], mask[i % 4], bit);
  }

  /** On the wire a ping is 0x89, and its pong goes out as 0x8A with the ping's own payload. */
  lemma PingIsAnswered(utf8: seq<Byte> -> bool, w: Wire, payload: seq<Byte>, rest: seq<Byte>, complete: seq<Byte>, started: bool, limit: nat, mask: seq<Byte>)
    requires |payload| <= 125 && |mask| == 4 && w.input == [0x89, |payload|] + payload + rest
    requires w.frames + 1 < MAX_FRAMES && w.wire + 2 + |payload| + 2 + 4 + |payload| <= MAX_WIRE
    ensures var s := FrameStep(utf8, w, complete, started, limit);
            && s == Again(Wire(rest, w.frames + 2, w.wire + 2 + |payload| + 2 + 4 + |payload|), complete, started, [payload])
            && ClientBytes(PONG, payload, mask)[..2] == [0x8A, 0x80 + |payload|]
  {
    var f := Frame(true, PING, payload);
    assert ServerBytes(f) == [0x89, |payload|] + payload;
    ControlReads(utf8, w, f, rest, complete, started, limit);
  }

  /** A close, 0x88, ends the reading whatever was gathered. */
  lemma CloseIsRefused(utf8: seq<Byte> -> bool, w: Wire, payload: seq<Byte>, rest: seq<Byte>, complete: seq<Byte>, started: bool, limit: nat)
    requires |payload| <= 125 && w.input == [0x88, |payload|] + payload + rest
    requires w.frames < MAX_FRAMES && w.wire + 2 + |payload| <= MAX_WIRE
    ensures FrameStep(utf8, w, complete, started, limit) == Fail(Closed)
  {
    var f := Frame(true, CLOSE, payload);
    assert ServerBytes(f) == [0x88, |payload|] + payload;
    assert w.input == ServerBytes(f) + rest;
    HeadReads(w, f, rest);
    PayloadReads(Wire(payload + rest, w.frames + 1, w.wire + 2), payload, rest);
  }

  /** One short text frame, 0x81, is the whole message, within 128 frames and eight megabytes of wire. */
  lemma TextIsReturned(utf8: seq<Byte> -> bool, w: Wire, payload: seq<Byte>, rest: seq<Byte>, limit: int)
    requires |payload| <= 125 && |payload| <= limit <= 1048576 && 0 < limit && utf8(payload) && w.input == [0x81, |payload|] + payload + rest
    ensures ReadMessage(utf8, w, limit) == if w.frames < 128 && w.wire + 2 + |payload| <= 8388608
              then Ok(Message(payload, []), Wire(rest, w.frames + 1, w.wire + 2 + |payload|)) else Refused(Bound)
  {
    var f := Frame(true, TEXT, payload);
    assert ServerBytes(f) == [0x81, |payload|] + payload;
    assert w.input == ServerBytes(f) + rest;
    HeadReads(w, f, rest);
    PayloadReads(Wire(payload + rest, w.frames + 1, w.wire + 2), payload, rest);
    assert [] + payload == payload;
    assert 0x81 % 16 == 1;
  }
}
