/** The bounded client connection: chunked receives, budgets, and the latch that a refusal closes. */
module WebSocketClient {
  import opened Bytes
  import opened WebSocket

  datatype Sent = Sent(opcode: nat, payload: seq<Byte>, mask: seq<Byte>)

  datatype Result = Text(text: seq<Byte>) | Refusal(kind: Kind)

  function Outgoing(sent: seq<Sent>): seq<Byte>
    requires forall s :: s in sent ==> s.opcode < 16 && |s.mask| == 4
  {
    if sent == [] then []
    else Outgoing(sent[..|sent| - 1]) + ClientBytes(sent[|sent| - 1].opcode, sent[|sent| - 1].payload, sent[|sent| - 1].mask)
  }

  /** Exactly these pongs were sent after the earlier frames. */
  predicate PongsAfter(before: seq<Sent>, after: seq<Sent>, pongs: seq<seq<Byte>>) {
    && |after| == |before| + |pongs| && before <= after
    && forall i :: 0 <= i < |pongs| ==> after[|before| + i].opcode == PONG && after[|before| + i].payload == pongs[i]
  }

  class MessageConnection {
    const utf8: seq<Byte> -> bool
    /** Whether the deadline never passes and the socket never fails while this connection is used. */
    const reliable: bool
    /** What the peer sends before it closes, and what it has received. */
    var input: seq<Byte>
    var output: seq<Byte>
    var wire: nat
    var frames: nat
    var invalid: bool
    ghost var sent: seq<Sent>

    function Value(): Wire
      reads this
    {
      Wire(input, frames, wire)
    }

    ghost predicate Valid()
      reads this
    {
      (forall s :: s in sent ==> s.opcode < 16 && |s.mask| == 4 && |s.payload| <= MAX_MESSAGE) && output == Outgoing(sent)
    }

    constructor (stream: seq<Byte>, isText: seq<Byte> -> bool, holds: bool)
      ensures Valid() && Value() == Wire(stream, 0, 0) && !invalid && sent == [] && utf8 == isText && reliable == holds
    {
      utf8, reliable := isText, holds;
      input, output, wire, frames, invalid, sent := stream, [], 0, 0, false, [];
    }

    /** A refused connection has no time left, and any other may have run out. */
    method Remaining() returns (left: bool)
      ensures left ==> !invalid
      ensures reliable && !invalid ==> left
    {
      var late: bool := *;
      left := !invalid && (reliable || !late);
    }

    /** One receive: some first bytes of what the peer still sends, or nothing at its end. */
    method Receive(most: nat) returns (failed: bool, chunk: seq<Byte>)
      requires 0 < most
      modifies this`input
      ensures failed ==> !reliable && input == old(input)
      ensures !failed ==> |chunk| <= most && chunk <= old(input) && input == old(input)[|chunk|..] && (chunk == [] <==> old(input) == [])
    {
      failed := *;
      if failed && !reliable {
        return true, [];
      }
      var n: nat := *;
      var size := if 1 <= n <= most && n <= |input| then n else if input == [] then 0 else 1;
      failed, chunk, input := false, input[..size], input[size..];
    }

    /** Reads exactly count bytes, however they arrive. */
    method Exact(count: nat) returns (r: Read<seq<Byte>>)
      modifies this`input, this`wire
      ensures r.Ok? ==> r == WebSocket.Exact(old(Value()), count) && r.next == Value()
      ensures reliable && !invalid ==> r == WebSocket.Exact(old(Value()), count)
      ensures invalid ==> input == old(input) && (0 < count ==> r.Refused?)
    {
      if count > MAX_MESSAGE || wire + count > MAX_WIRE {
        return Refused(Bound);
      }
      var result: seq<Byte> := [];
      while |result| < count
        invariant |result| <= count && result <= old(input) && input == old(input)[|result|..] && wire == old(wire) + |result|
        invariant invalid ==> result == []
        decreases count - |result|
      {
        var left := Remaining();
        if !left {
          return Refused(Deadline);
        }
        var failed, chunk := Receive(if count - |result| < CHUNK then count - |result| else CHUNK);
        if failed {
          return Refused(Io);
        }
        if chunk == [] {
          return Refused(EndOfStream);
        }
        assert old(input) == result + (chunk + input);
        result, wire := result + chunk, wire + |chunk|;
      }
      assert result == old(input)[..count];
      r := Ok(result, Value());
    }

    /** Sends one masked frame under a fresh mask. */
    method SendFrame(opcode: nat, payload: seq<Byte>) returns (r: Read<seq<Byte>>)
      requires Valid() && opcode < 16
      modifies this
      ensures Valid() && input == old(input) && invalid == old(invalid)
      ensures r.Ok? ==> r == WebSocket.SendFrame(old(Value()), payload) && r.next == Value()
      ensures reliable && !invalid ==> r == WebSocket.SendFrame(old(Value()), payload)
      ensures r.Ok? ==> |sent| == |old(sent)| + 1 && old(sent) <= sent && sent[|old(sent)|].opcode == opcode && sent[|old(sent)|].payload == payload
      ensures r.Refused? ==> sent == old(sent)
      ensures invalid ==> r.Refused?
    {
      if |payload| > MAX_MESSAGE || frames >= MAX_FRAMES {
        return Refused(Bound);
      }
      frames := frames + 1;
      var a: Byte, b: Byte, c: Byte, d: Byte := *, *, *, *;
      var mask := [a, b, c, d];
      var bytes := ClientBytes(opcode, payload, mask);
      ClientSize(opcode, payload, mask);
      if wire + |bytes| > MAX_WIRE {
        return Refused(Bound);
      }
      var left := Remaining();
      if !left {
        return Refused(Deadline);
      }
      var failed: bool := *;
      if failed && !reliable {
        return Refused(Io);
      }
      output, wire := output + bytes, wire + |bytes|;
      sent := sent + [Sent(opcode, payload, mask)];
      assert sent[..|sent| - 1] == old(sent);
      r := Ok(payload, Value());
    }

    method ReadSize(short: nat) returns (r: Read<nat>)
      modifies this`input, this`wire
      ensures r.Ok? ==> r == WebSocket.ReadSize(old(Value()), short) && r.next == Value()
      ensures reliable && !invalid ==> r == WebSocket.ReadSize(old(Value()), short)
      ensures invalid ==> input == old(input)
    {
      if short == 126 {
        var e := Exact(2);
        if e.Refused? {
          return Refused(e.kind);
        }
        var size := Number(e.value);
        return if size < 126 then Refused(BadFrame) else Ok(size, Value());
      }
      if short == 127 {
        var e := Exact(8);
        if e.Refused? {
          return Refused(e.kind);
        }
        var size := Number(e.value);
        return if !(65535 < size < 0x8000_0000_0000_0000) then Refused(BadFrame) else Ok(size, Value());
      }
      r := Ok(short, Value());
    }

    method ReadHead() returns (r: Read<Head>)
      modifies this`input, this`wire, this`frames
      ensures r.Ok? ==> r == WebSocket.ReadHead(old(Value())) && r.next == Value()
      ensures reliable && !invalid ==> r == WebSocket.ReadHead(old(Value()))
      ensures invalid ==> r.Refused? && input == old(input)
    {
      if frames >= MAX_FRAMES {
        return Refused(Bound);
      }
      frames := frames + 1;
      var e := Exact(2);
      if e.Refused? {
        return Refused(e.kind);
      }
      var first, second := e.value[0], e.value[1];
      if (first / 16) % 8 != 0 || second >= 128 {
        return Refused(BadFrame);
      }
      var size := ReadSize(second % 128);
      if size.Refused? {
        return Refused(size.kind);
      }
      r := Ok(Head(first >= 128, first % 16, size.value), Value());
    }

    /** A ping is answered at once with its own payload, a pong is dropped, a close refuses. */
    method ControlFrame(h: Head, complete: seq<Byte>, started: bool) returns (s: Step)
      requires Valid() && IsControl(h.opcode) && !invalid
      modifies this
      ensures Valid() && !invalid && !s.Stop?
      ensures s.Again? ==> s == ControlStep(h, old(Value()), complete, started) && s.next == Value() && PongsAfter(old(sent), sent, s.pongs)
      ensures reliable ==> s == ControlStep(h, old(Value()), complete, started)
    {
      if !h.fin || h.size > 125 {
        return Fail(BadFrame);
      }
      var p := Exact(h.size);
      if p.Refused? {
        return Fail(p.kind);
      }
      if h.opcode == CLOSE {
        return Fail(Closed);
      }
      if h.opcode == PING {
        var pong := SendFrame(PONG, p.value);
        if pong.Refused? {
          return Fail(pong.kind);
        }
        return Again(Value(), complete, started, [p.value]);
      }
      s := Again(Value(), complete, started, []);
    }

    method DataFrame(h: Head, complete: seq<Byte>, started: bool, limit: nat) returns (s: Step)
      requires !invalid
      modifies this`input, this`wire
      ensures s.Again? || s.Stop? ==> s == DataStep(utf8, h, old(Value()), complete, started, limit)
      ensures s.Again? ==> s.next == Value() && s.pongs == []
      ensures s.Stop? ==> s.end == Value()
      ensures reliable ==> s == DataStep(utf8, h, old(Value()), complete, started, limit)
    {
      if h.opcode != (if started then CONTINUATION else TEXT) {
        return Fail(BadFrame);
      }
      if |complete| + h.size > limit {
        return Fail(Bound);
      }
      var p := Exact(h.size);
      if p.Refused? {
        return Fail(p.kind);
      }
      if !h.fin {
        return Again(Value(), complete + p.value, true, []);
      }
      s := if utf8(complete + p.value) then Stop(complete + p.value, Value()) else Fail(BadText);
    }

    /** One frame of the reading loop. */
    method OneFrame(complete: seq<Byte>, started: bool, limit: nat) returns (s: Step)
      requires Valid()
      modifies this
      ensures Valid() && invalid == old(invalid)
      ensures !s.Fail? ==> s == FrameStep(utf8, old(Value()), complete, started, limit) && !invalid
      ensures s.Again? ==> s.next == Value() && PongsAfter(old(sent), sent, s.pongs)
      ensures s.Stop? ==> s.end == Value() && sent == old(sent)
      ensures reliable && !invalid ==> s == FrameStep(utf8, old(Value()), complete, started, limit)
      ensures invalid ==> s.Fail? && input == old(input) && sent == old(sent)
    {
      var h := ReadHead();
      if h.Refused? {
        return Fail(h.kind);
      }
      if IsControl(h.value.opcode) {
        s := ControlFrame(h.value, complete, started);
      } else {
        s := DataFrame(h.value, complete, started, limit);
      }
    }

    /** Reads one message, or refuses and latches the connection. */
    method ReadMessage(limit: int) returns (result: Result)
      requires Valid()
      modifies this
      ensures Valid()
      ensures result.Refusal? ==> invalid
      ensures old(invalid) ==> result.Refusal? && input == old(input) && sent == old(sent)
      ensures result.Text? ==>
                var spec := WebSocket.ReadMessage(utf8, old(Value()), limit);
                spec.Ok? && spec.value.text == result.text && spec.next == Value() && PongsAfter(old(sent), sent, spec.value.pongs) && !invalid
      ensures reliable && !old(invalid) ==>
                var spec := WebSocket.ReadMessage(utf8, old(Value()), limit);
                (result.Text? <==> spec.Ok?) && (result.Refusal? ==> result.kind == spec.kind)
    {
      if !(0 < limit <= MAX_MESSAGE) {
        invalid := true;
        return Refusal(Bound);
      }
      var complete: seq<Byte>, started := [], false;
      ghost var pongs: seq<seq<Byte>> := [];
      NoPongs(ReadFrames(utf8, Value(), [], false, limit));
      while true
        invariant Valid() && invalid == old(invalid) && PongsAfter(old(sent), sent, pongs)
        invariant ReadFrames(utf8, old(Value()), [], false, limit) == WithPongs(pongs, ReadFrames(utf8, Value(), complete, started, limit))
        invariant invalid ==> input == old(input) && sent == old(sent)
        decreases |input|
      {
        ghost var before := sent;
        var s := OneFrame(complete, started, limit);
        match s
        case Fail(kind) =>
          invalid := true;
          return Refusal(kind);
        case Stop(text, _) =>
          assert pongs + [] == pongs;
          return Text(text);
        case Again(_, more, on, answered) =>
          MorePongs(old(sent), before, sent, pongs, answered, ReadFrames(utf8, Value(), more, on, limit));
          pongs := pongs + answered;
          complete, started := more, on;
      }
    }

    /** Sends one line as a text frame without its newline, or refuses and latches the connection. */
    method SendAll(value: seq<Byte>) returns (ok: bool)
      requires Valid()
      modifies this
      ensures Valid() && input == old(input)
      ensures ok ==> value != [] && value[|value| - 1] == 10 && !invalid
      ensures ok ==> |sent| == |old(sent)| + 1 && old(sent) <= sent
      ensures ok ==> sent[|old(sent)|].opcode == TEXT && sent[|old(sent)|].payload == value[..|value| - 1]
      ensures ok ==> WebSocket.SendFrame(old(Value()), value[..|value| - 1]) == Ok(value[..|value| - 1], Value())
      ensures !ok ==> invalid && sent == old(sent)
      ensures old(invalid) ==> !ok
      ensures reliable && !old(invalid) ==>
                (ok <==> value != [] && value[|value| - 1] == 10 && WebSocket.SendFrame(old(Value()), value[..|value| - 1]).Ok?)
    {
      if value == [] || value[|value| - 1] != 10 {
        invalid := true;
        return false;
      }
      var r := SendFrame(TEXT, value[..|value| - 1]);
      if r.Refused? {
        invalid := true;
        return false;
      }
      ok := true;
    }
  }

  lemma NoPongs(r: Read<Message>)
    ensures WithPongs([], r) == r
  {
    if r.Ok? {
      assert [] + r.value.pongs == r.value.pongs;
    }
  }

  lemma MorePongs(start: seq<Sent>, before: seq<Sent>, after: seq<Sent>, pongs: seq<seq<Byte>>, answered: seq<seq<Byte>>, r: Read<Message>)
    requires PongsAfter(start, before, pongs) && PongsAfter(before, after, answered)
    ensures PongsAfter(start, after, pongs + answered)
    ensures WithPongs(pongs, WithPongs(answered, r)) == WithPongs(pongs + answered, r)
  {
    assert forall i :: 0 <= i < |start| ==> start[i] == before[i] == after[i];
    forall i | 0 <= i < |pongs + answered|
      ensures after[|start| + i].opcode == PONG && after[|start| + i].payload == (pongs + answered)[i]
    {
      if i < |pongs| {
        assert after[|start| + i] == before[|start| + i] && (pongs + answered)[i] == pongs[i];
        assert before[|start| + i].opcode == PONG && before[|start| + i].payload == pongs[i];
      } else {
        var k := i - |pongs|;
        assert |before| + k == |start| + i && (pongs + answered)[i] == answered[k];
        assert after[|before| + k].opcode == PONG && after[|before| + k].payload == answered[k];
      }
    }
    WithMorePongs(pongs, answered, r);
  }

  lemma WithMorePongs(pongs: seq<seq<Byte>>, answered: seq<seq<Byte>>, r: Read<Message>)
    ensures WithPongs(pongs, WithPongs(answered, r)) == WithPongs(pongs + answered, r)
  {
    if r.Ok? {
      var inner := WithPongs(answered, r);
      assert inner.value.pongs == answered + r.value.pongs;
      Associates(pongs, answered, r.value.pongs);
      assert pongs + inner.value.pongs == pongs + answered + r.value.pongs;
    }
  }

  lemma Associates<T>(a: seq<T>, b: seq<T>, c: seq<T>)
    ensures a + (b + c) == (a + b) + c
  {
  }

  lemma ClientSize(opcode: nat, payload: seq<Byte>, mask: seq<Byte>)
    requires opcode < 16 && |mask| == 4
    ensures |ClientBytes(opcode, payload, mask)| == HeadSize(|payload|) + 4 + |payload|
  {
  }
}
