/** Reading a transcript tail for the end of a blocked turn, and the compare-and-set that records it. */
module TurnEnd {
  import opened Bytes
  import opened Options

  const NEWLINE: Byte := 10

  predicate IsBlankByte(b: Byte) {
    b == 32 || 9 <= b <= 13
  }

  function Trimmed(s: seq<Byte>): seq<Byte> {
    if s == [] then s
    else if IsBlankByte(s[0]) then Trimmed(s[1..])
    else if IsBlankByte(s[|s| - 1]) then Trimmed(s[..|s| - 1])
    else s
  }

  function IndexOfNewline(s: seq<Byte>): (i: nat)
    ensures i <= |s| && (i < |s| ==> s[i] == NEWLINE) && forall j :: 0 <= j < i ==> s[j] != NEWLINE
  {
    if s == [] || s[0] == NEWLINE then 0 else 1 + IndexOfNewline(s[1..])
  }

  /** The pieces between newlines; a text without one is a single piece. */
  function Split(s: seq<Byte>): (pieces: seq<seq<Byte>>)
    ensures pieces != []
    decreases |s|
  {
    var i := IndexOfNewline(s);
    if i == |s| then [s] else [s[..i]] + Split(s[i + 1..])
  }

  /** Trimming leaves nothing exactly of a piece of ASCII white space. */
  lemma {:induction false} TrimmedToNothing(s: seq<Byte>)
    ensures Trimmed(s) == [] <==> forall i :: 0 <= i < |s| ==> s[i] in {9, 10, 11, 12, 13, 32}
    decreases |s|
  {
    if s != [] && IsBlankByte(s[0]) {
      TrimmedToNothing(s[1..]);
      assert forall i :: 0 < i < |s| ==> s[i] == s[1..][i - 1];
      assert forall i :: 0 <= i < |s[1..]| ==> s[1..][i] == s[i + 1];
    } else if s != [] && IsBlankByte(s[|s| - 1]) {
      var init := s[..|s| - 1];
      TrimmedToNothing(init);
      assert forall i :: 0 <= i < |init| ==> init[i] == s[i];
      assert s[0] !in {9, 10, 11, 12, 13, 32};
      assert init != [] && init[0] == s[0];
    }
  }

  /** What the release reads of one transcript line. */
  datatype Line = Malformed | TurnDuration(timestamp: string) | Assistant(message: Message) | Other

  datatype Message = Absent | Unreadable | NoItems | Items(types: seq<string>)

  /** A message whose shape cannot be read counts as a tool use. */
  predicate MayUseTool(m: Message) {
    m.Unreadable? || (m.Items? && "tool_use" in m.types)
  }

  predicate UsesTool(line: Line) {
    line.Assistant? && MayUseTool(line.message)
  }

  /** The two decoders are parameters: a line as JSON, and an RFC 3339 timestamp. */
  datatype Decoder = Decoder(line: seq<Byte> -> Line, time: string -> Option<int>)

  function Decoded(d: Decoder, pieces: seq<seq<Byte>>): seq<Line> {
    if pieces == [] then []
    else
      var raw := Trimmed(pieces[0]);
      (if raw == [] then [] else [d.line(raw)]) + Decoded(d, pieces[1..])
  }

  function Lines(d: Decoder, text: seq<Byte>): seq<Line> {
    Decoded(d, Split(text))
  }

  predicate AllRead(lines: seq<Line>) {
    forall i :: 0 <= i < |lines| ==> !lines[i].Malformed?
  }

  /** Line i is the last turn end, it is stamped after the block, and no tool use follows it. */
  predicate EndsAt(d: Decoder, lines: seq<Line>, i: nat, blockedAt: int) {
    && i < |lines| && lines[i].TurnDuration?
    && (forall j :: i < j < |lines| ==> !lines[j].TurnDuration? && !UsesTool(lines[j]))
    && d.time(lines[i].timestamp).Some? && blockedAt < d.time(lines[i].timestamp).value
  }

  ghost predicate ShowsEnd(d: Decoder, lines: seq<Line>, blockedAt: int) {
    AllRead(lines) && exists i: nat :: EndsAt(d, lines, i, blockedAt)
  }

  /** The judgment over the whole lines of the tail; a head cut inside a line is dropped up to its newline. */
  method ClaudeTurnEndedAfter(d: Decoder, tail: seq<Byte>, truncatedHead: bool, blockedAt: int) returns (ended: bool)
    ensures ended <==> (truncatedHead ==> NEWLINE in tail) && ShowsEnd(d, Lines(d, Kept(tail, truncatedHead)), blockedAt)
  {
    var text := tail;
    if truncatedHead {
      var newline := IndexOfNewline(tail);
      if newline == |tail| {
        return false;
      }
      text := tail[newline + 1..];
    }
    assert text == Kept(tail, truncatedHead);
    var broken, turnEnd, found, toolUseAfter, last := ScanLines(d, Split(text));
    if broken || !found || toolUseAfter {
      return false;
    }
    var at := d.time(turnEnd);
    ended := at.Some? && blockedAt < at.value;
    if ended {
      assert EndsAt(d, Lines(d, text), last, blockedAt);
    }
  }

  /** One pass over the lines, remembering the last turn end and whether a tool use follows it. */
  method ScanLines(d: Decoder, pieces: seq<seq<Byte>>)
    returns (broken: bool, turnEnd: string, found: bool, toolUseAfter: bool, ghost last: nat)
    ensures broken <==> !AllRead(Decoded(d, pieces))
    ensures !broken ==> Tracks(Decoded(d, pieces), last, turnEnd, found, toolUseAfter)
  {
    broken, turnEnd, found, toolUseAfter, last := false, "", false, false, 0;
    ghost var read: seq<Line> := [];
    for n := 0 to |pieces|
      invariant read == Decoded(d, pieces[..n]) && AllRead(read) && !broken
      invariant Tracks(read, last, turnEnd, found, toolUseAfter)
    {
      DecodedNext(d, pieces, n);
      var raw := Trimmed(pieces[n]);
      if raw == [] {
        continue;
      }
      var line := d.line(raw);
      if line.Malformed? {
        assert Decoded(d, pieces)[|read|] == line;
        broken := true;
        return;
      }
      TracksNext(read, last, turnEnd, found, toolUseAfter, line);
      if line.TurnDuration? {
        turnEnd, found, toolUseAfter := line.timestamp, true, false;
        last := |read|;
      } else if line.Assistant? && found {
        if MayUseTool(line.message) {
          toolUseAfter := true;
        }
      }
      read := read + [line];
    }
    assert pieces[..|pieces|] == pieces;
  }

  lemma DecodedNext(d: Decoder, pieces: seq<seq<Byte>>, n: nat)
    requires n < |pieces|
    ensures Decoded(d, pieces[..n + 1]) == Decoded(d, pieces[..n]) + Decoded(d, [pieces[n]])
    ensures Decoded(d, pieces) == Decoded(d, pieces[..n + 1]) + Decoded(d, pieces[n + 1..])
  {
    assert pieces[..n + 1] == pieces[..n] + [pieces[n]] && pieces == pieces[..n + 1] + pieces[n + 1..];
    DecodedJoins(d, pieces[..n], [pieces[n]]);
    DecodedJoins(d, pieces[..n + 1], pieces[n + 1..]);
  }

  /** The scan's variables describe the last turn end among the lines read so far. */
  ghost predicate Tracks(read: seq<Line>, last: nat, turnEnd: string, found: bool, toolUseAfter: bool) {
    if found then
      && last < |read| && read[last] == TurnDuration(turnEnd)
      && (forall j :: last < j < |read| ==> !read[j].TurnDuration?)
      && (toolUseAfter <==> exists j :: last < j < |read| && UsesTool(read[j]))
    else
      !toolUseAfter && forall j :: 0 <= j < |read| ==> !read[j].TurnDuration?
  }

  lemma TracksNext(read: seq<Line>, last: nat, turnEnd: string, found: bool, toolUseAfter: bool, line: Line)
    requires Tracks(read, last, turnEnd, found, toolUseAfter)
    ensures line.TurnDuration? ==> Tracks(read + [line], |read|, line.timestamp, true, false)
    ensures !line.TurnDuration? ==> Tracks(read + [line], last, turnEnd, found, toolUseAfter || (found && UsesTool(line)))
  {
    var next := read + [line];
    assert forall j :: 0 <= j < |read| ==> next[j] == read[j];
    if found && UsesTool(line) {
      assert UsesTool(next[|read|]);
    }
    if toolUseAfter {
      var j :| last < j < |read| && UsesTool(read[j]);
      assert UsesTool(next[j]);
    }
  }

  function Kept(tail: seq<Byte>, truncatedHead: bool): seq<Byte> {
    var newline := IndexOfNewline(tail);
    if !truncatedHead then tail else if newline == |tail| then [] else tail[newline + 1..]
  }

  lemma {:induction false} SplitJoins(a: seq<Byte>, b: seq<Byte>)
    ensures Split(a + [NEWLINE] + b) == Split(a) + Split(b)
    decreases |a|
  {
    var i := IndexOfNewline(a);
    if i == |a| {
      JoinsWhole(a, b);
    } else {
      SplitJoins(a[i + 1..], b);
      JoinsBehind(a, b, i);
    }
  }

  predicate FirstNewline(s: seq<Byte>, i: nat) {
    i < |s| && s[i] == NEWLINE && forall j :: 0 <= j < i ==> s[j] != NEWLINE
  }

  lemma JoinsWhole(a: seq<Byte>, b: seq<Byte>)
    requires IndexOfNewline(a) == |a|
    ensures Split(a + [NEWLINE] + b) == Split(a) + Split(b)
  {
    var s := a + [NEWLINE] + b;
    assert FirstNewline(s, |a|) && s[..|a|] == a && s[|a| + 1..] == b;
    SplitAt(s, |a|);
  }

  lemma JoinsBehind(a: seq<Byte>, b: seq<Byte>, i: nat)
    requires FirstNewline(a, i) && Split(a[i + 1..] + [NEWLINE] + b) == Split(a[i + 1..]) + Split(b)
    ensures Split(a + [NEWLINE] + b) == Split(a) + Split(b)
  {
    BehindNewline(a, b, i);
    SplitAt(a + [NEWLINE] + b, i);
    SplitAt(a, i);
    Associates([a[..i]], Split(a[i + 1..]), Split(b));
  }

  lemma BehindNewline(a: seq<Byte>, b: seq<Byte>, i: nat)
    requires FirstNewline(a, i)
    ensures var s := a + [NEWLINE] + b; FirstNewline(s, i) && s[..i] == a[..i] && s[i + 1..] == a[i + 1..] + [NEWLINE] + b
  {
  }

  lemma Associates<T>(a: seq<T>, b: seq<T>, c: seq<T>)
    ensures a + (b + c) == a + b + c
  {
  }

  lemma SplitAt(s: seq<Byte>, i: nat)
    requires FirstNewline(s, i)
    ensures Split(s) == [s[..i]] + Split(s[i + 1..])
  {
    IndexIsFirst(s, i);
  }

  lemma {:induction false} IndexIsFirst(s: seq<Byte>, i: nat)
    requires FirstNewline(s, i)
    ensures IndexOfNewline(s) == i
  {
  }

  lemma {:induction false} DecodedJoins(d: Decoder, p: seq<seq<Byte>>, q: seq<seq<Byte>>)
    ensures Decoded(d, p + q) == Decoded(d, p) + Decoded(d, q)
  {
    if p == [] {
      assert p + q == q;
    } else {
      assert (p + q)[1..] == p[1..] + q;
      DecodedJoins(d, p[1..], q);
    }
  }

  lemma CutAtNewline(full: seq<Byte>, cut: nat, newline: nat)
    requires cut <= |full| && newline < |full| - cut && full[cut..][newline] == NEWLINE
    ensures full == full[..cut + newline] + [NEWLINE] + full[cut..][newline + 1..]
  {
    assert full[cut..][newline + 1..] == full[cut + newline + 1..];
    assert full == full[..cut + newline] + [full[cut + newline]] + full[cut + newline + 1..];
  }

  lemma KeptFollows(tail: seq<Byte>)
    requires NEWLINE in tail
    ensures IndexOfNewline(tail) < |tail| && tail[IndexOfNewline(tail)] == NEWLINE
    ensures Kept(tail, true) == tail[IndexOfNewline(tail) + 1..]
  {
  }

  /** What a tail cut anywhere still shows of the whole: its last complete lines. */
  lemma KeptIsSuffix(d: Decoder, full: seq<Byte>, cut: nat) returns (head: seq<Line>)
    requires cut <= |full| && NEWLINE in full[cut..]
    ensures Lines(d, full) == head + Lines(d, Kept(full[cut..], true)) && head == Lines(d, full[..cut + IndexOfNewline(full[cut..])])
  {
    KeptFollows(full[cut..]);
    head := LinesCut(d, full, cut, IndexOfNewline(full[cut..]));
  }

  lemma LinesCut(d: Decoder, full: seq<Byte>, cut: nat, newline: nat) returns (head: seq<Line>)
    requires cut <= |full| && newline < |full| - cut && full[cut..][newline] == NEWLINE
    ensures Lines(d, full) == head + Lines(d, full[cut..][newline + 1..]) && head == Lines(d, full[..cut + newline])
  {
    CutAtNewline(full, cut, newline);
    LinesJoin(d, full[..cut + newline], full[cut..][newline + 1..]);
    head := Lines(d, full[..cut + newline]);
  }

  lemma LinesJoin(d: Decoder, before: seq<Byte>, rest: seq<Byte>)
    ensures Lines(d, before + [NEWLINE] + rest) == Lines(d, before) + Lines(d, rest)
  {
    SplitJoins(before, rest);
    DecodedJoins(d, Split(before), Split(rest));
  }

  /** The answer depends only on the suffix from the last turn end on. */
  lemma SuffixDecides(d: Decoder, head: seq<Line>, rest: seq<Line>, blockedAt: int)
    requires AllRead(head + rest)
    ensures ShowsEnd(d, rest, blockedAt) <==> ShowsEnd(d, head + rest, blockedAt) && exists i :: 0 <= i < |rest| && rest[i].TurnDuration?
  {
    var whole := head + rest;
    assert forall j :: 0 <= j < |rest| ==> rest[j] == whole[|head| + j];
    if i: nat :| EndsAt(d, rest, i, blockedAt) {
      forall j | |head| + i < j < |whole|
        ensures !whole[j].TurnDuration? && !UsesTool(whole[j])
      {
        assert whole[j] == rest[j - |head|];
      }
      assert EndsAt(d, whole, |head| + i, blockedAt);
    }
    if i: nat, k: nat :| EndsAt(d, whole, i, blockedAt) && k < |rest| && rest[k].TurnDuration? {
      assert whole[|head| + k].TurnDuration?;
      assert |head| <= i && whole[i] == rest[i - |head|];
      assert EndsAt(d, rest, i - |head|, blockedAt);
    }
  }

  /** Each further line decides anew: a readable one keeps the turn ended unless it may use a tool; a later turn end takes over. */
  lemma NextLineDecides(d: Decoder, lines: seq<Line>, line: Line, blockedAt: int)
    requires AllRead(lines)
    ensures ShowsEnd(d, lines + [line], blockedAt) <==>
              match line
              case Malformed => false
              case TurnDuration(timestamp) => d.time(timestamp).Some? && blockedAt < d.time(timestamp).value
              case Assistant(message) =>
                ShowsEnd(d, lines, blockedAt) && message != Unreadable && (message.Items? ==> "tool_use" !in message.types)
              case Other => ShowsEnd(d, lines, blockedAt)
  {
    var whole := lines + [line];
    assert forall j :: 0 <= j < |lines| ==> whole[j] == lines[j];
    assert whole[|lines|] == line;
    if i: nat :| EndsAt(d, lines, i, blockedAt) && !line.TurnDuration? && !UsesTool(line) {
      assert EndsAt(d, whole, i, blockedAt);
    }
    if i: nat :| EndsAt(d, whole, i, blockedAt) {
      assert i < |lines| ==> EndsAt(d, lines, i, blockedAt);
    }
    if line.TurnDuration? && d.time(line.timestamp).Some? && blockedAt < d.time(line.timestamp).value {
      assert EndsAt(d, whole, |lines|, blockedAt);
    }
  }

  /** No line at all shows no end. */
  lemma NothingShowsNoEnd(d: Decoder, blockedAt: int)
    ensures AllRead([]) && !ShowsEnd(d, [], blockedAt)
  {
  }

  /** Reading only a tail refines reading the whole transcript, wherever the tail was cut. */
  lemma TailRefinesWhole(d: Decoder, full: seq<Byte>, cut: nat, blockedAt: int)
    requires cut <= |full| && AllRead(Lines(d, full)) && NEWLINE in full[cut..]
    ensures var kept := Lines(d, Kept(full[cut..], true));
            ShowsEnd(d, kept, blockedAt) <==>
            ShowsEnd(d, Lines(d, full), blockedAt) && exists i :: 0 <= i < |kept| && kept[i].TurnDuration?
  {
    var head := KeptIsSuffix(d, full, cut);
    SuffixDecides(d, head, Lines(d, Kept(full[cut..], true)), blockedAt);
  }

  /** A true answer on a tail carries over to the whole transcript exactly when no line before the cut is malformed. */
  lemma TrueTailCarriesExactlyWhen(d: Decoder, full: seq<Byte>, cut: nat, blockedAt: int)
    requires cut <= |full| && NEWLINE in full[cut..] && ShowsEnd(d, Lines(d, Kept(full[cut..], true)), blockedAt)
    ensures ShowsEnd(d, Lines(d, full), blockedAt) <==> AllRead(Lines(d, full[..cut + IndexOfNewline(full[cut..])]))
  {
    var head := KeptIsSuffix(d, full, cut);
    var kept := Lines(d, Kept(full[cut..], true));
    assert forall i :: 0 <= i < |head| ==> head[i] == (head + kept)[i];
    if AllRead(head) {
      SuffixDecides(d, head, kept, blockedAt);
    }
  }

  // ---- recording the turn end ----

  datatype Interaction = Interaction(kind: string, observedAt: int)

  datatype AgentRow = AgentRow(running: bool, pane: string, interaction: Interaction)

  const RESPONSE_COMPLETE := "response_complete"

  /** The row still carries the very observation that was judged. */
  predicate StillBlocked(row: AgentRow, target: AgentRow) {
    row.running && row.pane == target.pane && row.interaction == target.interaction
  }

  class Registry {
    var agents: map<string, AgentRow>
    var now: int

    constructor (rows: map<string, AgentRow>, clock: int)
      ensures agents == rows && now == clock
    {
      agents, now := rows, clock;
    }

    /** Other writers may change any row between two locked updates. */
    method Interfere()
      modifies this
    {
    }

    /** One locked compare-and-set: a newer observation, a moved pane or a stopped Agent refuses it. */
    method CommitTurnEnd(uid: string, target: AgentRow, writable: bool) returns (committed: bool)
      modifies this`agents
      ensures committed <==> writable && uid in old(agents) && StillBlocked(old(agents)[uid], target)
      ensures committed ==> agents == old(agents)[uid := target.(running := true, interaction := Interaction(RESPONSE_COMPLETE, now))]
      ensures !committed ==> agents == old(agents)
    {
      if uid !in agents || !StillBlocked(agents[uid], target) {
        return false;
      }
      if !writable {
        return false;
      }
      agents := agents[uid := agents[uid].(interaction := Interaction(RESPONSE_COMPLETE, now))];
      committed := true;
    }

    /** True only when the transcript shows the blocked turn ended and that block was still the stored one. */
    method EndBlockedTurn(d: Decoder, uid: string, target: AgentRow, path: string, readable: bool, tail: seq<Byte>, truncated: bool, writable: bool)
      returns (ended: bool)
      modifies this
      ensures ended ==> path != "" && readable && (truncated ==> NEWLINE in tail)
      ensures ended ==> ShowsEnd(d, Lines(d, Kept(tail, truncated)), target.interaction.observedAt)
      ensures !ended && writable && path != "" && readable && (truncated ==> NEWLINE in tail)
                && ShowsEnd(d, Lines(d, Kept(tail, truncated)), target.interaction.observedAt)
              ==> uid !in agents || !StillBlocked(agents[uid], target)
      ensures ended ==> uid in agents && agents[uid] == target.(running := true, interaction := Interaction(RESPONSE_COMPLETE, now))
    {
      if path == "" || !readable {
        return false;
      }
      var shows := ClaudeTurnEndedAfter(d, tail, truncated, target.interaction.observedAt);
      if !shows {
        return false;
      }
      Interfere();
      ended := CommitTurnEnd(uid, target, writable);
    }
  }
}
