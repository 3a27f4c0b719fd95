/** When a result part reaches the provider more than once, over every run with crashes. */
module OutboxSafety {
  import opened Outbox

  /** A reference that can still reach the provider without a late write, or already has. */
  predicate Live(m: Message) {
    m.written || !KnownFailure(m)
  }

  /** The references of part n that the provider received. */
  function Written(w: World, n: nat): set<Ref> {
    set r | r in w.messages && r.part == n && w.messages[r].written
  }

  /** A reference of part n is a known failure although the provider received it. */
  ghost predicate Betrayed(w: World, n: nat) {
    exists r :: r in w.messages && r.part == n && w.messages[r].written && KnownFailure(w.messages[r])
  }

  /** Two references of part n reached the provider, one of them a known failure. */
  ghost predicate ResentPastFailure(w: World, n: nat) {
    exists r, q :: r in Written(w, n) && q in Written(w, n) && r != q && KnownFailure(w.messages[r])
  }

  // ---------------------------------------------------------------- the invariant, part by part

  ghost predicate MessageInv(w: World, r: Ref, m: Message) {
    && r.part < |w.parts| && r.attempt <= w.parts[r.part].attempt && w.resultDeadline <= m.deadline
    && (m.verdict.Delivered? ==> m.written)
    && (m.verdict.Expired? ==> m.deadline <= w.clock)
  }

  ghost predicate StoreInv(w: World) {
    forall r :: r in w.messages ==> MessageInv(w, r, w.messages[r])
  }

  ghost predicate PhaseInv(w: World) {
    match w.phase
    case Idle => true
    case Calling(n) => n < |w.parts| && w.parts[n].state.Sending? && RefOf(w, n) !in w.messages
    case Admitted(n) => n < |w.parts| && w.parts[n].state.Sending? && RefOf(w, n) !in w.messages
    case Refused(n) => n < |w.parts| && w.parts[n].state.Sending? && RefOf(w, n) !in w.messages
    case InFlight(n) => n < |w.parts| && w.parts[n].state.Sending? && RefOf(w, n) in w.messages
    case Doubting(n) => n < |w.parts| && Unfinished(w.parts[n])
    case Holding(n, receipt) =>
      && n < |w.parts| && Unfinished(w.parts[n]) && RefOf(w, n) in w.messages
      && var m := w.messages[RefOf(w, n)];
      && (receipt.Failed? ==> KnownFailure(m)) && (receipt.Expired? ==> m.deadline <= w.clock) && (receipt.Delivered? ==> m.written)
  }

  ghost predicate PartsInv(w: World) {
    && (forall n :: 0 <= n < |w.parts| && w.parts[n].state.ToSend? ==> RefOf(w, n) !in w.messages)
    && (w.outcome.AllDelivered? ==> forall n :: 0 <= n < |w.parts| ==> w.parts[n].state.Settled?)
  }

  /** Writes are counted, and a settled part was written. */
  ghost predicate CountInv(w: World, n: nat) {
    && w.writes[n] == |Written(w, n)|
    && (n < |w.parts| && w.parts[n].state.Settled? ==> Written(w, n) != {})
  }

  /** Of a part without a betrayal one reference is live: the current one, or an older one past its deadline. */
  ghost predicate OneLive(w: World, n: nat) {
    && (forall r, q :: r in w.messages && q in w.messages && r.part == n && q.part == n && Live(w.messages[r]) && Live(w.messages[q]) ==> r == q)
    && (forall r :: r in w.messages && r.part == n && n < |w.parts| && r.attempt < w.parts[n].attempt && Live(w.messages[r]) ==> w.messages[r].deadline <= w.clock)
    && (w.phase == Admitted(n) ==> forall r :: r in w.messages && r.part == n ==> !Live(w.messages[r]))
  }

  ghost predicate Common(w: World) {
    StoreInv(w) && PhaseInv(w) && PartsInv(w)
  }

  ghost predicate Inv(w: World, n: nat) {
    Common(w) && CountInv(w, n) && (Betrayed(w, n) || OneLive(w, n))
  }

  // ---------------------------------------------------------------- every step, the surroundings first

  lemma NextKeepsInv(w: World, e: Event, n: nat)
    requires Inv(w, n) && Enabled(w, e)
    ensures Inv(Next(w, e), n)
  {
    NextKeepsCommon(w, e);
    NextKeepsCount(w, e, n);
    if !Betrayed(Next(w, e), n) {
      BetrayalStays(w, e, n);
      NextKeepsOneLive(w, e, n);
    }
  }

  /** A betrayal stays on record. */
  lemma BetrayalStays(w: World, e: Event, n: nat)
    requires Enabled(w, e) && PhaseInv(w)
    ensures Betrayed(w, n) ==> Betrayed(Next(w, e), n)
  {
    if Betrayed(w, n) {
      var r :| r in w.messages && r.part == n && w.messages[r].written && KnownFailure(w.messages[r]);
      assert r in Next(w, e).messages && Next(w, e).messages[r].written && KnownFailure(Next(w, e).messages[r]);
    }
  }

  /** Worlds that differ in one message, which keeps its part's bounds and its truth. */
  lemma MessageMoves(w: World, u: World, ref: Ref)
    requires Common(w) && ref in w.messages && ref in u.messages
    requires u == w.(messages := w.messages[ref := u.messages[ref]], writes := u.writes)
    requires MessageInv(w, ref, u.messages[ref])
    requires w.messages[ref].written ==> u.messages[ref].written
    requires KnownFailure(w.messages[ref]) ==> KnownFailure(u.messages[ref])
    requires u.messages[ref].deadline == w.messages[ref].deadline
    ensures Common(u)
  {
    assert u.messages.Keys == w.messages.Keys;
  }

  lemma NextKeepsCommon(w: World, e: Event)
    requires Common(w) && Enabled(w, e)
    ensures Common(Next(w, e))
  {
    if e.Handoff? || e.ProviderWrite? || e.LateWrite? || e.Settle? || e.Misreport? || e.Expire? {
      MessageMoves(w, Next(w, e), e.ref);
    } else if e.ClaimSending? || e.CommitRetry? || e.CommitReceipt? || e.CommitUnknown? {
      CommitKeepsCommon(w, e);
    } else if e.SendAccepts? || e.SendReturns? {
      SendKeepsCommon(w, e);
    } else if e.Summarize? {
      SummaryKeepsCommon(w);
    } else {
      MoveKeepsCommon(w, e);
    }
  }

  lemma MoveKeepsCommon(w: World, e: Event)
    requires Common(w) && Enabled(w, e)
    requires e.Tick? || e.Reclaim? || e.Crash? || e.SendStarts? || e.SendRefuses? || e.Observe? || e.Doubt? || e.Close?
    ensures Common(Next(w, e))
  {
  }

  lemma SummaryKeepsCommon(w: World)
    requires Common(w) && w.phase.Idle?
    ensures Common(w.(outcome := Summary(w.parts, w.outcome)))
  {
    forall n | 0 <= n < |w.parts| && Summary(w.parts, w.outcome).AllDelivered? && !w.outcome.AllDelivered?
      ensures w.parts[n].state.Settled?
    {
      assert w.parts[n] in w.parts;
    }
  }

  lemma SendKeepsCommon(w: World, e: Event)
    requires Common(w) && Enabled(w, e) && (e.SendAccepts? || e.SendReturns?)
    ensures Common(Next(w, e))
  {
    if e.SendReturns? {
      var n, ref := w.phase.n, RefOf(w, w.phase.n);
      if e.receipt.Failed? {
        var u := Disowning(w, ref);
        MessageMoves(w, u, ref);
        assert Next(w, e) == u.(phase := Holding(n, Failed));
      }
    }
  }

  lemma CommitKeepsCommon(w: World, e: Event)
    requires Common(w) && Enabled(w, e) && (e.ClaimSending? || e.CommitRetry? || e.CommitReceipt? || e.CommitUnknown?)
    ensures Common(Next(w, e))
  {
    var n := if e.ClaimSending? then e.n else w.phase.n;
    var p := Next(w, e).parts[n];
    PartMoves(w, n, p);
    var u := WithPart(w, n, p);
    assert Next(w, e) == u.(phase := Next(w, e).phase, outcome := Next(w, e).outcome);
  }

  /** One unfinished part moves; a later attempt is one the store has not seen. */
  lemma PartMoves(w: World, n: nat, p: Part)
    requires Common(w) && n < |w.parts| && Unfinished(w.parts[n]) && w.parts[n].attempt <= p.attempt
    requires p.state.ToSend? && p.attempt == w.parts[n].attempt ==> RefOf(w, n) !in w.messages
    ensures Common(WithPart(w, n, p)) && !w.outcome.AllDelivered?
  {
    var u := WithPart(w, n, p);
    forall r | r in u.messages
      ensures MessageInv(u, r, u.messages[r])
    {
      assert MessageInv(w, r, w.messages[r]);
    }
    assert RefOf(u, n) in w.messages ==> MessageInv(w, RefOf(u, n), w.messages[RefOf(u, n)]);
    forall k | 0 <= k < |u.parts| && u.parts[k].state.ToSend?
      ensures RefOf(u, k) !in u.messages
    {
      if k != n {
        assert RefOf(u, k) == RefOf(w, k);
      }
    }
  }

  // ---------------------------------------------------------------- what moves a part

  /** A part is settled by a delivered receipt alone, doubted by an unknown one or by doubt itself, and sending by its claim. */
  lemma PartMovesExactly(w: World, e: Event, n: nat)
    requires Common(w) && Enabled(w, e) && n < |w.parts|
    ensures var p, t := w.parts[n], Next(w, e).parts[n];
            && (t.state == Settled && t != p <==> e.CommitReceipt? && w.phase == Holding(n, Delivered))
            && (t.state == Doubtful && t != p <==>
                  (e.CommitReceipt? && w.phase == Holding(n, Unknown)) || (e.CommitUnknown? && w.phase == Doubting(n)))
            && (t.state == Accepted && p.state != Accepted <==> e.CommitReceipt? && w.phase == Holding(n, Open) && p.state != Accepted)
            && (t.state == Sending && t != p <==> e == ClaimSending(n))
  {
    if e.CommitReceipt? {
      ReceiptMovesPart(w, n);
    } else if !e.ClaimSending? && !e.CommitRetry? && !e.CommitUnknown? {
      OthersKeepParts(w, e);
    }
  }

  lemma ReceiptMovesPart(w: World, n: nat)
    requires Common(w) && Enabled(w, CommitReceipt) && n < |w.parts|
    ensures Next(w, CommitReceipt).parts[n] == if w.phase.n == n then Received(w.parts[n], w.phase.receipt, w.clock) else w.parts[n]
    ensures w.phase.Holding? && (w.phase.n == n ==> Unfinished(w.parts[n]))
  {
  }

  lemma OthersKeepParts(w: World, e: Event)
    requires Enabled(w, e) && !e.ClaimSending? && !e.CommitRetry? && !e.CommitUnknown? && !e.CommitReceipt?
    ensures Next(w, e).parts == w.parts
  {
  }

  /** A reference is renewed by a failed or expired receipt alone, ten seconds later an attempt up to a minute; a refusal waits five. */
  lemma AttemptMovesExactly(w: World, e: Event, n: nat)
    requires Common(w) && Enabled(w, e) && n < |w.parts|
    ensures var p, t := w.parts[n], Next(w, e).parts[n];
            && (t.attempt != p.attempt <==> e.CommitReceipt? && w.phase in {Holding(n, Failed), Holding(n, Expired)})
            && (t.attempt != p.attempt ==> t == Part(p.attempt + 1, w.clock + 10 * (if p.attempt < 5 then p.attempt + 1 else 6), ToSend))
            && (t.attempt == p.attempt && t.next != p.next ==>
                  e.CommitRetry? && w.phase == Refused(n) && t == Part(p.attempt, w.clock + 5, ToSend))
            && (e.CommitRetry? && w.phase == Refused(n) ==> t == Part(p.attempt, w.clock + 5, ToSend))
  {
  }

  /** The closing scan delivers the record exactly when every part is settled, and calls it unknown when the rest are doubtful. */
  lemma SummaryMovesExactly(w: World)
    requires Common(w) && Enabled(w, Summarize)
    ensures var outcome := Next(w, Summarize).outcome;
            && (outcome == AllDelivered <==> forall n :: 0 <= n < |w.parts| ==> w.parts[n].state == Settled)
            && (outcome == SomeUnknown && w.outcome != SomeUnknown <==>
                  && w.outcome != SomeUnknown && (forall n :: 0 <= n < |w.parts| ==> w.parts[n].state in {Settled, Doubtful})
                  && exists n :: 0 <= n < |w.parts| && w.parts[n].state == Doubtful)
            && (outcome == Undecided <==> w.outcome == Undecided && exists n :: 0 <= n < |w.parts| && w.parts[n].state !in {Settled, Doubtful})
  {
    forall p | p in w.parts
      ensures exists n :: 0 <= n < |w.parts| && w.parts[n] == p
    {
    }
    assert forall n :: 0 <= n < |w.parts| ==> w.parts[n] in w.parts;
  }

  // ---------------------------------------------------------------- counting

  lemma NextKeepsCount(w: World, e: Event, n: nat)
    requires Common(w) && CountInv(w, n) && Enabled(w, e)
    ensures CountInv(Next(w, e), n)
  {
    var u := Next(w, e);
    if e.ProviderWrite? || e.LateWrite? {
      WriteCounts(w, e.ref, n);
    } else {
      NothingWritten(w, e, n);
      if e.CommitReceipt? && w.phase.n == n && w.phase.receipt.Delivered? {
        assert RefOf(w, n) in Written(w, n);
      }
    }
  }

  lemma WriteCounts(w: World, ref: Ref, n: nat)
    requires CountInv(w, n) && ref in w.messages && !w.messages[ref].written
    ensures CountInv(WithWrite(w, ref), n)
  {
    if ref.part == n {
      assert Written(WithWrite(w, ref), n) == Written(w, n) + {ref};
    } else {
      assert Written(WithWrite(w, ref), n) == Written(w, n);
    }
  }

  lemma NothingWritten(w: World, e: Event, n: nat)
    requires PhaseInv(w) && Enabled(w, e) && !e.ProviderWrite? && !e.LateWrite?
    ensures Written(Next(w, e), n) == Written(w, n) && Next(w, e).writes == w.writes
  {
  }

  // ---------------------------------------------------------------- one live reference

  lemma NextKeepsOneLive(w: World, e: Event, n: nat)
    requires Common(w) && OneLive(w, n) && Enabled(w, e) && !Betrayed(w, n) && !Betrayed(Next(w, e), n)
    ensures OneLive(Next(w, e), n)
  {
    if e.Handoff? || e.ProviderWrite? || e.LateWrite? || e.Settle? || e.Misreport? || e.Expire? {
      MessageKeepsOneLive(w, Next(w, e), e.ref, n);
    } else if e.CommitReceipt? && (w.phase.receipt.Failed? || w.phase.receipt.Expired?) {
      RetryKeepsOneLive(w, n);
    } else if e.SendStarts? {
      StartKeepsOneLive(w, n);
    } else if e.SendAccepts? {
      AcceptKeepsOneLive(w, e.deadline, n);
    } else if e.SendReturns? {
      ReturnKeepsOneLive(w, e.receipt, n);
    } else {
      RestKeepsOneLive(w, e, n);
    }
  }

  /** One message moves without coming back to life, and keeps its deadline. */
  lemma MessageKeepsOneLive(w: World, u: World, ref: Ref, n: nat)
    requires OneLive(w, n) && ref in w.messages && ref in u.messages
    requires u == w.(messages := w.messages[ref := u.messages[ref]], writes := u.writes)
    requires KnownFailure(w.messages[ref]) ==> KnownFailure(u.messages[ref])
    requires u.messages[ref].deadline == w.messages[ref].deadline
    requires !Betrayed(w, n) && !Betrayed(u, n)
    ensures OneLive(u, n)
  {
    assert ref.part == n && Live(u.messages[ref]) ==> Live(w.messages[ref]);
    assert forall r :: r in u.messages && r.part == n && Live(u.messages[r]) ==> Live(w.messages[r]);
  }

  lemma RestKeepsOneLive(w: World, e: Event, n: nat)
    requires Common(w) && OneLive(w, n) && Enabled(w, e)
    requires e.Tick? || e.Reclaim? || e.Crash? || e.ClaimSending? || e.SendRefuses? || e.Observe? || e.Doubt? || e.CommitRetry?
             || e.CommitUnknown? || e.Summarize? || e.Close? || (e.CommitReceipt? && !w.phase.receipt.Failed? && !w.phase.receipt.Expired?)
    ensures OneLive(Next(w, e), n)
  {
    SameReferences(w, Next(w, e), n);
  }

  lemma SameReferences(w: World, u: World, n: nat)
    requires OneLive(w, n) && u.messages == w.messages && (u.phase == Admitted(n) ==> w.phase == Admitted(n))
    requires |u.parts| == |w.parts| && (n < |w.parts| ==> u.parts[n].attempt == w.parts[n].attempt) && w.clock <= u.clock
    ensures OneLive(u, n)
  {
  }

  /** A new attempt is minted only where the old reference is a known failure that was not received, or expired. */
  lemma RetryKeepsOneLive(w: World, n: nat)
    requires Common(w) && OneLive(w, n) && Enabled(w, CommitReceipt) && (w.phase.receipt.Failed? || w.phase.receipt.Expired?)
    requires !Betrayed(w, n)
    ensures OneLive(Next(w, CommitReceipt), n)
  {
    var u := Next(w, CommitReceipt);
    forall r | r in u.messages && r.part == n && n < |u.parts| && r.attempt < u.parts[n].attempt && Live(u.messages[r])
      ensures u.messages[r].deadline <= u.clock
    {
      assert MessageInv(w, r, w.messages[r]);
      if n == w.phase.n && r.attempt == w.parts[n].attempt {
        assert r == RefOf(w, n);
      }
    }
  }

  /** A send that starts before the result deadline starts where no earlier reference of its part is live. */
  lemma StartKeepsOneLive(w: World, n: nat)
    requires Common(w) && OneLive(w, n) && Enabled(w, SendStarts)
    ensures OneLive(Next(w, SendStarts), n)
  {
    if w.phase.n == n {
      forall r | r in w.messages && r.part == n
        ensures !Live(w.messages[r])
      {
        assert MessageInv(w, r, w.messages[r]) && r != RefOf(w, n);
      }
    }
  }

  lemma AcceptKeepsOneLive(w: World, deadline: int, n: nat)
    requires Common(w) && OneLive(w, n) && Enabled(w, SendAccepts(deadline))
    ensures OneLive(Next(w, SendAccepts(deadline)), n)
  {
    var u, ref := Next(w, SendAccepts(deadline)), RefOf(w, w.phase.n);
    forall r, q | r in u.messages && q in u.messages && r.part == n && q.part == n && Live(u.messages[r]) && Live(u.messages[q])
      ensures r == q
    {
      if r != ref && q != ref {
        assert r in w.messages && q in w.messages;
      }
    }
  }

  lemma ReturnKeepsOneLive(w: World, receipt: Verdict, n: nat)
    requires Common(w) && OneLive(w, n) && Enabled(w, SendReturns(receipt)) && !Betrayed(w, n) && !Betrayed(Next(w, SendReturns(receipt)), n)
    ensures OneLive(Next(w, SendReturns(receipt)), n)
  {
    var ref, u := RefOf(w, w.phase.n), Next(w, SendReturns(receipt));
    if receipt.Failed? {
      assert forall r :: r in u.messages && r.part == n && Live(u.messages[r]) ==> Live(w.messages[r]);
    }
  }

  // ---------------------------------------------------------------- runs

  lemma InitIsInv(count: nat, clock: int, resultDeadline: int, n: nat)
    ensures Inv(Init(count, clock, resultDeadline), n)
  {
    assert Written(Init(count, clock, resultDeadline), n) == {};
  }

  lemma {:induction false} RunKeepsInv(w: World, run: seq<Event>, n: nat)
    requires Inv(w, n) && Runs(w, run)
    ensures Inv(After(w, run), n)
    decreases |run|
  {
    if run != [] {
      NextKeepsInv(w, run[0], n);
      RunKeepsInv(Next(w, run[0]), run[1..], n);
    }
  }

  /** An invariant world without a betrayal of part n has written it at most once. */
  lemma UnbetrayedWrittenOnce(w: World, n: nat)
    requires Inv(w, n) && !Betrayed(w, n)
    ensures w.writes[n] <= 1
  {
    assert forall r, q :: r in Written(w, n) && q in Written(w, n) ==> r == q;
    AtMostOne(Written(w, n));
  }

  lemma AtMostOne(refs: set<Ref>)
    requires forall r, q :: r in refs && q in refs ==> r == q
    ensures |refs| <= 1
  {
    if refs != {} {
      var r :| r in refs;
      assert refs == {r};
    }
  }

  /**
   * Over every run, whatever the surroundings do, a part reaches the provider more than once exactly when two of its references
   * did and one of them is a known failure, on record or by its receipt.
   */
  lemma {:induction false} WrittenTwiceExactlyWhen(count: nat, clock: int, resultDeadline: int, run: seq<Event>, n: nat)
    requires Runs(Init(count, clock, resultDeadline), run)
    ensures var w := After(Init(count, clock, resultDeadline), run);
            w.writes[n] <= 1 <==> !ResentPastFailure(w, n)
  {
    var w := After(Init(count, clock, resultDeadline), run);
    InitIsInv(count, clock, resultDeadline, n);
    RunKeepsInv(Init(count, clock, resultDeadline), run, n);
    if ResentPastFailure(w, n) {
      var r, q :| r in Written(w, n) && q in Written(w, n) && r != q && KnownFailure(w.messages[r]);
      TwoOrMore(Written(w, n), r, q);
    } else if Betrayed(w, n) {
      var r :| r in w.messages && r.part == n && w.messages[r].written && KnownFailure(w.messages[r]);
      assert forall q :: q in Written(w, n) ==> q == r;
      AtMostOne(Written(w, n));
    } else {
      UnbetrayedWrittenOnce(w, n);
    }
  }

  lemma TwoOrMore(refs: set<Ref>, r: Ref, q: Ref)
    requires r in refs && q in refs && r != q
    ensures 2 <= |refs|
  {
    assert |refs - {r}| == |refs| - 1 && q in refs - {r};
  }

  /** Whatever crashes, expires or is observed in between, a part that the surroundings are honest about is written at most once. */
  lemma {:induction false} PartWrittenAtMostOnce(count: nat, clock: int, resultDeadline: int, run: seq<Event>, n: nat)
    requires Runs(Init(count, clock, resultDeadline), run) && Honest(run, n)
    ensures After(Init(count, clock, resultDeadline), run).writes[n] <= 1
  {
    InitIsInv(count, clock, resultDeadline, n);
    RunKeepsInv(Init(count, clock, resultDeadline), run, n);
    HonestRunsDoNotBetray(Init(count, clock, resultDeadline), run, n);
    UnbetrayedWrittenOnce(After(Init(count, clock, resultDeadline), run), n);
  }

  lemma {:induction false} HonestRunsDoNotBetray(w: World, run: seq<Event>, n: nat)
    requires Inv(w, n) && Runs(w, run) && Honest(run, n) && !Betrayed(w, n)
    ensures !Betrayed(After(w, run), n)
    decreases |run|
  {
    if run != [] {
      assert run[0] in run;
      NextKeepsInv(w, run[0], n);
      assert !Betrayed(Next(w, run[0]), n);
      HonestRunsDoNotBetray(Next(w, run[0]), run[1..], n);
    }
  }

  /** The outcome delivered means that every part was written, and once unless it was resent past a known failure. */
  lemma {:induction false} DeliveredMeansWritten(count: nat, clock: int, resultDeadline: int, run: seq<Event>, n: nat)
    requires Runs(Init(count, clock, resultDeadline), run) && n < count
    ensures var w := After(Init(count, clock, resultDeadline), run);
            w.outcome.AllDelivered? ==> 1 <= w.writes[n] && (w.writes[n] == 1 <==> !ResentPastFailure(w, n))
  {
    InitIsInv(count, clock, resultDeadline, n);
    RunKeepsInv(Init(count, clock, resultDeadline), run, n);
    RunKeepsLength(Init(count, clock, resultDeadline), run);
    WrittenTwiceExactlyWhen(count, clock, resultDeadline, run, n);
    var w := After(Init(count, clock, resultDeadline), run);
    if w.outcome.AllDelivered? {
      var r :| r in Written(w, n);
    }
  }

  lemma {:induction false} RunKeepsLength(w: World, run: seq<Event>)
    requires Runs(w, run)
    ensures |After(w, run).parts| == |w.parts|
    decreases |run|
  {
    if run != [] {
      RunKeepsLength(Next(w, run[0]), run[1..]);
    }
  }

  // ---------------------------------------------------------------- the two ways to two writes

  ghost predicate Reach(from: World, to: World) {
    exists run :: Runs(from, run) && After(from, run) == to
  }

  lemma Take(from: World, w: World, e: Event) returns (u: World)
    requires Reach(from, w) && Enabled(w, e)
    ensures u == Next(w, e) && Reach(from, u)
  {
    var run :| Runs(from, run) && After(from, run) == w;
    Extend(from, run, e);
    u := Next(w, e);
  }

  /** A written message that is settled as a known failure is written again under the next reference. */
  lemma MisreportRewrites(clock: int)
    ensures exists w :: Reach(Init(1, clock, clock + 100), w) && w.writes[0] == 2
  {
    var start := Init(1, clock, clock + 100);
    assert Runs(start, []);
    var w := SendOnce(start, start, 0, clock + 100);
    w := Take(start, w, ProviderWrite(Ref(0, 0)));
    w := Take(start, w, Misreport(Ref(0, 0)));
    w := Resend(start, w, clock);
    assert w.writes[0] == 2;
  }

  /** A message settled as a known failure before it is written, and written afterwards, is a second write as well. */
  lemma LateWriteRewrites(clock: int)
    ensures exists w :: Reach(Init(1, clock, clock + 100), w) && w.writes[0] == 2
  {
    var start := Init(1, clock, clock + 100);
    assert Runs(start, []);
    var w := SendOnce(start, start, 0, clock + 100);
    w := Take(start, w, Settle(Ref(0, 0), Failed));
    w := Resend(start, w, clock);
    w := Take(start, w, LateWrite(Ref(0, 0)));
    assert w.writes[0] == 2;
  }

  /** A known failure is observed after a crash, and the next reference is accepted and written. */
  lemma Resend(start: World, w: World, clock: int) returns (u: World)
    requires Reach(start, w) && w.phase == InFlight(0) && w.clock == clock && w.resultDeadline == clock + 100 && w.reclaimed == {}
    requires w.parts == [Part(0, clock, Sending)] && w.messages.Keys == {Ref(0, 0)} && w.messages[Ref(0, 0)].verdict.Failed?
    ensures Reach(start, u) && u.writes == w.writes + multiset{0}
    ensures u.messages == w.messages[Ref(0, 1) := Message(Open, true, false, clock + 100, false)]
  {
    u := Take(start, w, Crash);
    u := Take(start, u, Observe(0));
    u := Take(start, u, CommitReceipt);
    u := Take(start, u, Tick(clock + 10));
    u := SendOnce(start, u, 1, clock + 100);
    u := Take(start, u, ProviderWrite(Ref(0, 1)));
  }

  lemma SendOnce(start: World, w: World, attempt: nat, deadline: int) returns (u: World)
    requires Reach(start, w) && w.phase.Idle? && |w.parts| == 1 && w.parts[0].state.ToSend? && w.parts[0].attempt == attempt
    requires w.parts[0].next <= w.clock < w.resultDeadline <= deadline && Ref(0, attempt) !in w.messages
    ensures Reach(start, u) && u.phase == InFlight(0) && u.clock == w.clock && u.resultDeadline == w.resultDeadline && u.reclaimed == w.reclaimed
    ensures u.parts == [w.parts[0].(state := Sending)] && u.writes == w.writes
    ensures u.messages == w.messages[Ref(0, attempt) := Message(Open, false, false, deadline, false)]
  {
    u := Take(start, w, ClaimSending(0));
    u := Take(start, u, SendStarts);
    u := Take(start, u, SendAccepts(deadline));
  }
}
