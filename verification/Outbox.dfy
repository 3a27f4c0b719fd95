/** The question-result outbox as a crash-recoverable machine: part claims, sends, receipts and retries. */
module Outbox {

  /** One bounded dispatch attempt of one result part. */
  datatype Ref = Ref(part: nat, attempt: nat)

  /** What the message store says of one reference. Expired is the store's own deadline expiry. */
  datatype Verdict = Open | Delivered | Unknown | Failed | Expired

  /**
   * `written` is whether the provider received this reference, `handoff` whether the store saw it handed off, `disowned` whether
   * its send returned a known failure, which the store need not have.
   */
  datatype Message = Message(verdict: Verdict, written: bool, handoff: bool, deadline: int, disowned: bool)

  /** The failure is known: on record, or by the receipt of its send. */
  predicate KnownFailure(m: Message) {
    m.verdict.Failed? || m.disowned
  }

  /** The store expired it, or may do so now. */
  predicate Past(m: Message, clock: int) {
    m.verdict.Expired? || m.deadline <= clock
  }

  datatype PartState = ToSend | Sending | Accepted | Settled | Doubtful

  datatype Part = Part(attempt: nat, next: int, state: PartState)

  datatype Outcome = Undecided | AllDelivered | SomeUnknown | ResultExpired | TargetDeleted

  /** The dispatcher's volatile position; a crash returns it to Idle. */
  datatype Phase =
    | Idle
    | Calling(n: nat)
    | Admitted(n: nat)
    | Refused(n: nat)
    | InFlight(n: nat)
    | Holding(n: nat, receipt: Verdict)
    | Doubting(n: nat)

  /** `messages` is every reference ever accepted; the store no longer shows the `reclaimed` ones. */
  datatype World = World(
    parts: seq<Part>, outcome: Outcome, messages: map<Ref, Message>, reclaimed: set<Ref>, clock: int, resultDeadline: int,
    phase: Phase, writes: multiset<nat>)

  const RETRY_AFTER_REFUSAL := 5
  const RETRY_STEP := 10
  const RETRY_STEPS := 6

  function Init(count: nat, clock: int, resultDeadline: int): World {
    World(seq(count, _ => Part(0, clock, ToSend)), Undecided, map[], {}, clock, resultDeadline, Idle, multiset{})
  }

  datatype Event =
    // the surroundings
    | Tick(now: int) | Handoff(ref: Ref) | ProviderWrite(ref: Ref) | LateWrite(ref: Ref)
    | Settle(ref: Ref, verdict: Verdict) | Misreport(ref: Ref) | Expire(ref: Ref) | Reclaim(ref: Ref)
    // the dispatcher
    | Crash
    | ClaimSending(n: nat) | SendStarts | SendRefuses | SendAccepts(deadline: int) | SendReturns(receipt: Verdict)
    | Observe(n: nat) | Doubt(n: nat)
    | CommitRetry | CommitReceipt | CommitUnknown | Summarize | Close(closed: Outcome)

  predicate Unfinished(p: Part) {
    p.state.ToSend? || p.state.Sending? || p.state.Accepted?
  }

  function RefOf(w: World, n: nat): Ref
    requires n < |w.parts|
  {
    Ref(n, w.parts[n].attempt)
  }

  predicate Seen(w: World, ref: Ref) {
    ref in w.messages && ref !in w.reclaimed
  }

  /** A receipt a completed Send may return: the store's own verdict, or its own when it could not be stored. */
  predicate HonestReceipt(m: Message, receipt: Verdict, clock: int) {
    match receipt
    case Open => true
    case Unknown => true
    case Delivered => m.written
    case Failed => m.verdict.Failed? || (m.verdict.Open? && !m.written)
    case Expired => m.verdict.Expired? || (m.verdict.Open? && Past(m, clock))
  }

  predicate Enabled(w: World, e: Event) {
    match e
    case Tick(now) => w.clock <= now
    case Handoff(ref) => ref in w.messages && w.messages[ref].verdict.Open?
    case ProviderWrite(ref) => ref in w.messages && !w.messages[ref].written && !KnownFailure(w.messages[ref])
    case LateWrite(ref) => ref in w.messages && !w.messages[ref].written && KnownFailure(w.messages[ref])
    case Settle(ref, verdict) =>
      && ref in w.messages && w.messages[ref].verdict.Open?
      && (verdict.Unknown? || (verdict.Delivered? && w.messages[ref].written) || (verdict.Failed? && !w.messages[ref].written))
    case Expire(ref) => ref in w.messages && w.messages[ref].verdict.Open? && w.messages[ref].deadline <= w.clock
    case Reclaim(ref) => ref in w.messages && !w.messages[ref].verdict.Open?
    case Misreport(ref) => ref in w.messages && w.messages[ref].verdict.Open? && w.messages[ref].written
    case Crash => true
    case ClaimSending(n) =>
      w.phase.Idle? && n < |w.parts| && w.parts[n].state.ToSend? && w.parts[n].next <= w.clock && !Seen(w, RefOf(w, n))
    case SendStarts => w.phase.Calling? && w.clock < w.resultDeadline
    case SendRefuses => w.phase.Calling? || w.phase.Admitted?
    case SendAccepts(deadline) => w.phase.Admitted? && w.phase.n < |w.parts| && w.resultDeadline <= deadline
    case SendReturns(receipt) =>
      w.phase.InFlight? && w.phase.n < |w.parts| && RefOf(w, w.phase.n) in w.messages && HonestReceipt(w.messages[RefOf(w, w.phase.n)], receipt, w.clock)
    case Observe(n) =>
      && w.phase.Idle? && n < |w.parts| && Unfinished(w.parts[n]) && Seen(w, RefOf(w, n))
      && var m := w.messages[RefOf(w, n)]; !(m.verdict.Open? && (m.deadline <= w.clock || w.parts[n].state.Sending?))
    case Doubt(n) => w.phase.Idle? && n < |w.parts| && Unfinished(w.parts[n])
    case CommitRetry => w.phase.Refused? && w.phase.n < |w.parts|
    case CommitReceipt => w.phase.Holding? && w.phase.n < |w.parts|
    case CommitUnknown => w.phase.Doubting? && w.phase.n < |w.parts|
    case Summarize => w.phase.Idle? && (w.outcome.Undecided? || w.outcome.SomeUnknown?)
    case Close(closed) => w.phase.Idle? && (closed.ResultExpired? || closed.TargetDeleted?)
  }

  function WithPart(w: World, n: nat, p: Part): World
    requires n < |w.parts|
  {
    w.(parts := w.parts[n := p], phase := Idle)
  }

  function WithVerdict(w: World, ref: Ref, verdict: Verdict): World
    requires ref in w.messages
  {
    w.(messages := w.messages[ref := w.messages[ref].(verdict := verdict)])
  }

  function Disowning(w: World, ref: Ref): World
    requires ref in w.messages
  {
    w.(messages := w.messages[ref := w.messages[ref].(disowned := true)])
  }

  function WithWrite(w: World, ref: Ref): World
    requires ref in w.messages
  {
    w.(messages := w.messages[ref := w.messages[ref].(written := true)], writes := w.writes + multiset{ref.part})
  }

  /** The deadline settles a record: as unknown once its hand-off was observed, as expired otherwise. */
  function Lapsed(m: Message): Verdict {
    if m.handoff then Unknown else Expired
  }

  /** The part after its receipt: a known failure commits the next stable reference and a later time. */
  function Received(p: Part, receipt: Verdict, clock: int): Part {
    match receipt
    case Unknown => p.(state := Doubtful)
    case Delivered => p.(state := Settled)
    case Open => p.(state := Accepted)
    case _ => Part(p.attempt + 1, clock + RETRY_STEP * (if p.attempt + 1 < RETRY_STEPS then p.attempt + 1 else RETRY_STEPS), ToSend)
  }

  /** The record's outcome once a pass has handled every part. */
  ghost function Summary(parts: seq<Part>, outcome: Outcome): Outcome {
    if exists p :: p in parts && Unfinished(p) then outcome
    else if exists p :: p in parts && p.state.Doubtful? then SomeUnknown
    else AllDelivered
  }

  ghost function Next(w: World, e: Event): World
    requires Enabled(w, e)
  {
    match e
    case Tick(now) => w.(clock := now)
    case Handoff(ref) => w.(messages := w.messages[ref := w.messages[ref].(handoff := true)])
    case ProviderWrite(ref) => WithWrite(w, ref)
    case LateWrite(ref) => WithWrite(w, ref)
    case Settle(ref, verdict) => WithVerdict(w, ref, verdict)
    case Expire(ref) => WithVerdict(w, ref, Lapsed(w.messages[ref]))
    case Reclaim(ref) => w.(reclaimed := w.reclaimed + {ref})
    case Misreport(ref) => WithVerdict(w, ref, Failed)
    case Crash => w.(phase := Idle)
    case ClaimSending(n) => WithPart(w, n, w.parts[n].(state := Sending)).(phase := Calling(n))
    case SendStarts => w.(phase := Admitted(w.phase.n))
    case SendRefuses => w.(phase := Refused(w.phase.n))
    case SendAccepts(deadline) =>
      w.(messages := w.messages[RefOf(w, w.phase.n) := Message(Open, false, false, deadline, false)], phase := InFlight(w.phase.n))
    case SendReturns(receipt) =>
      var u := w.(phase := Holding(w.phase.n, receipt));
      if receipt.Failed? then Disowning(u, RefOf(w, w.phase.n)) else u
    case Observe(n) => w.(phase := Holding(n, w.messages[RefOf(w, n)].verdict))
    case Doubt(n) => w.(phase := Doubting(n))
    case CommitRetry => WithPart(w, w.phase.n, w.parts[w.phase.n].(state := ToSend, next := w.clock + RETRY_AFTER_REFUSAL))
    case CommitReceipt =>
      var u := WithPart(w, w.phase.n, Received(w.parts[w.phase.n], w.phase.receipt, w.clock));
      if w.phase.receipt.Unknown? then u.(outcome := SomeUnknown) else u
    case CommitUnknown => WithPart(w, w.phase.n, w.parts[w.phase.n].(state := Doubtful)).(outcome := SomeUnknown)
    case Summarize => w.(outcome := Summary(w.parts, w.outcome))
    case Close(closed) => w.(outcome := closed)
  }

  ghost predicate Runs(w: World, run: seq<Event>)
    decreases |run|
  {
    run != [] ==> Enabled(w, run[0]) && Runs(Next(w, run[0]), run[1..])
  }

  ghost function After(w: World, run: seq<Event>): World
    requires Runs(w, run)
    decreases |run|
  {
    if run == [] then w else After(Next(w, run[0]), run[1..])
  }

  /**
   * What the surroundings owe part n: no reference of it that reached the provider is settled as a known failure, and none
   * that is so settled, or returned so by its send, reaches the provider afterwards.
   */
  predicate Honest(run: seq<Event>, n: nat) {
    forall e :: e in run && (e.Misreport? || e.LateWrite?) ==> e.ref.part != n
  }

  lemma {:induction false} AppendRun(w: World, a: seq<Event>, b: seq<Event>)
    requires Runs(w, a)
    ensures Runs(w, a + b) <==> Runs(After(w, a), b)
    ensures Runs(w, a + b) ==> After(w, a + b) == After(After(w, a), b)
    decreases |a|
  {
    if a == [] {
      assert a + b == b;
    } else {
      assert (a + b)[1..] == a[1..] + b;
      AppendRun(Next(w, a[0]), a[1..], b);
    }
  }

  lemma Extend(w: World, run: seq<Event>, e: Event)
    requires Runs(w, run)
    ensures Runs(w, run + [e]) <==> Enabled(After(w, run), e)
    ensures Runs(w, run + [e]) ==> After(w, run + [e]) == Next(After(w, run), e)
  {
    AppendRun(w, run, [e]);
  }
}
