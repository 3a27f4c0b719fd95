/** What every entry point of a control epoch does, as functions on its state. */
module ControlSpec {
  import opened ControlTypes
  import opened Options
  import Text

  const PEER_LEDGER_LIMIT := 256

  datatype Config = Config(identity: Identity, epoch: string, connected: bool)

  /** The fields of a control epoch. Revoke replaces both Go maps by nil, here None. */
  datatype State = State(
    active: bool, threadState: ThreadState, turnID: string, turnState: TurnState,
    pending: Option<map<string, Envelope>>, ambiguous: Option<set<string>>, used: set<string>)

  datatype Outcome = Outcome(state: State, response: Response, calls: seq<Call>)

  function Fresh(snapshot: Snapshot): State {
    State(true, snapshot.threadState, Text.TrimSpace(snapshot.turnID), snapshot.turnState, Some(map[]), Some({}), {})
  }

  /** An active epoch owns both maps, so no entry point writes a nil map. */
  ghost predicate HasMaps(s: State) {
    s.active ==> s.pending.Some? && s.ambiguous.Some?
  }

  // ---------------------------------------------------------------- lifecycle state

  predicate CanStart(s: State) {
    && (s.threadState.Idle? || s.threadState.SystemError?)
    && (s.turnID == "" || Ended(s.turnState))
  }

  predicate CanMutate(s: State) {
    s.turnID != "" && s.turnState.InProgress? && Running(s.threadState)
  }

  predicate ValidSnapshot(x: Snapshot) {
    var turnID := Text.TrimSpace(x.turnID);
    if Running(x.threadState) then turnID != "" && x.turnState.InProgress?
    else if x.threadState.Idle? || x.threadState.SystemError? then
      if turnID == "" then x.turnState.NoTurn? || x.turnState.TurnUnknown? else Ended(x.turnState)
    else false
  }

  function Cleared(s: State): State {
    s.(pending := Some(map[]), ambiguous := Some({}))
  }

  function Reconciled(s: State, x: Snapshot): State {
    var turnID := Text.TrimSpace(x.turnID);
    var t := s.(threadState := x.threadState, turnID := turnID, turnState := x.turnState);
    if s.turnID != turnID || !x.turnState.InProgress? then Cleared(t) else t
  }

  function Begun(s: State, turnID: string): State {
    Cleared(s.(turnID := turnID, turnState := InProgress, threadState := Active))
  }

  /** What a write site knows after its lifecycle read. */
  datatype TurnView = Usable(snapshot: Snapshot) | Drained | NoWrite(code: Code)

  function Classify(cfg: Config, answer: ReadAnswer, steer: bool): TurnView {
    match answer
    case Unread(tooLarge, refusal) =>
      if refusal.Drain? then Drained
      else if tooLarge || refusal.TooLarge? then NoWrite(PayloadTooLarge)
      else if refusal.RetryLater? then NoWrite(LifecycleRetry)
      else if refusal.Busy? then NoWrite(LifecycleBusy)
      else NoWrite(TurnStateUnavailable)
    case Fresh(x) =>
      if x.threadID != cfg.identity.threadID then NoWrite(TurnStateUnavailable)
      else if !ValidSnapshot(x) || (steer && x.threadState.SystemError?) then NoWrite(TurnStateUnavailable)
      else Usable(x)
  }

  function Refreshed(s: State, view: TurnView): State
    requires !view.NoWrite?
  {
    if view.Drained? then s else Reconciled(s, view.snapshot)
  }

  // ---------------------------------------------------------------- notifications

  function Notified(cfg: Config, s: State, n: Notification): State
    requires HasMaps(s)
  {
    if !s.active then s else
    match n
    case Approval(e) =>
      if e.threadID != cfg.identity.threadID || e.turnID != s.turnID || e.itemID == "" then s
      else if e.rawID in s.ambiguous.value then s
      else if e.rawID in s.pending.value then
        if s.pending.value[e.rawID] == e then s
        else s.(pending := Some(s.pending.value - {e.rawID}), ambiguous := Some(s.ambiguous.value + {e.rawID}))
      else s.(pending := Some(s.pending.value[e.rawID := e]))
    case BrokenApproval => s
    case Unrecognized => s
    case TurnStarted(threadID, turnID) =>
      if threadID != cfg.identity.threadID then s else Begun(s, turnID)
    case TurnCompleted(threadID, turnID, turnState) =>
      if threadID != cfg.identity.threadID || turnID != s.turnID then s else Cleared(s.(turnState := turnState))
    case ThreadStatus(threadID, threadState) =>
      if threadID != cfg.identity.threadID then s else s.(threadState := threadState)
    case Resolved(threadID, rawID) =>
      if threadID != cfg.identity.threadID then s
      else s.(pending := Some(s.pending.value - {rawID}), ambiguous := Some(s.ambiguous.value - {rawID}))
  }

  function Revoked(s: State): State {
    s.(active := false, pending := None, ambiguous := None, turnID := "", turnState := TurnUnknown)
  }

  // ---------------------------------------------------------------- requests

  function Failure(code: Code, error: WireError): Response {
    Refused(if error.deadline then Timeout else code)
  }

  /** The provider answer to turn/start, common to start, deliver and peer. */
  function StartAnswered(cfg: Config, s: State, answer: Answer<ControlResult>, failed: Response, accepted: bool): (State, Response) {
    match answer
    case Lost(_) => (s, failed)
    case Answered(r) =>
      if r.threadID != cfg.identity.threadID || r.turnID == "" then (s, Refused(ProtocolError))
      else (Begun(s, r.turnID), Done(r.threadID, r.turnID, accepted))
  }

  function StartTurnAt(cfg: Config, s: State, text: string, w: World, calls: seq<Call>): Outcome {
    var failed := if w.start.Lost? then Failure(TurnStartFailed, w.start.error) else Refused(TurnStartFailed);
    var (t, response) := StartAnswered(cfg, s, w.start, failed, false);
    Outcome(t, response, calls + [StartTurn(cfg.identity.threadID, text)])
  }

  function SteerTurnAt(cfg: Config, s: State, turnID: string, text: string, w: World, calls: seq<Call>): Outcome {
    var response :=
      match w.steer
      case Lost(e) => Failure(StaleTurn, e)
      case Answered(r) =>
        if r.threadID != cfg.identity.threadID || r.turnID != turnID then Refused(ProtocolError)
        else Done(r.threadID, r.turnID, true);
    Outcome(s, response, calls + [SteerTurn(cfg.identity.threadID, turnID, text)])
  }

  function HandleStart(cfg: Config, s: State, q: Request, w: World, calls: seq<Call>): Outcome {
    if Text.Blank(q.text) then Outcome(s, Refused(StaleTurn), calls) else
    var view := Classify(cfg, w.firstRead, false);
    var read := calls + [ReadSnapshot];
    if view.NoWrite? then Outcome(s, Refused(view.code), read) else
    var fenced := read + [Fence(w.fenceAfterRead)];
    if !w.fenceAfterRead then Outcome(s, Refused(StaleBinding), fenced) else
    var t := Refreshed(s, view);
    if !CanStart(t) then Outcome(t, Refused(if view.Drained? then DrainRequired else TurnInProgress), fenced)
    else StartTurnAt(cfg, t, q.text, w, fenced)
  }

  function HandleSteer(cfg: Config, s: State, q: Request, w: World, calls: seq<Call>): Outcome {
    if Text.Blank(q.text) then Outcome(s, Refused(StaleTurn), calls)
    else if !CanMutate(s) then Outcome(s, Refused(NoActiveTurn), calls) else
    var view := Classify(cfg, w.firstRead, true);
    var read := calls + [ReadSnapshot];
    if view.NoWrite? then Outcome(s, Refused(view.code), read) else
    var fenced := read + [Fence(w.fenceAfterRead)];
    if !w.fenceAfterRead then Outcome(s, Refused(TurnStateUnavailable), fenced) else
    var t := Refreshed(s, view);
    if t.turnID != s.turnID || !CanMutate(t) then
      Outcome(t, Refused(if view.Drained? then DrainRequired else NoActiveTurn), fenced)
    else SteerTurnAt(cfg, t, s.turnID, q.text, w, fenced)
  }

  function HandleInterrupt(cfg: Config, s: State, w: World, calls: seq<Call>): Outcome {
    if !CanMutate(s) then Outcome(s, Refused(StaleTurn), calls) else
    var written := calls + [InterruptTurn(cfg.identity.threadID, s.turnID)];
    match w.interrupt
    case Lost(e) => Outcome(s, Failure(TurnInterruptFailed, e), written)
    case Answered(r) =>
      if r.threadID != cfg.identity.threadID || r.turnID != s.turnID then Outcome(s, Refused(ProtocolError), written)
      else Outcome(s.(turnState := Interrupted), Done(r.threadID, r.turnID, false), written)
  }

  /** The one lifecycle read of deliver, made again after one retry window. */
  function DeliverRead(cfg: Config, w: World, calls: seq<Call>): (TurnView, seq<Call>) {
    if w.firstRead.Unread? && w.firstRead.refusal.RetryLater? then
      var waiting := calls + [ReadSnapshot, WaitRetry];
      if !w.waited then (NoWrite(LifecycleRetry), waiting)
      else (Classify(cfg, w.secondRead, false), waiting + [ReadSnapshot])
    else (Classify(cfg, w.firstRead, false), calls + [ReadSnapshot])
  }

  function HandleDeliver(cfg: Config, s: State, q: Request, w: World, calls: seq<Call>): Outcome {
    if Text.Blank(q.text) then Outcome(s, Refused(StaleTurn), calls) else
    var (view, read) := DeliverRead(cfg, w, calls);
    if view.NoWrite? then Outcome(s, Refused(view.code), read) else
    var fenced := read + [Fence(w.fenceAfterRead)];
    if !w.fenceAfterRead then Outcome(s, Refused(StaleBinding), fenced)
    else DeliverWrite(cfg, Refreshed(s, view), q.text, w, view.Drained?, fenced)
  }

  /** A delivery starts a turn when it can, otherwise steers the running one. */
  function DeliverWrite(cfg: Config, s: State, text: string, w: World, drained: bool, calls: seq<Call>): Outcome {
    if CanStart(s) then StartTurnAt(cfg, s, text, w, calls)
    else if !CanMutate(s) then Outcome(s, Refused(if drained then DrainRequired else NoActiveTurn), calls)
    else SteerTurnAt(cfg, s, s.turnID, text, w, calls)
  }

  /** The raw ids of the pending approvals that carry one normalized request id. */
  function Matching(pending: map<string, Envelope>, requestID: string): set<string> {
    set k | k in pending && pending[k].requestID == requestID
  }

  ghost function Only(keys: set<string>): (k: string)
    requires |keys| == 1
    ensures keys == {k}
  {
    var k :| k in keys;
    assert |keys - {k}| == 0;
    k
  }

  /** codexappserver.ApprovalResponse builds a response for this decision. */
  predicate Answerable(e: Envelope, d: Decision) {
    && d in e.decisions
    && match e.kind
       case Command => true
       case FileChange => true
       case Permissions => d.GrantTurn? && e.supportedProfile
       case OtherKind => false
  }

  ghost function HandleReview(s: State, q: Request, w: World, calls: seq<Call>): Outcome
    requires HasMaps(s) && s.active
  {
    var keys := Matching(s.pending.value, q.key);
    if |keys| != 1 then Outcome(s, Refused(AmbiguousRequest), calls) else
    var key := Only(keys);
    var e := s.pending.value[key];
    if !Answerable(e, q.decision) then Outcome(s, Refused(UnsafeDecision), calls) else
    var claimed := s.(pending := Some(s.pending.value - {e.rawID}));
    var t := if q.decision.Cancel? then claimed.(turnState := Interrupted) else claimed;
    var response := if w.respond.Some? then Failure(ResponseIndeterminate, w.respond.value) else Done(e.threadID, e.turnID, false);
    Outcome(t, response, calls + [Respond(e.rawID, q.decision)])
  }

  function PeerFailure(error: WireError): Response {
    if error.response then Refused(ProviderRefused) else Failure(PeerOutcomeUnknown, error)
  }

  /** The provider write of a claimed peer message. */
  function PeerWrite(cfg: Config, s: State, text: string, w: World, calls: seq<Call>): Outcome {
    if CanStart(s) then
      var failed := if w.start.Lost? then PeerFailure(w.start.error) else Refused(PeerOutcomeUnknown);
      var (t, response) := StartAnswered(cfg, s, w.start, failed, true);
      Outcome(t, response, calls + [StartTurn(cfg.identity.threadID, text)])
    else
      Outcome(s, if w.inject.Some? then PeerFailure(w.inject.value) else Done(cfg.identity.threadID, s.turnID, true),
              calls + [Inject(cfg.identity.threadID, text)])
  }

  /** Claim, in memory and on disk, then write. */
  function PeerClaim(cfg: Config, s: State, q: Request, text: string, w: World, calls: seq<Call>): Outcome {
    if q.key in s.used then Outcome(s, Refused(PeerClaimUsed), calls)
    else if |s.used| >= PEER_LEDGER_LIMIT then Outcome(s, Refused(PeerBusy), calls) else
    var claimed := calls + [ClaimRef(q.key)];
    match w.claim
    case ClaimsFull => Outcome(s, Refused(PeerBusy), claimed)
    case ClaimFailed => Outcome(s, Refused(PeerClaimUsed), claimed)
    case Claimed => PeerWrite(cfg, s.(used := s.used + {q.key}), text, w, claimed)
  }

  /** Prune, then read the envelope again, then claim. */
  function PeerAdmit(cfg: Config, s: State, q: Request, w: World, calls: seq<Call>): Outcome {
    var t := s.(used := s.used - w.pruned);
    var pruned := calls + [PruneClaims];
    if w.pruneFailed then Outcome(t, Refused(PeerClaimUsed), pruned)
    else if w.cancelledAfterPrune then Outcome(t, Refused(StaleBinding), pruned) else
    var fenced := pruned + [Fence(w.fenceAfterPrune)];
    if !w.fenceAfterPrune then Outcome(t, Refused(StaleBinding), fenced) else
    var looked := fenced + [ReadEnvelope(q.key)];
    if w.peerText.None? then Outcome(t, Refused(PeerInvalid), looked)
    else if w.cancelledAfterEnvelope then Outcome(t, Refused(StaleBinding), looked) else
    var admitted := looked + [Fence(w.fenceAfterEnvelope)];
    if !w.fenceAfterEnvelope then Outcome(t, Refused(StaleBinding), admitted)
    else PeerClaim(cfg, t, q, w.peerText.value, w, admitted)
  }

  function HandlePeer(cfg: Config, s: State, q: Request, w: World, calls: seq<Call>): Outcome {
    if !w.injectionSupported then Outcome(s, Refused(PeerInjectionUnsupported), calls)
    else if !w.peerReady then Outcome(s, Refused(PeerInvalid), calls) else
    var view := Classify(cfg, w.firstRead, false);
    var read := calls + [ReadSnapshot];
    if view.NoWrite? then Outcome(s, Refused(view.code), read)
    else if view.Drained? then Outcome(s, Refused(DrainRequired), read)
    else if w.cancelledAfterRead then Outcome(s, Refused(PeerInvalid), read) else
    var fenced := read + [Fence(w.fenceAfterRead)];
    if !w.fenceAfterRead then Outcome(s, Refused(StaleBinding), fenced) else
    var t := Refreshed(s, view);
    if !CanStart(t) && !CanMutate(t) then Outcome(t, Refused(NoActiveTurn), fenced)
    else PeerAdmit(cfg, t, q, w, fenced)
  }

  /** A review is offered when some pending approval has an unshared request id and a safe decision. */
  predicate Reviewable(s: State) {
    s.pending.Some? && exists k | k in s.pending.value ::
      |Matching(s.pending.value, s.pending.value[k].requestID)| == 1 && s.pending.value[k].decisions != []
  }

  function Available(s: State): Availability {
    Availability(CanStart(s), CanMutate(s), CanMutate(s), Reviewable(s))
  }

  function Listed(s: State): set<Envelope> {
    if s.pending.None? then {} else set k | k in s.pending.value :: s.pending.value[k]
  }

  ghost function Dispatch(cfg: Config, s: State, q: Request, w: World, calls: seq<Call>): Outcome
    requires HasMaps(s) && s.active
  {
    match q.op
    case Status => Outcome(s, Response.Served(Available(s), {}), calls)
    case Approvals => Outcome(s, Response.Served(Available(s), Listed(s)), calls)
    case Deliver => HandleDeliver(cfg, s, q, w, calls)
    case Peer => HandlePeer(cfg, s, q, w, calls)
    case Start => HandleStart(cfg, s, q, w, calls)
    case Steer => HandleSteer(cfg, s, q, w, calls)
    case Interrupt => HandleInterrupt(cfg, s, w, calls)
    case Review => HandleReview(s, q, w, calls)
    case OtherOperation => Outcome(s, Refused(InvalidOperation), calls)
  }

  ghost function Handle(cfg: Config, s: State, q: Request, w: World): Outcome
    requires HasMaps(s)
  {
    var calls := [Fence(w.fenceAtEntry)];
    if !s.active || q.epoch == "" || q.epoch != cfg.epoch || q.identity != cfg.identity then
      Outcome(s, Refused(StaleEpoch), [])
    else if !w.fenceAtEntry then Outcome(s, Refused(StaleBinding), calls)
    else if !cfg.connected then Outcome(s, Refused(Unavailable), calls)
    else Dispatch(cfg, s, q, w, calls)
  }
}
