/** What a control epoch answers, read off the request and the provider's own answer. */
module ControlAnswers {
  import opened ControlTypes
  import opened ControlSpec
  import opened ControlSafety
  import opened ControlDelivery
  import opened ControlApprovals
  import opened Options
  import Text

  // ---------------------------------------------------------------- review

  /** k is the one pending approval with this request id. */
  predicate TheOnly(s: State, requestID: string, k: string) {
    && s.pending.Some? && k in s.pending.value && s.pending.value[k].requestID == requestID
    && forall j :: j in s.pending.value && s.pending.value[j].requestID == requestID ==> j == k
  }

  lemma TheOnlyMatches(s: State, requestID: string, k: string)
    requires TheOnly(s, requestID, k)
    ensures Matching(s.pending.value, requestID) == {k}
  {
  }

  lemma OnlyIsTheOnly(s: State, requestID: string)
    requires s.pending.Some?
    ensures |Matching(s.pending.value, requestID)| == 1 <==> exists k :: TheOnly(s, requestID, k)
    ensures |Matching(s.pending.value, requestID)| == 1 ==> TheOnly(s, requestID, Only(Matching(s.pending.value, requestID)))
  {
    var keys := Matching(s.pending.value, requestID);
    if |keys| == 1 {
      var k := Only(keys);
      assert keys == {k} && k in keys;
      forall j | j in s.pending.value && s.pending.value[j].requestID == requestID
        ensures j == k
      {
        assert j in keys && j in {k};
      }
      assert TheOnly(s, requestID, k);
    }
    forall k | TheOnly(s, requestID, k)
      ensures |keys| == 1
    {
      TheOnlyMatches(s, requestID, k);
    }
  }

  /** The provider is told exactly what the operator decided, of exactly the one request named, and only what that request offers. */
  lemma ReviewAnswersExactlyWhen(cfg: Config, s: State, q: Request, w: World, k: string, d: Decision)
    requires Inv(cfg, s) && q.op.Review?
    ensures Respond(k, d) in Handle(cfg, s, q, w).calls <==>
              && Admitted(cfg, s, q, w) && TheOnly(s, q.key, k)
              && var e := s.pending.value[k];
                 && d == q.decision && d in e.decisions
                 && (e.kind in {Command, FileChange} || (e.kind == Permissions && d == GrantTurn && e.supportedProfile))
  {
    if Admitted(cfg, s, q, w) {
      OnlyIsTheOnly(s, q.key);
    }
  }

  /** An answered review has claimed its approval, and a cancelled turn counts as interrupted; nothing else moves. */
  lemma ReviewClaims(cfg: Config, s: State, q: Request, w: World, k: string)
    requires Inv(cfg, s) && q.op.Review? && Respond(k, q.decision) in Handle(cfg, s, q, w).calls
    ensures var o := Handle(cfg, s, q, w);
            && o.state == s.(pending := o.state.pending, turnState := o.state.turnState)
            && o.state.pending == Some(map j | j in s.pending.value && j != k :: s.pending.value[j])
            && o.state.turnState == (if q.decision == Cancel then Interrupted else s.turnState)
            && o.calls == [Fence(true), Respond(k, q.decision)]
  {
    OnlyIsTheOnly(s, q.key);
    assert s.pending.value - {k} == map j | j in s.pending.value && j != k :: s.pending.value[j];
  }

  /** A review that is not answered changes nothing and says whether the request or the decision was at fault. */
  lemma ReviewRefuses(cfg: Config, s: State, q: Request, w: World)
    requires Inv(cfg, s) && q.op.Review? && Admitted(cfg, s, q, w) && !Wrote(Handle(cfg, s, q, w).calls)
    ensures var o := Handle(cfg, s, q, w);
            && o.state == s && o.calls == [Fence(true)]
            && o.response == Refused(if exists k :: TheOnly(s, q.key, k) then UnsafeDecision else AmbiguousRequest)
  {
    OnlyIsTheOnly(s, q.key);
  }

  // ---------------------------------------------------------------- the gates and the read-only operations

  /** A request for another epoch, binding or connection changes nothing and is told which. */
  lemma UnadmittedIsTold(cfg: Config, s: State, q: Request, w: World)
    requires Inv(cfg, s) && !Admitted(cfg, s, q, w)
    ensures var o := Handle(cfg, s, q, w);
            && o.state == s && Quiet(o.calls) && o.response.Refused?
            && (o.response.code == StaleEpoch <==> !s.active || q.epoch == "" || q.epoch != cfg.epoch || q.identity != cfg.identity)
            && (o.response.code == Unavailable <==> w.fenceAtEntry && o.response.code != StaleEpoch)
            && (o.response.code in {StaleEpoch, StaleBinding, Unavailable})
  {
  }

  /** What the epoch says it can do is what its tracked thread and turn allow, and what it lists is what it would let review. */
  lemma StatusServes(cfg: Config, s: State, q: Request, w: World)
    requires Inv(cfg, s) && (q.op.Status? || q.op.Approvals?) && Admitted(cfg, s, q, w)
    ensures var o := Handle(cfg, s, q, w);
            && o.state == s && o.calls == [Fence(true)] && o.response.Served?
            && var a := o.response.availability;
            && (a.start <==> s.threadState in {Idle, SystemError} && (s.turnID == "" || s.turnState in {Completed, TurnState.Failed, Interrupted}))
            && a.steer == a.interrupt
            && (a.steer <==> s.threadState in {Active, WaitingOnApproval, WaitingOnUserInput} && s.turnID != "" && s.turnState == InProgress)
            && (a.review <==> exists k :: k in s.pending.value && TheOnly(s, s.pending.value[k].requestID, k) && s.pending.value[k].decisions != [])
            && (forall e :: e in o.response.approvals <==> q.op.Approvals? && exists k :: k in s.pending.value && s.pending.value[k] == e)
  {
    ReviewableIsUnshared(s);
  }

  lemma ReviewableIsUnshared(s: State)
    requires s.pending.Some?
    ensures Reviewable(s) <==> exists k :: k in s.pending.value && TheOnly(s, s.pending.value[k].requestID, k) && s.pending.value[k].decisions != []
  {
    forall k | k in s.pending.value
      ensures |Matching(s.pending.value, s.pending.value[k].requestID)| == 1 <==> TheOnly(s, s.pending.value[k].requestID, k)
    {
      OnlyIsTheOnly(s, s.pending.value[k].requestID);
    }
  }

  lemma UnsupportedIsRefused(cfg: Config, s: State, q: Request, w: World)
    requires Inv(cfg, s) && q.op.OtherOperation? && Admitted(cfg, s, q, w)
    ensures Handle(cfg, s, q, w) == Outcome(s, Refused(InvalidOperation), [Fence(true)])
  {
  }

  // ---------------------------------------------------------------- interrupt

  /** An interrupt reaches the provider exactly while a turn runs, names that turn, and needs no read. */
  lemma InterruptWritesExactlyWhen(cfg: Config, s: State, q: Request, w: World)
    requires Inv(cfg, s) && q.op.Interrupt? && Admitted(cfg, s, q, w)
    ensures var o := Handle(cfg, s, q, w);
            && (Wrote(o.calls) <==> s.threadState in {Active, WaitingOnApproval, WaitingOnUserInput} && s.turnID != "" && s.turnState == InProgress)
            && o.calls == [Fence(true)] + (if Wrote(o.calls) then [InterruptTurn(cfg.identity.threadID, s.turnID)] else [])
            && (!Wrote(o.calls) ==> o.response == Refused(StaleTurn))
            && o.state == s.(turnState := if o.response.Done? then Interrupted else s.turnState)
  {
  }

  // ---------------------------------------------------------------- the provider's answer

  /** The answer the provider gave to this call fits it: the same thread, and the same turn or a named new one. */
  predicate Confirms(call: Call, w: World) {
    match call
    case StartTurn(threadID, _) => w.start.Answered? && w.start.value.threadID == threadID && w.start.value.turnID != ""
    case SteerTurn(threadID, turnID, _) => w.steer == Answered(ControlResult(threadID, turnID))
    case InterruptTurn(threadID, turnID) => w.interrupt == Answered(ControlResult(threadID, turnID))
    case Respond(_, _) => w.respond.None?
    case Inject(_, _) => w.inject.None?
    case _ => false
  }

  /** How the answer to this call was lost. */
  function LostBy(call: Call, w: World): Option<WireError> {
    match call
    case StartTurn(_, _) => if w.start.Lost? then Some(w.start.error) else None
    case SteerTurn(_, _, _) => if w.steer.Lost? then Some(w.steer.error) else None
    case InterruptTurn(_, _) => if w.interrupt.Lost? then Some(w.interrupt.error) else None
    case Respond(_, _) => w.respond
    case Inject(_, _) => w.inject
    case _ => None
  }

  /** The code of a lost answer. */
  function LostCode(op: Operation, call: Call): Code {
    if op.Peer? then PeerOutcomeUnknown
    else match call
      case StartTurn(_, _) => TurnStartFailed
      case SteerTurn(_, _, _) => StaleTurn
      case InterruptTurn(_, _) => TurnInterruptFailed
      case _ => ResponseIndeterminate
  }

  /** The one law of a written request, whatever its operation: the response is that of its last call. */
  predicate AnswersCall(cfg: Config, op: Operation, o: Outcome, w: World)
    requires o.calls != []
  {
    var call := o.calls[|o.calls| - 1];
    if Confirms(call, w) then
      && o.response.Done? && o.response.threadID == cfg.identity.threadID
      && (o.response.accepted <==> op.Peer? || call.SteerTurn?)
      && o.response.turnID == (if call.StartTurn? then w.start.value.turnID else o.state.turnID)
      && (call.StartTurn? ==> o.state.turnID == w.start.value.turnID && o.state.turnState == InProgress && o.state.threadState == Active)
    else
      match LostBy(call, w)
      case None => o.response == Refused(ProtocolError)
      case Some(error) =>
        o.response == Refused(if op.Peer? && error.response then ProviderRefused else if error.deadline then Timeout else LostCode(op, call))
  }

  lemma StartAnswers(cfg: Config, s: State, q: Request, w: World, calls: seq<Call>)
    requires Quiet(calls) && q.op.Start?
    ensures var o := HandleStart(cfg, s, q, w, calls); Wrote(o.calls) ==> AnswersCall(cfg, q.op, o, w)
    ensures var o := HandleStart(cfg, s, q, w, calls); !Wrote(o.calls) ==> o.response.Refused?
  {
  }

  lemma SteerAnswers(cfg: Config, s: State, q: Request, w: World, calls: seq<Call>)
    requires Quiet(calls) && q.op.Steer?
    ensures var o := HandleSteer(cfg, s, q, w, calls); Wrote(o.calls) ==> AnswersCall(cfg, q.op, o, w)
    ensures var o := HandleSteer(cfg, s, q, w, calls); !Wrote(o.calls) ==> o.response.Refused?
  {
  }

  lemma DeliverAnswers(cfg: Config, s: State, q: Request, w: World, calls: seq<Call>)
    requires Quiet(calls) && calls != [] && q.op.Deliver?
    ensures var o := HandleDeliver(cfg, s, q, w, calls); Wrote(o.calls) ==> AnswersCall(cfg, q.op, o, w)
    ensures var o := HandleDeliver(cfg, s, q, w, calls); !Wrote(o.calls) ==> o.response.Refused?
  {
    var (view, read) := DeliverRead(cfg, w, calls);
    assert !Wrote(read) && !Wrote(calls);
    if !view.NoWrite? {
      DeliverWriteAnswers(cfg, Refreshed(s, view), q.text, w, view.Drained?, read + [Fence(w.fenceAfterRead)]);
    }
  }

  lemma DeliverWriteAnswers(cfg: Config, s: State, text: string, w: World, drained: bool, calls: seq<Call>)
    requires calls != [] && !Wrote(calls)
    ensures var o := DeliverWrite(cfg, s, text, w, drained, calls);
            if Wrote(o.calls) then AnswersCall(cfg, Deliver, o, w) else o.response.Refused?
  {
  }

  lemma PeerAdmitAnswers(cfg: Config, s: State, q: Request, w: World, calls: seq<Call>)
    requires calls != [] && !Wrote(calls) && q.op.Peer?
    ensures var o := PeerAdmit(cfg, s, q, w, calls);
            if Wrote(o.calls) then AnswersCall(cfg, q.op, o, w) else o.response.Refused?
  {
  }

  lemma PeerAnswers(cfg: Config, s: State, q: Request, w: World, calls: seq<Call>)
    requires Quiet(calls) && calls != [] && q.op.Peer?
    ensures var o := HandlePeer(cfg, s, q, w, calls);
            if Wrote(o.calls) then AnswersCall(cfg, q.op, o, w) else o.response.Refused?
  {
    var view := Classify(cfg, w.firstRead, false);
    assert !Wrote(calls);
    if view.Usable? && w.fenceAfterRead {
      PeerAdmitAnswers(cfg, Refreshed(s, view), q, w, calls + [ReadSnapshot] + [Fence(true)]);
    }
  }

  lemma ReviewAnswers(cfg: Config, s: State, q: Request, w: World)
    requires Inv(cfg, s) && q.op.Review? && Admitted(cfg, s, q, w)
    ensures var o := Handle(cfg, s, q, w);
            if Wrote(o.calls) then AnswersCall(cfg, q.op, o, w) else o.response.Refused?
  {
    OnlyIsTheOnly(s, q.key);
  }

  lemma InterruptAnswers(cfg: Config, s: State, q: Request, w: World)
    requires Inv(cfg, s) && q.op.Interrupt? && Admitted(cfg, s, q, w)
    ensures var o := Handle(cfg, s, q, w);
            if Wrote(o.calls) then AnswersCall(cfg, q.op, o, w) else o.response.Refused?
  {
  }

  /** A written request is answered by what its provider call brought back; any other is refused or only reads. */
  lemma AnswersFollowCalls(cfg: Config, s: State, q: Request, w: World)
    requires Inv(cfg, s)
    ensures var o := Handle(cfg, s, q, w);
            if Wrote(o.calls) then AnswersCall(cfg, q.op, o, w)
            else o.response.Refused? || (o.response.Served? && (q.op.Status? || q.op.Approvals?))
  {
    if !Admitted(cfg, s, q, w) {
      UnadmittedIsTold(cfg, s, q, w);
    } else {
      match q.op
      case Start => StartAnswers(cfg, s, q, w, [Fence(true)]);
      case Steer => SteerAnswers(cfg, s, q, w, [Fence(true)]);
      case Deliver => DeliverAnswers(cfg, s, q, w, [Fence(true)]);
      case Peer => PeerAnswers(cfg, s, q, w, [Fence(true)]);
      case Interrupt => InterruptAnswers(cfg, s, q, w);
      case Review => ReviewAnswers(cfg, s, q, w);
      case Status =>
      case Approvals =>
      case OtherOperation =>
    }
  }

  // ---------------------------------------------------------------- text writes, state by state

  /** With a fresh read the thread alone decides: an idle or failed one takes a new turn, a running one a steer, any other nothing. */
  lemma DeliverFollowsThread(cfg: Config, s: State, q: Request, w: World)
    requires Inv(cfg, s) && q.op.Deliver? && Admitted(cfg, s, q, w) && !Text.Blank(q.text) && w.fenceAfterRead && ActingRead(w).Fresh?
    ensures var x := ActingRead(w).snapshot;
            var turnID, calls := Text.TrimSpace(x.turnID), Handle(cfg, s, q, w).calls;
            && (Wrote(calls) && calls[|calls| - 1] == StartTurn(cfg.identity.threadID, q.text) <==>
                  && x.threadID == cfg.identity.threadID && x.threadState in {Idle, SystemError}
                  && x.turnState in if turnID == "" then {NoTurn, TurnUnknown} else {Completed, TurnState.Failed, Interrupted})
            && (Wrote(calls) && calls[|calls| - 1] == SteerTurn(cfg.identity.threadID, turnID, q.text) <==>
                  && x.threadID == cfg.identity.threadID && x.threadState in {Active, WaitingOnApproval, WaitingOnUserInput}
                  && turnID != "" && x.turnState == InProgress)
  {
    DeliverWritesExactlyWhen(cfg, s, q, w);
    var x := ActingRead(w).snapshot;
    if Wrote(Handle(cfg, s, q, w).calls) {
      DeliverWritesWhat(cfg, s, q, w);
    }
  }

  /** A start writes this text to this thread, after its read and both fences. */
  lemma StartWritesWhat(cfg: Config, s: State, q: Request, w: World)
    requires Inv(cfg, s) && q.op.Start? && Wrote(Handle(cfg, s, q, w).calls)
    ensures Handle(cfg, s, q, w).calls == [Fence(true), ReadSnapshot, Fence(true), StartTurn(cfg.identity.threadID, q.text)]
  {
  }

  /** A peer message writes the stored text, right behind its claim: a new turn on a thread at rest, context on a running one. */
  lemma PeerWritesWhat(cfg: Config, s: State, q: Request, w: World)
    requires Inv(cfg, s) && q.op.Peer? && Wrote(Handle(cfg, s, q, w).calls)
    ensures var o := Handle(cfg, s, q, w);
            && w.peerText.Some? && |o.calls| >= 2 && o.calls[|o.calls| - 2] == ClaimRef(q.key)
            && o.calls[|o.calls| - 1] == (if Running(w.firstRead.snapshot.threadState) then Inject(cfg.identity.threadID, w.peerText.value)
                                          else StartTurn(cfg.identity.threadID, w.peerText.value))
            && o.state.used == s.used - w.pruned + {q.key}
  {
    PeerWritesExactlyWhen(cfg, s, q, w);
    PeerHandlingWritesWhat(cfg, s, q, w, [Fence(true)]);
  }

  lemma PeerHandlingWritesWhat(cfg: Config, s: State, q: Request, w: World, calls: seq<Call>)
    requires calls == [Fence(true)] && w.injectionSupported && w.peerReady && Serves(cfg, w.firstRead)
    requires !w.cancelledAfterRead && w.fenceAfterRead && PeerClaims(s, q, w)
    ensures var o := HandlePeer(cfg, s, q, w, calls);
            && |o.calls| >= 2 && o.calls[|o.calls| - 2] == ClaimRef(q.key)
            && o.calls[|o.calls| - 1] == (if Running(w.firstRead.snapshot.threadState) then Inject(cfg.identity.threadID, w.peerText.value)
                                          else StartTurn(cfg.identity.threadID, w.peerText.value))
            && o.state.used == s.used - w.pruned + {q.key}
  {
    ValidSnapshotsDecide(s, w.firstRead.snapshot);
  }

  // ---------------------------------------------------------------- why nothing was written

  /** The request gets as far as reading the lifecycle. */
  ghost predicate Reads(cfg: Config, s: State, q: Request, w: World) {
    && Admitted(cfg, s, q, w)
    && match q.op
       case Start => !Text.Blank(q.text)
       case Deliver => !Text.Blank(q.text)
       case Steer => !Text.Blank(q.text) && CanMutate(s)
       case Peer => w.injectionSupported && w.peerReady
       case _ => false
  }

  /** The one retry of a delivery was not waited out. */
  predicate RetryLapses(q: Request, w: World) {
    q.op.Deliver? && w.firstRead.Unread? && w.firstRead.refusal == RetryLater && !w.waited
  }

  /** Each code of a refused read names its cause, and only that cause has it. */
  predicate ReadCodes(cfg: Config, q: Request, w: World, code: Code) {
    var r := UsedRead(q, w);
    && (code == PayloadTooLarge <==> r.Unread? && r.refusal != Drain && (r.payloadTooLarge || r.refusal == TooLarge) && !RetryLapses(q, w))
    && (code == LifecycleRetry <==> RetryLapses(q, w) || (r.Unread? && r.refusal == RetryLater && !r.payloadTooLarge))
    && (code == LifecycleBusy <==> r.Unread? && r.refusal == Busy && !r.payloadTooLarge)
    && (code == TurnStateUnavailable <==>
          || (r.Unread? && r.refusal in {NoRefusal, OtherRefusal} && !r.payloadTooLarge)
          || (r.Fresh? && (!Serves(cfg, r) || (q.op.Steer? && r.snapshot.threadState == SystemError)))
          || (q.op.Steer? && !w.fenceAfterRead && (r.Fresh? || r.refusal == Drain)))
  }

  /** NoActiveTurn stands for every answer that is not a refusal: no read causes it. */
  function CodeOf(r: Response): Code {
    if r.Refused? then r.code else NoActiveTurn
  }

  lemma StartReadCodes(cfg: Config, s: State, q: Request, w: World, calls: seq<Call>)
    requires q.op.Start? && !Text.Blank(q.text)
    ensures ReadCodes(cfg, q, w, CodeOf(HandleStart(cfg, s, q, w, calls).response))
    ensures HandleStart(cfg, s, q, w, calls).response == Refused(TurnInProgress) <==>
              Serves(cfg, w.firstRead) && w.fenceAfterRead && w.firstRead.snapshot.threadState in {Active, WaitingOnApproval, WaitingOnUserInput}
    ensures HandleStart(cfg, s, q, w, calls).response == Refused(DrainRequired) <==> DrainedRead(w.firstRead) && w.fenceAfterRead && !CanStart(s)
  {
  }

  lemma SteerReadCodes(cfg: Config, s: State, q: Request, w: World, calls: seq<Call>)
    requires q.op.Steer? && !Text.Blank(q.text) && CanMutate(s)
    ensures ReadCodes(cfg, q, w, CodeOf(HandleSteer(cfg, s, q, w, calls).response))
  {
  }

  lemma DeliverReadCodes(cfg: Config, s: State, q: Request, w: World, calls: seq<Call>)
    requires q.op.Deliver? && !Text.Blank(q.text)
    ensures ReadCodes(cfg, q, w, CodeOf(HandleDeliver(cfg, s, q, w, calls).response))
    ensures HandleDeliver(cfg, s, q, w, calls).response == Refused(DrainRequired) <==>
              DrainedRead(ActingRead(w)) && w.fenceAfterRead && !CanStart(s) && !CanMutate(s)
  {
    var (view, read) := DeliverRead(cfg, w, calls);
    DeliverViewCodes(cfg, q, w, calls);
    if !view.NoWrite? && w.fenceAfterRead {
      if view.Usable? {
        ValidSnapshotsDecide(s, view.snapshot);
      }
      DeliverWriteCodes(cfg, Refreshed(s, view), q.text, w, view.Drained?, read + [Fence(w.fenceAfterRead)]);
    }
  }

  lemma DeliverViewCodes(cfg: Config, q: Request, w: World, calls: seq<Call>)
    requires q.op.Deliver?
    ensures var view := DeliverRead(cfg, w, calls).0;
            && (view.Drained? <==> DrainedRead(ActingRead(w))) && (view.NoWrite? ==> view.code != DrainRequired)
            && (if view.NoWrite? then ReadCodes(cfg, q, w, view.code) else ReadCodes(cfg, q, w, StaleBinding))
  {
  }

  lemma DeliverWriteCodes(cfg: Config, s: State, text: string, w: World, drained: bool, calls: seq<Call>)
    ensures var code := CodeOf(DeliverWrite(cfg, s, text, w, drained, calls).response);
            && code !in {PayloadTooLarge, LifecycleRetry, LifecycleBusy, TurnStateUnavailable}
            && (code == DrainRequired <==> drained && !CanStart(s) && !CanMutate(s))
  {
  }

  lemma PeerAdmitCodes(cfg: Config, s: State, q: Request, w: World, calls: seq<Call>)
    ensures var code := CodeOf(PeerAdmit(cfg, s, q, w, calls).response);
            && code !in {PayloadTooLarge, LifecycleRetry, LifecycleBusy, TurnStateUnavailable, PeerInjectionUnsupported, DrainRequired}
            && PeerCodes(s, q, w, code)
  {
    if PeerLooked(w) {
      PeerClaimCodes(cfg, s.(used := s.used - w.pruned), q, w.peerText.value, w,
        calls + [PruneClaims] + [Fence(true)] + [ReadEnvelope(q.key)] + [Fence(true)]);
    }
  }

  lemma PeerClaimCodes(cfg: Config, s: State, q: Request, text: string, w: World, calls: seq<Call>)
    ensures var code := CodeOf(PeerClaim(cfg, s, q, text, w, calls).response);
            && code !in {PayloadTooLarge, LifecycleRetry, LifecycleBusy, TurnStateUnavailable, PeerInjectionUnsupported, DrainRequired}
            && code !in {PeerInvalid, StaleBinding}
            && (code == PeerClaimUsed <==> q.key in s.used || (|s.used| < 256 && w.claim == ClaimFailed))
            && (code == PeerBusy <==> q.key !in s.used && (|s.used| >= 256 || w.claim == ClaimsFull))
  {
  }

  predicate PeerPruned(w: World) {
    !w.pruneFailed && !w.cancelledAfterPrune && w.fenceAfterPrune
  }

  predicate PeerLooked(w: World) {
    PeerPruned(w) && w.peerText.Some? && !w.cancelledAfterEnvelope && w.fenceAfterEnvelope
  }

  /** Past the read each code of a refused peer message names its cause, and only that cause has it. */
  predicate PeerCodes(s: State, q: Request, w: World, code: Code) {
    var used := s.used - w.pruned;
    && (code == PeerInvalid <==> PeerPruned(w) && w.peerText == None)
    && (code == PeerClaimUsed <==> w.pruneFailed || (PeerLooked(w) && (q.key in used || (|used| < 256 && w.claim == ClaimFailed))))
    && (code == PeerBusy <==> PeerLooked(w) && q.key !in used && (|used| >= 256 || w.claim == ClaimsFull))
    && (code == StaleBinding <==> !w.pruneFailed && (!PeerPruned(w) || (w.peerText.Some? && !PeerLooked(w))))
  }

  lemma PeerReadCodes(cfg: Config, s: State, q: Request, w: World, calls: seq<Call>)
    requires q.op.Peer? && w.injectionSupported && w.peerReady
    ensures var code := CodeOf(HandlePeer(cfg, s, q, w, calls).response);
            && ReadCodes(cfg, q, w, code) && (code == DrainRequired <==> DrainedRead(w.firstRead))
            && (Serves(cfg, w.firstRead) && !w.cancelledAfterRead && w.fenceAfterRead ==> PeerCodes(s, q, w, code))
            && (Serves(cfg, w.firstRead) && w.cancelledAfterRead ==> code == PeerInvalid)
            && (Serves(cfg, w.firstRead) && !w.cancelledAfterRead && !w.fenceAfterRead ==> code == StaleBinding)
  {
    var view := Classify(cfg, w.firstRead, false);
    if view.Usable? && w.fenceAfterRead {
      ValidSnapshotsDecide(s, view.snapshot);
      PeerAdmitCodes(cfg, Refreshed(s, view), q, w, calls + [ReadSnapshot] + [Fence(true)]);
    }
  }

  /** Every text operation that reads the lifecycle tells why the read could not serve it, by a code nothing else has. */
  lemma ReadRefusalsTell(cfg: Config, s: State, q: Request, w: World)
    requires Inv(cfg, s) && Reads(cfg, s, q, w)
    ensures ReadCodes(cfg, q, w, CodeOf(Handle(cfg, s, q, w).response))
  {
    match q.op
    case Start => StartReadCodes(cfg, s, q, w, [Fence(true)]);
    case Steer => SteerReadCodes(cfg, s, q, w, [Fence(true)]);
    case Deliver => DeliverReadCodes(cfg, s, q, w, [Fence(true)]);
    case Peer => PeerReadCodes(cfg, s, q, w, [Fence(true)]);
  }

  /** A text operation that does not get to its read is told what is missing, and changes nothing. */
  lemma UnreadIsTold(cfg: Config, s: State, q: Request, w: World)
    requires Inv(cfg, s) && Admitted(cfg, s, q, w) && !Reads(cfg, s, q, w) && (q.op.Start? || q.op.Deliver? || q.op.Steer? || q.op.Peer?)
    ensures Handle(cfg, s, q, w) == Outcome(s,
              Refused(if q.op.Peer? then (if w.injectionSupported then PeerInvalid else PeerInjectionUnsupported)
                      else if Text.Blank(q.text) then StaleTurn else NoActiveTurn), [Fence(true)])
  {
  }

  // ---------------------------------------------------------------- what a request leaves tracked

  /** The tracked thread and turn are those of a started turn, of the read the epoch reconciled with, or the old ones. */
  predicate Tracks(cfg: Config, s: State, q: Request, w: World, t: State) {
    if WritesStart(cfg, s, q, w) && Accepts(cfg, w) then
      t.turnID == w.start.value.turnID && t.turnState == InProgress && t.threadState == Active
    else if Reconciles(cfg, s, q, w) then
      var x := UsedRead(q, w).snapshot;
      t.turnID == Text.TrimSpace(x.turnID) && t.turnState == x.turnState && t.threadState == x.threadState
    else t.turnID == s.turnID && t.turnState == s.turnState && t.threadState == s.threadState
  }

  lemma StartTracks(cfg: Config, s: State, q: Request, w: World, calls: seq<Call>)
    requires q.op.Start?
    ensures Tracks(cfg, s, q, w, HandleStart(cfg, s, q, w, calls).state)
  {
  }

  lemma SteerTracks(cfg: Config, s: State, q: Request, w: World, calls: seq<Call>)
    requires q.op.Steer?
    ensures Tracks(cfg, s, q, w, HandleSteer(cfg, s, q, w, calls).state)
  {
  }

  lemma DeliverTracks(cfg: Config, s: State, q: Request, w: World, calls: seq<Call>)
    requires q.op.Deliver? && calls != [] && !Wrote(calls)
    ensures Tracks(cfg, s, q, w, HandleDeliver(cfg, s, q, w, calls).state)
  {
    ActingView(cfg, s, w, calls);
  }

  lemma PeerTracks(cfg: Config, s: State, q: Request, w: World, calls: seq<Call>)
    requires q.op.Peer?
    ensures Tracks(cfg, s, q, w, HandlePeer(cfg, s, q, w, calls).state)
  {
    var view := Classify(cfg, w.firstRead, false);
    if view.Usable? && w.fenceAfterRead {
      ValidSnapshotsDecide(s, view.snapshot);
      PeerAdmitTracks(cfg, Refreshed(s, view), q, w, calls + [ReadSnapshot] + [Fence(true)]);
    }
  }

  lemma PeerAdmitTracks(cfg: Config, s: State, q: Request, w: World, calls: seq<Call>)
    ensures var t := PeerAdmit(cfg, s, q, w, calls).state;
            if PeerClaims(s, q, w) && CanStart(s) && Accepts(cfg, w) then
              t.turnID == w.start.value.turnID && t.turnState == InProgress && t.threadState == Active
            else t.turnID == s.turnID && t.turnState == s.turnState && t.threadState == s.threadState
  {
  }

  /** After any text request the epoch tracks what the provider last showed or accepted. */
  lemma RequestTracks(cfg: Config, s: State, q: Request, w: World)
    requires Inv(cfg, s) && Admitted(cfg, s, q, w) && (q.op.Start? || q.op.Deliver? || q.op.Steer? || q.op.Peer?)
    ensures Tracks(cfg, s, q, w, Handle(cfg, s, q, w).state)
  {
    match q.op
    case Start => StartTracks(cfg, s, q, w, [Fence(true)]);
    case Steer => SteerTracks(cfg, s, q, w, [Fence(true)]);
    case Deliver => DeliverTracks(cfg, s, q, w, [Fence(true)]);
    case Peer => PeerTracks(cfg, s, q, w, [Fence(true)]);
  }

  // ---------------------------------------------------------------- notifications

  /** The tracked thread and turn follow the notifications of the own thread, field by field. */
  lemma NotificationsTrack(cfg: Config, s: State, n: Notification)
    requires Inv(cfg, s) && s.active
    ensures var t := Notified(cfg, s, n);
            var own := (n.TurnStarted? || n.TurnCompleted? || n.ThreadStatus?) && n.threadID == cfg.identity.threadID;
            && t.active && t.used == s.used
            && t.turnID == (if own && n.TurnStarted? then n.turnID else s.turnID)
            && t.threadState == (if own && n.TurnStarted? then Active else if own && n.ThreadStatus? then n.threadState else s.threadState)
            && t.turnState == (if own && n.TurnStarted? then InProgress
                               else if own && n.TurnCompleted? && n.turnID == s.turnID then n.turnState else s.turnState)
  {
  }

  /** A raw id becomes answerable exactly by an approval of the tracked turn under a new, unpoisoned id; it is then that approval. */
  lemma AdmittedExactlyWhen(cfg: Config, s: State, n: Notification, k: string)
    requires Inv(cfg, s) && s.active && !Pending(s, k)
    ensures var t := Notified(cfg, s, n);
            && (Pending(t, k) <==>
                  && n.Approval? && n.envelope.rawID == k && n.envelope.threadID == cfg.identity.threadID
                  && n.envelope.turnID == s.turnID && n.envelope.itemID != "" && !Poisoned(s, k))
            && (Pending(t, k) ==> t.pending.value[k] == n.envelope)
  {
  }

  /** A raw id becomes unanswerable for good exactly by a second, different approval of the tracked turn under it. */
  lemma PoisonedExactlyWhen(cfg: Config, s: State, n: Notification, k: string)
    requires Inv(cfg, s) && s.active && !Poisoned(s, k)
    ensures Poisoned(Notified(cfg, s, n), k) <==>
              && n.Approval? && n.envelope.rawID == k && n.envelope.threadID == cfg.identity.threadID && n.envelope.turnID == s.turnID
              && n.envelope.itemID != "" && Pending(s, k) && s.pending.value[k] != n.envelope
  {
  }

  /** An answerable raw id is lost exactly by a conflicting approval of the tracked turn, its resolution, or a turn boundary. */
  lemma LostExactlyWhen(cfg: Config, s: State, n: Notification, k: string)
    requires Inv(cfg, s) && s.active && Pending(s, k)
    ensures var t := Notified(cfg, s, n);
            && (!Pending(t, k) <==>
                  match n
                  case Approval(e) => e.rawID == k && e != s.pending.value[k] && e.threadID == cfg.identity.threadID && e.turnID == s.turnID && e.itemID != ""
                  case TurnStarted(threadID, _) => threadID == cfg.identity.threadID
                  case TurnCompleted(threadID, turnID, _) => threadID == cfg.identity.threadID && turnID == s.turnID
                  case Resolved(threadID, rawID) => threadID == cfg.identity.threadID && rawID == k
                  case _ => false)
            && (Pending(t, k) ==> t.pending.value[k] == s.pending.value[k])
  {
  }
}
