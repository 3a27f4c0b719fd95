/** The sender's reading of a control answer, and the delivery record it commits. */
module TurnPush {
  import opened ControlTypes
  import opened ControlSpec
  import opened ControlSafety
  import opened ControlDelivery
  import ControlAnswers
  import opened Options
  import Text

  /** What callControl returns: the typed pre-transport refusal, a lost transport, or an answer. */
  datatype CallResult = BindingRefused | TransportLost | Replied(response: Response)

  /** `steer` marks the one start refusal that proves the thread is busy. */
  datatype Verdict = Delivered | KnownRefused(steer: bool) | Unknown

  predicate CommonRefusal(code: Code) {
    || code.StaleEpoch? || code.StaleBinding? || code.Unavailable? || code.TurnStateUnavailable?
    || code.LifecycleRetry? || code.LifecycleBusy? || code.DrainRequired? || code.PayloadTooLarge? || code.InvalidOperation?
  }

  function Classified(op: Operation, result: CallResult): Verdict {
    match result
    case BindingRefused => KnownRefused(false)
    case TransportLost => Unknown
    case Replied(response) =>
      if !response.Refused? then Delivered else
      match op
      case Start =>
        if response.code.TurnInProgress? then KnownRefused(true)
        else if CommonRefusal(response.code) || response.code.StaleTurn? then KnownRefused(false) else Unknown
      case Peer =>
        if CommonRefusal(response.code) || response.code.NoActiveTurn? || response.code.PeerInjectionUnsupported?
           || response.code.PeerBusy? || response.code.PeerInvalid? || response.code.ProviderRefused?
        then KnownRefused(false) else Unknown
      case Deliver => if CommonRefusal(response.code) || response.code.NoActiveTurn? then KnownRefused(false) else Unknown
      case Steer => if CommonRefusal(response.code) || response.code.NoActiveTurn? then KnownRefused(false) else Unknown
      case _ => Unknown
  }

  predicate IsTextWrite(op: Operation) {
    op.Start? || op.Steer? || op.Deliver? || op.Peer?
  }

  /** The provider itself answered the peer write with an error. */
  ghost predicate ProviderAnsweredError(cfg: Config, s: State, q: Request, w: World)
    requires HasMaps(s)
  {
    q.op.Peer? && Wrote(Handle(cfg, s, q, w).calls) && AnsweredError(Handle(cfg, s, q, w).calls, w)
  }

  /** The last call is a peer write that the provider answered with an error. */
  predicate AnsweredError(calls: seq<Call>, w: World) {
    && calls != []
    && if calls[|calls| - 1].StartTurn? then w.start.Lost? && w.start.error.response
       else w.inject.Some? && w.inject.value.response
  }

  /** The pre-write refusals the sender still reads as unknown. */
  ghost predicate CautiousRefusal(q: Request, response: Response) {
    || ((q.op.Deliver? || q.op.Steer?) && Text.Blank(q.text) && response == Refused(StaleTurn))
    || (q.op.Peer? && response == Refused(PeerClaimUsed))
  }

  /** A known refusal is exactly a refusal without a provider write, up to two cautious codes and one answered error. */
  lemma KnownRefusalExactlyWhen(cfg: Config, s: State, q: Request, w: World)
    requires Inv(cfg, s) && IsTextWrite(q.op)
    ensures var o := Handle(cfg, s, q, w);
            Classified(q.op, Replied(o.response)).KnownRefused? <==>
              && o.response.Refused?
              && (!Wrote(o.calls) || ProviderAnsweredError(cfg, s, q, w))
              && !CautiousRefusal(q, o.response)
  {
    match q.op
    case Peer => PeerVerdict(cfg, s, q, w);
    case Start => StartVerdict(cfg, s, q, w);
    case Steer => SteerVerdict(cfg, s, q, w);
    case Deliver => DeliverVerdict(cfg, s, q, w);
  }

  /** Refused without a write, or after one, as the verdict says. */
  ghost predicate VerdictExact(q: Request, o: Outcome) {
    Classified(q.op, Replied(o.response)).KnownRefused? <==>
      o.response.Refused? && !Wrote(o.calls) && !CautiousRefusal(q, o.response)
  }

  lemma StartVerdict(cfg: Config, s: State, q: Request, w: World)
    requires Inv(cfg, s) && q.op.Start?
    ensures VerdictExact(q, Handle(cfg, s, q, w))
  {
  }

  lemma SteerVerdict(cfg: Config, s: State, q: Request, w: World)
    requires Inv(cfg, s) && q.op.Steer?
    ensures VerdictExact(q, Handle(cfg, s, q, w))
  {
    SteerNeverReportsDrain(cfg, s, q, w);
  }

  lemma DeliverVerdict(cfg: Config, s: State, q: Request, w: World)
    requires Inv(cfg, s) && q.op.Deliver?
    ensures VerdictExact(q, Handle(cfg, s, q, w))
  {
    var (view, read) := DeliverRead(cfg, w, [Fence(true)]);
    ActingView(cfg, s, w, [Fence(true)]);
    if !view.NoWrite? {
      DeliverWriteVerdict(cfg, Refreshed(s, view), q.text, w, view.Drained?, read + [Fence(w.fenceAfterRead)]);
    }
  }

  lemma DeliverWriteVerdict(cfg: Config, s: State, text: string, w: World, drained: bool, calls: seq<Call>)
    requires calls != [] && !Wrote(calls)
    ensures var o := DeliverWrite(cfg, s, text, w, drained, calls);
            Classified(Deliver, Replied(o.response)).KnownRefused? <==> o.response.Refused? && !Wrote(o.calls)
  {
  }

  lemma PeerWriteVerdict(cfg: Config, s: State, text: string, w: World, calls: seq<Call>)
    ensures var o := PeerWrite(cfg, s, text, w, calls);
            Wrote(o.calls) && (Classified(Peer, Replied(o.response)).KnownRefused? <==>
              if CanStart(s) then w.start.Lost? && w.start.error.response else w.inject.Some? && w.inject.value.response)
  {
  }

  lemma PeerVerdict(cfg: Config, s: State, q: Request, w: World)
    requires Inv(cfg, s) && q.op.Peer?
    ensures var o := Handle(cfg, s, q, w);
            Classified(Peer, Replied(o.response)).KnownRefused? <==>
              && o.response.Refused? && (!Wrote(o.calls) || ProviderAnsweredError(cfg, s, q, w))
              && !CautiousRefusal(q, o.response)
  {
    PeerNeverFindsNoTurn(cfg, s, q, w);
    var view := Classify(cfg, w.firstRead, false);
    if view.Usable? {
      PeerAdmitVerdict(cfg, Refreshed(s, view), q, w, [Fence(true), ReadSnapshot, Fence(true)]);
      assert [Fence(true)] + [ReadSnapshot] + [Fence(true)] == [Fence(true), ReadSnapshot, Fence(true)];
    }
  }

  /** Past the fences a peer refusal is known exactly when nothing was written, or an error was answered. */
  lemma PeerAdmitVerdict(cfg: Config, s: State, q: Request, w: World, calls: seq<Call>)
    requires calls != [] && !Wrote(calls)
    ensures var o := PeerAdmit(cfg, s, q, w, calls);
            Classified(Peer, Replied(o.response)).KnownRefused? <==>
              && o.response.Refused? && o.response != Refused(PeerClaimUsed)
              && (!Wrote(o.calls) || AnsweredError(o.calls, w))
  {
    if w.peerText.Some? {
      PeerWriteVerdict(cfg, s.(used := s.used - w.pruned + {q.key}), w.peerText.value, w,
        calls + [PruneClaims] + [Fence(true)] + [ReadEnvelope(q.key)] + [Fence(true)] + [ClaimRef(q.key)]);
    }
  }

  // ---------------------------------------------------------------- the committed delivery

  /** One push attempt: refused before transport, or handled by an epoch with its answer possibly lost. */
  datatype Attempt = NotSent | Sent(cfg: Config, s: State, q: Request, w: World, lost: bool)

  ghost predicate Proper(a: Attempt) {
    a.Sent? ==> Inv(a.cfg, a.s) && a.q.op.Peer?
  }

  ghost function ResultOf(a: Attempt): CallResult
    requires Proper(a)
  {
    match a
    case NotSent => BindingRefused
    case Sent(cfg, s, q, w, lost) => if lost then TransportLost else Replied(Handle(cfg, s, q, w).response)
  }

  /** A provider write was made and the provider did not itself answer with an error. */
  ghost predicate MayHaveWritten(a: Attempt)
    requires Proper(a)
  {
    a.Sent? && Wrote(Handle(a.cfg, a.s, a.q, a.w).calls) && !ProviderAnsweredError(a.cfg, a.s, a.q, a.w)
  }

  datatype Ending = DeliveredTo | FailedWith(unknown: bool) | ExpiredAt | Otherwise

  datatype Delivery = Open | Settled(ending: Ending)

  /** What the store's Apply meets: a record with this delivery, accepted before or after the event was seen, or an error. */
  datatype StoreAnswer = StoreFails | Holds(held: Delivery, early: bool)

  /** The store reducer: a settled delivery absorbs every later event, and an event from before acceptance is dropped. */
  function Reduced(held: Delivery, early: bool, ending: Ending): Delivery {
    if held.Settled? || early then held else Settled(ending)
  }

  /** What the store keeps of an ending, or its projection on the caller's copy when the store cannot be written. */
  function Kept(store: StoreAnswer, ending: Ending): Delivery {
    match store
    case StoreFails => Settled(ending)
    case Holds(held, early) => Reduced(held, early, ending)
  }

  /** terminalCoordination: the record the sender is shown, and whether the store has it. */
  method TerminalCoordination(record: Delivery, ending: Ending, store: StoreAnswer) returns (shown: Delivery, stored: bool)
    requires record.Open? && !ending.DeliveredTo?
    ensures shown == Kept(store, ending) && (stored <==> store.Holds?)
    ensures stored && store.held.Settled? ==> shown == store.held
  {
    match store
    case StoreFails =>
      shown, stored := Settled(ending), false;
    case Holds(held, early) =>
      shown, stored := Reduced(held, early, ending), true;
  }

  /** The ending a push commits. */
  function Concluded(expired: bool, ready: bool, result: CallResult): Ending {
    if expired then ExpiredAt
    else if !ready then FailedWith(false)
    else match Classified(Peer, result)
      case Delivered => DeliveredTo
      case KnownRefused(_) => FailedWith(false)
      case Unknown => FailedWith(true)
  }

  /** What the sender is shown after a push of a record that its own copy has open. */
  function Shown(expired: bool, ready: bool, result: CallResult, store: StoreAnswer): Delivery {
    var ending := Concluded(expired, ready, result);
    if ending.DeliveredTo? && store.StoreFails? then Settled(FailedWith(true)) else Kept(store, ending)
  }

  /** The provider's own answer confirms the last call of this push. */
  ghost predicate Confirmed(a: Attempt)
    requires Proper(a)
  {
    && a.Sent? && Wrote(Handle(a.cfg, a.s, a.q, a.w).calls)
    && var calls := Handle(a.cfg, a.s, a.q, a.w).calls; ControlAnswers.Confirms(calls[|calls| - 1], a.w)
  }

  /** The push refused before any write, and not because an earlier write of the same reference may stand. */
  ghost predicate RefusedCleanly(a: Attempt)
    requires Proper(a)
  {
    a.Sent? && !Wrote(Handle(a.cfg, a.s, a.q, a.w).calls) && Handle(a.cfg, a.s, a.q, a.w).response != Refused(PeerClaimUsed)
  }

  /** Every ending has its one cause: a known failure was surely not written, a delivery was confirmed, and only the rest is unknown. */
  lemma PushConcludesExactly(a: Attempt, expired: bool, ready: bool)
    requires Proper(a)
    requires expired || !ready ==> a.NotSent?
    ensures var ending := Concluded(expired, ready, ResultOf(a));
            && (ending == ExpiredAt <==> expired)
            && (ending == DeliveredTo <==> a.Sent? && !a.lost && Confirmed(a))
            && (ending == FailedWith(false) <==>
                  !expired && (a.NotSent? || (!a.lost && (RefusedCleanly(a) || ProviderAnsweredError(a.cfg, a.s, a.q, a.w)))))
            && ending != Otherwise
  {
    if a.Sent? {
      PeerEnds(a.cfg, a.s, a.q, a.w);
    }
  }

  /** The verdict on a peer answer, by what was written and what came back. */
  lemma PeerEnds(cfg: Config, s: State, q: Request, w: World)
    requires Inv(cfg, s) && q.op.Peer?
    ensures var o := Handle(cfg, s, q, w);
            var verdict := Classified(Peer, Replied(o.response));
            && (verdict == Delivered <==> Wrote(o.calls) && ControlAnswers.Confirms(o.calls[|o.calls| - 1], w))
            && (verdict == KnownRefused(false) <==>
                  (!Wrote(o.calls) && o.response != Refused(PeerClaimUsed)) || ProviderAnsweredError(cfg, s, q, w))
            && verdict != KnownRefused(true)
  {
    VerdictsExactlyWhen(cfg, s, q, w);
    KnownRefusalExactlyWhen(cfg, s, q, w);
    ControlAnswers.AnswersFollowCalls(cfg, s, q, w);
  }

  /** What is shown is what the push concluded, once the store takes it; a delivery the store cannot take is shown as unknown. */
  lemma PushShowsConclusion(expired: bool, ready: bool, result: CallResult)
    ensures var ending := Concluded(expired, ready, result);
            && Shown(expired, ready, result, Holds(Open, false)) == Settled(ending)
            && Shown(expired, ready, result, StoreFails) == Settled(if ending == DeliveredTo then FailedWith(true) else ending)
  {
  }

  /** A text write is delivered exactly when the provider confirmed it, and a refused start proves a busy thread exactly when its read showed one. */
  lemma VerdictsExactlyWhen(cfg: Config, s: State, q: Request, w: World)
    requires Inv(cfg, s) && IsTextWrite(q.op)
    ensures var o := Handle(cfg, s, q, w);
            var verdict := Classified(q.op, Replied(o.response));
            && (verdict == Delivered <==> Wrote(o.calls) && ControlAnswers.Confirms(o.calls[|o.calls| - 1], w))
            && (verdict == KnownRefused(true) <==>
                  && q.op.Start? && Admitted(cfg, s, q, w) && !Text.Blank(q.text) && Serves(cfg, w.firstRead) && w.fenceAfterRead
                  && w.firstRead.snapshot.threadState in {Active, WaitingOnApproval, WaitingOnUserInput})
            && Classified(q.op, BindingRefused) == KnownRefused(false) && Classified(q.op, TransportLost) == Unknown
  {
    ControlAnswers.AnswersFollowCalls(cfg, s, q, w);
    if q.op.Start? {
      BusyExactlyWhen(cfg, s, q, w);
    }
  }

  lemma BusyExactlyWhen(cfg: Config, s: State, q: Request, w: World)
    requires Inv(cfg, s) && q.op.Start?
    ensures Handle(cfg, s, q, w).response == Refused(TurnInProgress) <==>
              && Admitted(cfg, s, q, w) && !Text.Blank(q.text) && Serves(cfg, w.firstRead) && w.fenceAfterRead
              && w.firstRead.snapshot.threadState in {Active, WaitingOnApproval, WaitingOnUserInput}
  {
    if !Admitted(cfg, s, q, w) {
      ControlAnswers.UnadmittedIsTold(cfg, s, q, w);
    } else if Text.Blank(q.text) {
      ControlAnswers.UnreadIsTold(cfg, s, q, w);
    } else {
      ControlAnswers.StartReadCodes(cfg, s, q, w, [Fence(true)]);
    }
  }

  /** pushCodexCoordination on the caller's copy; `ready` stands for its configuration, rendering and binding steps. */
  method PushCodexCoordination(record: Delivery, expired: bool, ready: bool, result: CallResult, store: StoreAnswer)
    returns (shown: Delivery, asked: bool, stored: bool)
    ensures asked <==> record.Open? && !expired && ready
    ensures record.Settled? ==> shown == record && !stored
    ensures record.Open? ==> shown == Shown(expired, ready, result, store) && (stored <==> store.Holds?)
  {
    if record.Settled? {
      return record, false, false;
    }
    if expired {
      shown, stored := TerminalCoordination(record, ExpiredAt, store);
      return shown, false, stored;
    }
    if !ready {
      shown, stored := TerminalCoordination(record, FailedWith(false), store);
      return shown, false, stored;
    }
    var verdict := Classified(Peer, result);
    if verdict != Delivered {
      shown, stored := TerminalCoordination(record, FailedWith(verdict.Unknown?), store);
      return shown, true, stored;
    }
    match store
    case StoreFails =>
      return Settled(FailedWith(true)), true, false;
    case Holds(held, early) =>
      return Reduced(held, early, DeliveredTo), true, true;
  }

  /** A settled record tells the truth: a failure known to the sender had no write, and a success had one. */
  ghost predicate Truthful(shown: Delivery, a: Attempt)
    requires Proper(a)
  {
    match shown
    case Open => true
    case Settled(ending) =>
      match ending
      case DeliveredTo => MayHaveWritten(a)
      case FailedWith(unknown) => unknown || !MayHaveWritten(a)
      case ExpiredAt => !MayHaveWritten(a)
      case Otherwise => !MayHaveWritten(a)
  }

  /** Another writer settled the record before the push could. */
  predicate SettledMeanwhile(store: StoreAnswer) {
    store.Holds? && store.held.Settled?
  }

  /** Until somebody else settles the record every push shows the truth, and after that it shows what that one stored. */
  lemma PushIsHonestUntilSettled(a: Attempt, expired: bool, ready: bool, store: StoreAnswer)
    requires Proper(a)
    requires expired || !ready ==> a.NotSent?
    ensures var shown := Shown(expired, ready, ResultOf(a), store);
            && (!SettledMeanwhile(store) ==> Truthful(shown, a) && (shown.Open? <==> store.Holds? && store.early))
            && (SettledMeanwhile(store) ==> shown == store.held)
            && (Truthful(shown, a) <==> SettledMeanwhile(store) ==> Truthful(store.held, a))
  {
    if a.Sent? {
      KnownRefusalExactlyWhen(a.cfg, a.s, a.q, a.w);
      PeerDoneMeansWritten(a.cfg, a.s, a.q, a.w);
    }
  }

  /** The deadline settles the record while the provider takes the turn, and the sender is shown the expiry. */
  lemma ExpiryDuringPushMisleads()
    ensures exists a: Attempt :: Proper(a) && a.Sent? && MayHaveWritten(a)
              && Shown(false, true, ResultOf(a), Holds(Settled(ExpiredAt), false)) == Settled(ExpiredAt)
  {
    var id := Identity("a", "p", "r", "g", "t");
    var cfg := Config(id, "e", true);
    var idle := Snapshot("t", Idle, "", NoTurn);
    var lost: Answer<ControlResult> := Lost(WireError(false, false));
    var w := World(true, true, true, true, Fresh(idle), false, Fresh(idle), lost, lost, lost, None, None,
      true, true, false, false, false, {}, false, Some("hello"), Claimed);
    var q := Request(Peer, id, "e", "", "ref", Accept);
    var s := ControlSpec.Fresh(idle);
    PeerWritesExactlyWhen(cfg, s, q, w);
    var a := Sent(cfg, s, q, w, false);
    assert Proper(a) && MayHaveWritten(a);
  }

  lemma PeerDoneMeansWritten(cfg: Config, s: State, q: Request, w: World)
    requires Inv(cfg, s) && q.op.Peer?
    ensures var o := Handle(cfg, s, q, w);
            !o.response.Refused? ==> Wrote(o.calls) && !ProviderAnsweredError(cfg, s, q, w)
  {
  }
}
