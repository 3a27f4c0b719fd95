/** The mutex-guarded control epoch, statement by statement, proved against ControlSpec. */
module ControlEpoch {
  import opened ControlTypes
  import opened ControlSpec
  import opened Options
  import Text

  class CodexControlEpoch {
    const cfg: Config
    var active: bool
    var threadState: ThreadState
    var turnID: string
    var turnState: TurnState
    var pending: Option<map<string, Envelope>>
    var ambiguous: Option<set<string>>
    var peerUsed: set<string>
    /** The outside calls of the request being handled. */
    ghost var calls: seq<Call>

    function Value(): State
      reads this
    {
      State(active, threadState, turnID, turnState, pending, ambiguous, peerUsed)
    }

    ghost predicate Valid()
      reads this
    {
      HasMaps(Value())
    }

    constructor (cfg: Config, snapshot: Snapshot)
      ensures Valid() && this.cfg == cfg && Value() == ControlSpec.Fresh(snapshot) && calls == []
      ensures active && threadState == snapshot.threadState && turnID == Text.TrimSpace(snapshot.turnID) && turnState == snapshot.turnState
      ensures pending == Some(map[]) && ambiguous == Some({}) && peerUsed == {}
    {
      this.cfg := cfg;
      active := true;
      threadState, turnID, turnState := snapshot.threadState, Text.TrimSpace(snapshot.turnID), snapshot.turnState;
      pending, ambiguous := Some(map[]), Some({});
      peerUsed := {};
      calls := [];
    }

    method Revoke()
      modifies this
      ensures Valid() && Value() == Revoked(old(Value())) && calls == old(calls)
      ensures !active && pending.None? && ambiguous.None? && turnID == "" && turnState == TurnUnknown && peerUsed == old(peerUsed)
    {
      active := false;
      pending := None;
      ambiguous := None;
      turnID := "";
      turnState := TurnUnknown;
    }

    method ApplyNotification(n: Notification)
      requires Valid()
      modifies this
      ensures Valid() && Value() == Notified(cfg, old(Value()), n) && calls == old(calls)
    {
      if !active {
        return;
      }
      match n
      case Approval(e) =>
        if e.threadID != cfg.identity.threadID || e.turnID != turnID || e.itemID == "" {
          return;
        }
        if e.rawID in ambiguous.value {
          return;
        }
        if e.rawID in pending.value {
          if pending.value[e.rawID] != e {
            pending := Some(pending.value - {e.rawID});
            ambiguous := Some(ambiguous.value + {e.rawID});
          }
          return;
        }
        pending := Some(pending.value[e.rawID := e]);
      case BrokenApproval =>
      case Unrecognized =>
      case TurnStarted(threadID, started) =>
        if threadID == cfg.identity.threadID {
          BeginTurn(started);
        }
      case TurnCompleted(threadID, completed, state) =>
        if threadID == cfg.identity.threadID && completed == turnID {
          turnState := state;
          pending, ambiguous := Some(map[]), Some({});
        }
      case ThreadStatus(threadID, state) =>
        if threadID == cfg.identity.threadID {
          threadState := state;
        }
      case Resolved(threadID, rawID) =>
        if threadID == cfg.identity.threadID {
          pending := Some(pending.value - {rawID});
          ambiguous := Some(ambiguous.value - {rawID});
        }
    }

    method BeginTurn(started: string)
      requires Valid()
      modifies this
      ensures Valid() && Value() == Begun(old(Value()), started) && calls == old(calls)
    {
      turnID, turnState, threadState := started, InProgress, Active;
      pending := Some(map[]);
      ambiguous := Some({});
    }

    method ReconcileTurn(snapshot: Snapshot)
      requires Valid()
      modifies this
      ensures Valid() && Value() == Reconciled(old(Value()), snapshot) && calls == old(calls)
    {
      var turnChanged := turnID != Text.TrimSpace(snapshot.turnID);
      threadState := snapshot.threadState;
      turnID := Text.TrimSpace(snapshot.turnID);
      turnState := snapshot.turnState;
      if turnChanged || !snapshot.turnState.InProgress? {
        pending := Some(map[]);
        ambiguous := Some({});
      }
    }

    method Refresh(view: TurnView)
      requires Valid() && !view.NoWrite?
      modifies this
      ensures Valid() && Value() == Refreshed(old(Value()), view) && calls == old(calls)
    {
      if !view.Drained? {
        ReconcileTurn(view.snapshot);
      }
    }

    method Handle(q: Request, w: World) returns (response: Response)
      requires Valid()
      modifies this
      ensures Valid()
      ensures Outcome(Value(), response, calls) == ControlSpec.Handle(cfg, old(Value()), q, w)
    {
      calls := [];
      if !active || q.epoch == "" || q.epoch != cfg.epoch || q.identity != cfg.identity {
        return Refused(StaleEpoch);
      }
      calls := calls + [Fence(w.fenceAtEntry)];
      if !w.fenceAtEntry {
        return Refused(StaleBinding);
      }
      if !cfg.connected {
        return Refused(Unavailable);
      }
      assert calls == [Fence(w.fenceAtEntry)] && Value() == old(Value());
      response := DispatchRequest(q, w);
    }

    method DispatchRequest(q: Request, w: World) returns (response: Response)
      requires Valid() && active
      modifies this
      ensures Valid()
      ensures Outcome(Value(), response, calls) == Dispatch(cfg, old(Value()), q, w, old(calls))
    {
      match q.op
      case Status => response := Response.Served(Available(Value()), {});
      case Approvals => response := Response.Served(Available(Value()), Listed(Value()));
      case Deliver => response := DeliverText(q, w);
      case Peer => response := PeerContext(q, w);
      case Start => response := StartText(q, w);
      case Steer => response := SteerText(q, w);
      case Interrupt => response := InterruptCurrent(w);
      case Review => response := ReviewApproval(q, w);
      case OtherOperation => response := Refused(InvalidOperation);
    }

    method WriteStart(text: string, w: World) returns (response: Response)
      requires Valid()
      modifies this
      ensures Valid()
      ensures Outcome(Value(), response, calls) == StartTurnAt(cfg, old(Value()), text, w, old(calls))
    {
      calls := calls + [StartTurn(cfg.identity.threadID, text)];
      match w.start
      case Lost(error) => response := Failure(TurnStartFailed, error);
      case Answered(result) =>
        if result.threadID != cfg.identity.threadID || result.turnID == "" {
          return Refused(ProtocolError);
        }
        BeginTurn(result.turnID);
        response := Done(result.threadID, result.turnID, false);
    }

    method WriteSteer(expected: string, text: string, w: World) returns (response: Response)
      requires Valid()
      modifies this`calls
      ensures Valid()
      ensures Outcome(Value(), response, calls) == SteerTurnAt(cfg, old(Value()), expected, text, w, old(calls))
    {
      calls := calls + [SteerTurn(cfg.identity.threadID, expected, text)];
      match w.steer
      case Lost(error) => response := Failure(StaleTurn, error);
      case Answered(result) =>
        if result.threadID != cfg.identity.threadID || result.turnID != expected {
          return Refused(ProtocolError);
        }
        response := Done(result.threadID, result.turnID, true);
    }

    method StartText(q: Request, w: World) returns (response: Response)
      requires Valid()
      modifies this
      ensures Valid()
      ensures Outcome(Value(), response, calls) == HandleStart(cfg, old(Value()), q, w, old(calls))
    {
      if Text.Blank(q.text) {
        return Refused(StaleTurn);
      }
      calls := calls + [ReadSnapshot];
      var view := Classify(cfg, w.firstRead, false);
      if view.NoWrite? {
        return Refused(view.code);
      }
      calls := calls + [Fence(w.fenceAfterRead)];
      if !w.fenceAfterRead {
        return Refused(StaleBinding);
      }
      Refresh(view);
      if !CanStart(Value()) {
        return Refused(if view.Drained? then DrainRequired else TurnInProgress);
      }
      response := WriteStart(q.text, w);
    }

    method SteerText(q: Request, w: World) returns (response: Response)
      requires Valid()
      modifies this
      ensures Valid()
      ensures Outcome(Value(), response, calls) == HandleSteer(cfg, old(Value()), q, w, old(calls))
    {
      if Text.Blank(q.text) {
        return Refused(StaleTurn);
      }
      if !CanMutate(Value()) {
        return Refused(NoActiveTurn);
      }
      var expected := turnID;
      calls := calls + [ReadSnapshot];
      var view := Classify(cfg, w.firstRead, true);
      if view.NoWrite? {
        return Refused(view.code);
      }
      calls := calls + [Fence(w.fenceAfterRead)];
      if !w.fenceAfterRead {
        return Refused(TurnStateUnavailable);
      }
      Refresh(view);
      if turnID != expected || !CanMutate(Value()) {
        return Refused(if view.Drained? then DrainRequired else NoActiveTurn);
      }
      response := WriteSteer(expected, q.text, w);
    }

    method InterruptCurrent(w: World) returns (response: Response)
      requires Valid()
      modifies this
      ensures Valid()
      ensures Outcome(Value(), response, calls) == HandleInterrupt(cfg, old(Value()), w, old(calls))
    {
      if !CanMutate(Value()) {
        return Refused(StaleTurn);
      }
      calls := calls + [InterruptTurn(cfg.identity.threadID, turnID)];
      match w.interrupt
      case Lost(error) => response := Failure(TurnInterruptFailed, error);
      case Answered(result) =>
        if result.threadID != cfg.identity.threadID || result.turnID != turnID {
          return Refused(ProtocolError);
        }
        turnState := Interrupted;
        response := Done(result.threadID, result.turnID, false);
    }

    method DeliverText(q: Request, w: World) returns (response: Response)
      requires Valid()
      modifies this
      ensures Valid()
      ensures Outcome(Value(), response, calls) == HandleDeliver(cfg, old(Value()), q, w, old(calls))
    {
      if Text.Blank(q.text) {
        return Refused(StaleTurn);
      }
      ghost var before := calls;
      calls := calls + [ReadSnapshot];
      var answer := w.firstRead;
      if answer.Unread? && answer.refusal.RetryLater? {
        calls := calls + [WaitRetry];
        assert calls == before + [ReadSnapshot, WaitRetry];
        if !w.waited {
          return Refused(LifecycleRetry);
        }
        calls := calls + [ReadSnapshot];
        answer := w.secondRead;
      }
      var view := Classify(cfg, answer, false);
      if view.NoWrite? {
        return Refused(view.code);
      }
      calls := calls + [Fence(w.fenceAfterRead)];
      if !w.fenceAfterRead {
        return Refused(StaleBinding);
      }
      Refresh(view);
      var s := Value();
      if CanStart(s) {
        response := WriteStart(q.text, w);
      } else if !CanMutate(s) {
        return Refused(if view.Drained? then DrainRequired else NoActiveTurn);
      } else {
        response := WriteSteer(turnID, q.text, w);
      }
    }

    /** The pending approvals that carry the normalized request id; `from` are the raw ids of what it finds, each once. */
    static method Matches(pending: map<string, Envelope>, requestID: string) returns (matches: seq<Envelope>, ghost from: seq<string>)
      ensures |matches| == |Matching(pending, requestID)| && forall e :: e in matches ==> e.requestID == requestID
      ensures |from| == |matches|
      ensures forall i :: 0 <= i < |from| ==> from[i] in Matching(pending, requestID) && pending[from[i]] == matches[i]
      ensures forall i, j :: 0 <= i < j < |from| ==> from[i] != from[j]
    {
      matches, from := Scan(pending, requestID, Matching(pending, requestID));
    }

    /** The found raw ids, each once, with their approvals. */
    static ghost predicate Enumerates(pending: map<string, Envelope>, found: set<string>, matches: seq<Envelope>, from: seq<string>) {
      && |matches| == |from| == |found|
      && (forall i :: 0 <= i < |from| ==> from[i] in found && from[i] in pending && pending[from[i]] == matches[i])
      && (forall i, j :: 0 <= i < j < |from| ==> from[i] != from[j])
    }

    static lemma FindOne(pending: map<string, Envelope>, found: set<string>, matches: seq<Envelope>, from: seq<string>, k: string)
      requires Enumerates(pending, found, matches, from) && k !in found && k in pending
      ensures Enumerates(pending, found + {k}, matches + [pending[k]], from + [k])
    {
    }

    static method Scan(pending: map<string, Envelope>, requestID: string, ghost wanted: set<string>)
      returns (matches: seq<Envelope>, ghost from: seq<string>)
      requires forall k :: k in wanted <==> k in pending && pending[k].requestID == requestID
      ensures Enumerates(pending, wanted, matches, from)
    {
      matches, from := [], [];
      var keys := pending.Keys;
      ghost var found: set<string> := {};
      while keys != {}
        invariant keys <= pending.Keys && found !! keys && found <= wanted <= found + keys
        invariant Enumerates(pending, found, matches, from)
        decreases keys
      {
        var k :| k in keys;
        if pending[k].requestID == requestID {
          FindOne(pending, found, matches, from, k);
          matches, from, found := matches + [pending[k]], from + [k], found + {k};
        }
        keys := keys - {k};
      }
      assert found == wanted;
    }

    method ReviewApproval(q: Request, w: World) returns (response: Response)
      requires Valid() && active
      modifies this
      ensures Valid()
      ensures Outcome(Value(), response, calls) == HandleReview(old(Value()), q, w, old(calls))
    {
      var matches, from := Matches(pending.value, q.key);
      if |matches| != 1 {
        return Refused(AmbiguousRequest);
      }
      var e := matches[0];
      assert from[0] in Matching(pending.value, q.key);
      assert e == pending.value[Only(Matching(pending.value, q.key))];
      if !Answerable(e, q.decision) {
        return Refused(UnsafeDecision);
      }
      // The claim comes before the write: a lost answer is never retried.
      pending := Some(pending.value - {e.rawID});
      if q.decision.Cancel? {
        turnState := Interrupted;
      }
      calls := calls + [Respond(e.rawID, q.decision)];
      if w.respond.Some? {
        return Failure(ResponseIndeterminate, w.respond.value);
      }
      response := Done(e.threadID, e.turnID, false);
    }

    method PeerContext(q: Request, w: World) returns (response: Response)
      requires Valid()
      modifies this
      ensures Valid()
      ensures Outcome(Value(), response, calls) == HandlePeer(cfg, old(Value()), q, w, old(calls))
    {
      if !w.injectionSupported {
        return Refused(PeerInjectionUnsupported);
      }
      if !w.peerReady {
        return Refused(PeerInvalid);
      }
      calls := calls + [ReadSnapshot];
      var view := Classify(cfg, w.firstRead, false);
      if view.NoWrite? {
        return Refused(view.code);
      }
      if view.Drained? {
        return Refused(DrainRequired);
      }
      if w.cancelledAfterRead {
        return Refused(PeerInvalid);
      }
      calls := calls + [Fence(w.fenceAfterRead)];
      if !w.fenceAfterRead {
        return Refused(StaleBinding);
      }
      Refresh(view);
      var s := Value();
      if !CanStart(s) && !CanMutate(s) {
        return Refused(NoActiveTurn);
      }
      response := PeerAdmission(q, w);
    }

    method PeerAdmission(q: Request, w: World) returns (response: Response)
      requires Valid()
      modifies this
      ensures Valid()
      ensures Outcome(Value(), response, calls) == PeerAdmit(cfg, old(Value()), q, w, old(calls))
    {
      calls := calls + [PruneClaims];
      peerUsed := peerUsed - w.pruned;
      if w.pruneFailed {
        return Refused(PeerClaimUsed);
      }
      if w.cancelledAfterPrune {
        return Refused(StaleBinding);
      }
      calls := calls + [Fence(w.fenceAfterPrune)];
      if !w.fenceAfterPrune {
        return Refused(StaleBinding);
      }
      calls := calls + [ReadEnvelope(q.key)];
      if w.peerText.None? {
        return Refused(PeerInvalid);
      }
      if w.cancelledAfterEnvelope {
        return Refused(StaleBinding);
      }
      calls := calls + [Fence(w.fenceAfterEnvelope)];
      if !w.fenceAfterEnvelope {
        return Refused(StaleBinding);
      }
      if q.key in peerUsed {
        return Refused(PeerClaimUsed);
      }
      if |peerUsed| >= PEER_LEDGER_LIMIT {
        return Refused(PeerBusy);
      }
      calls := calls + [ClaimRef(q.key)];
      match w.claim
      case ClaimsFull => return Refused(PeerBusy);
      case ClaimFailed => return Refused(PeerClaimUsed);
      case Claimed =>
        peerUsed := peerUsed + {q.key};
        response := PeerWritten(w.peerText.value, w);
    }

    method PeerWritten(text: string, w: World) returns (response: Response)
      requires Valid()
      modifies this
      ensures Valid()
      ensures Outcome(Value(), response, calls) == PeerWrite(cfg, old(Value()), text, w, old(calls))
    {
      if CanStart(Value()) {
        calls := calls + [StartTurn(cfg.identity.threadID, text)];
        match w.start
        case Lost(error) => response := PeerFailure(error);
        case Answered(result) =>
          if result.threadID != cfg.identity.threadID || result.turnID == "" {
            return Refused(ProtocolError);
          }
          BeginTurn(result.turnID);
          response := Done(result.threadID, result.turnID, true);
      } else {
        calls := calls + [Inject(cfg.identity.threadID, text)];
        if w.inject.Some? {
          return PeerFailure(w.inject.value);
        }
        response := Done(cfg.identity.threadID, turnID, true);
      }
    }
  }
}
