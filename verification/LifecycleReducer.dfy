/** The lifecycle reducer object, field by field and loop by loop, proved against Lifecycle. */
module LifecycleReducer {
  import opened ControlTypes
  import opened Lifecycle
  import Text

  class Reducer {
    var epoch: nat
    var active: bool
    var identity: Identity
    var threadState: ThreadState
    var turnID: string
    var turnState: TurnState
    var interaction: Interaction
    var pending: map<string, PendingApproval>
    var terminal: map<string, TurnState>
    var errorNotified: bool
    var inputRequestID: string

    function Value(): State
      reads this
    {
      State(epoch, active, identity, threadState, turnID, turnState, interaction, pending, terminal, errorNotified, inputRequestID)
    }

    constructor ()
      ensures !active && pending == map[]
    {
      epoch, active, identity := 0, false, Identity("", "", "", "", "");
      threadState, turnID, turnState, interaction := ThreadUnknown, "", NoTurn, Unset;
      pending, terminal, errorNotified, inputRequestID := map[], map[], false, "";
    }

    method Begin(epoch: nat, identity: Identity, snapshot: Snapshot) returns (p: Projection)
      modifies this
      ensures (Value(), p) == Begun(old(Value()), epoch, identity, snapshot)
    {
      if epoch == 0 || !ValidIdentity(identity) || Text.TrimSpace(snapshot.threadID) != Text.TrimSpace(identity.threadID) {
        return REJECTED;
      }
      Open(epoch, identity, snapshot);
      if snapshot.threadState.NotLoaded? {
        p := Invalidate(epoch);
        return;
      }
      interaction := SnapshotInteraction(Value());
      p := Projection(true, false, turnID != "", interaction, {}, {}, Ended(snapshot.turnState));
    }

    method Open(epoch: nat, identity: Identity, snapshot: Snapshot)
      modifies this
      ensures Value() == Opened(epoch, identity, snapshot, old(interaction))
    {
      this.epoch, active, this.identity := epoch, true, identity;
      threadState, turnID, turnState := snapshot.threadState, Text.TrimSpace(snapshot.turnID), snapshot.turnState;
      pending, terminal, errorNotified, inputRequestID := map[], map[], false, "";
      if !snapshot.threadState.NotLoaded? && turnID != "" && Ended(snapshot.turnState) {
        terminal := terminal[turnID := snapshot.turnState];
      }
    }

    method Invalidate(epoch: nat) returns (p: Projection)
      modifies this
      ensures (Value(), p) == Invalidated(old(Value()), epoch)
    {
      if !active || epoch != this.epoch {
        return REJECTED;
      }
      var ids := CollectIDs(identity, pending, false);
      p := Projection(true, true, false, Unknown, {}, ids, true);
      active, pending, turnID, turnState := false, map[], "", TurnUnknown;
      errorNotified, inputRequestID, interaction := false, "", Unknown;
    }

    static method CollectIDs(identity: Identity, pending: map<string, PendingApproval>, notifiedOnly: bool) returns (ids: set<string>)
      ensures ids == NoticeIDs(identity, pending, notifiedOnly)
    {
      ids := {};
      var keys := pending.Keys;
      while keys != {}
        invariant keys <= pending.Keys
        invariant ids == set k | k in pending.Keys - keys && (!notifiedOnly || pending[k].notified) :: ApprovalID(identity, pending[k])
        decreases keys
      {
        var k :| k in keys;
        if !notifiedOnly || pending[k].notified {
          ids := ids + {ApprovalID(identity, pending[k])};
        }
        keys := keys - {k};
      }
    }

    /** Rewrites every entry's notified flag, as the loop over the Go map does. */
    static method Silence(pending: map<string, PendingApproval>) returns (silent: map<string, PendingApproval>)
      ensures silent == Unmarked(pending)
    {
      silent := pending;
      var keys := pending.Keys;
      while keys != {}
        invariant keys <= pending.Keys && silent.Keys == pending.Keys
        invariant forall k :: k in pending ==> silent[k] == if k in keys then pending[k] else pending[k].(notified := false)
        decreases keys
      {
        var k :| k in keys;
        silent := silent[k := silent[k].(notified := false)];
        keys := keys - {k};
      }
    }

    static method Raise(identity: Identity, pending: map<string, PendingApproval>, turnID: string)
      returns (marked: map<string, PendingApproval>, notices: set<Notice>)
      ensures marked == Marked(pending, turnID) && notices == Raisable(identity, pending, turnID)
    {
      marked, notices := pending, {};
      var keys := pending.Keys;
      while keys != {}
        invariant keys <= pending.Keys && marked.Keys == pending.Keys
        invariant forall k :: k in pending ==>
          marked[k] == if k !in keys && pending[k].turnID == turnID then pending[k].(notified := true) else pending[k]
        invariant notices == set k | k in pending.Keys - keys && pending[k].turnID == turnID && !pending[k].notified ::
                               ApprovalNotice(ApprovalID(identity, pending[k]), pending[k].(notified := true))
        decreases keys
      {
        var k :| k in keys;
        if pending[k].turnID == turnID && !pending[k].notified {
          marked := marked[k := pending[k].(notified := true)];
          notices := notices + {ApprovalNotice(ApprovalID(identity, pending[k]), marked[k])};
        }
        keys := keys - {k};
      }
    }

    method Apply(epoch: nat, e: Event) returns (p: Projection)
      modifies this
      ensures (Value(), p) == Applied(old(Value()), epoch, e)
    {
      if !active || epoch != this.epoch || Text.TrimSpace(e.threadID) != Text.TrimSpace(identity.threadID) {
        return REJECTED;
      }
      match e
      case TurnStarted(_, started) => p := StartTurn(started);
      case ThreadStatus(_, state) => p := ChangeStatus(state);
      case ApprovalPending(_, turn, item, request, kind) => p := AdmitApproval(turn, item, request, kind);
      case RequestResolved(_, request) => p := ResolveRequest(request);
      case TurnCompleted(_, turn, state) => p := CompleteTurn(turn, state);
      case OtherEvent(_) => p := REJECTED;
    }

    method StartTurn(started: string) returns (p: Projection)
      modifies this
      ensures (Value(), p) == OnTurnStarted(old(Value()), started)
    {
      p := Base(Value());
      if started == "" {
        return REJECTED;
      }
      var ids := CollectIDs(identity, pending, false);
      pending, terminal, errorNotified, inputRequestID := map[], map[], false, "";
      turnID, turnState, threadState, interaction := started, InProgress, Active, Working;
      p := p.(clears := ids, hasStartedTurn := true, clearProgress := true, interaction := interaction);
    }

    method ChangeStatus(state: ThreadState) returns (p: Projection)
      modifies this
      ensures (Value(), p) == OnThreadStatus(old(Value()), state)
    {
      p := Base(Value());
      if state.NotLoaded? {
        p := Invalidate(epoch);
        return;
      }
      var withdrawn := MoveThread(state);
      var raised := RaiseForStatus(state);
      p := p.(clears := withdrawn, notices := raised, interaction := interaction);
    }

    method MoveThread(state: ThreadState) returns (withdrawn: set<string>)
      modifies this
      ensures Value() == StatusChanged(old(Value()), state)
      ensures withdrawn == if old(threadState).WaitingOnApproval? && !state.WaitingOnApproval? then NotifiedIDs(old(Value())) else {}
    {
      withdrawn := {};
      if threadState.WaitingOnApproval? && !state.WaitingOnApproval? {
        withdrawn := CollectIDs(identity, pending, true);
        pending := Silence(pending);
      }
      threadState := state;
      if !state.WaitingOnUserInput? {
        inputRequestID := "";
      }
      interaction := LiveInteraction(Value());
    }

    method RaiseForStatus(state: ThreadState) returns (raised: set<Notice>)
      modifies this
      ensures (Value(), raised) == StatusNotices(old(Value()), state)
    {
      raised := {};
      if state.SystemError? && !errorNotified {
        raised := {Failure(Value(), false)};
        errorNotified := true;
      }
      if interaction.ApprovalRequired? {
        pending, raised := Raise(identity, pending, turnID);
      }
    }

    method AdmitApproval(turn: string, item: string, request: string, kind: ApprovalKind) returns (p: Projection)
      modifies this
      ensures (Value(), p) == OnApprovalPending(old(Value()), turn, item, request, kind)
    {
      p := Base(Value());
      if turn == "" || item == "" || request == "" || turn != turnID {
        return REJECTED;
      }
      if request in pending {
        if pending[request].turnID != turn || pending[request].itemID != item {
          return REJECTED;
        }
      } else {
        pending := pending[request := PendingApproval(turn, item, request, kind, false)];
      }
      interaction := LiveInteraction(Value());
      if interaction.ApprovalRequired? {
        var raised;
        pending, raised := Raise(identity, pending, turnID);
        p := p.(notices := raised);
      }
      p := p.(interaction := interaction);
    }

    method ResolveRequest(request: string) returns (p: Projection)
      modifies this
      ensures (Value(), p) == OnRequestResolved(old(Value()), request)
    {
      p := Base(Value());
      if request == inputRequestID && inputRequestID != "" {
        inputRequestID := "";
        if threadState.WaitingOnUserInput? {
          threadState := Active;
        }
        interaction := LiveInteraction(Value());
        return p.(interaction := interaction);
      }
      if request !in pending || pending[request].turnID != turnID {
        return REJECTED;
      }
      var resolved := pending[request];
      pending := pending - {request};
      interaction := LiveInteraction(Value());
      p := p.(clears := {ApprovalID(identity, resolved)}, interaction := interaction);
    }

    method CompleteTurn(turn: string, state: TurnState) returns (p: Projection)
      modifies this
      ensures (Value(), p) == OnTurnCompleted(old(Value()), turn, state)
    {
      p := Base(Value());
      if turn == "" || turn != turnID || turn in terminal || !Ended(state) {
        return REJECTED;
      }
      var ids := CollectIDs(identity, pending, false);
      p := p.(clears := ids, clearProgress := true);
      pending, inputRequestID, turnState := map[], "", state;
      terminal := terminal[turn := state];
      if state.Completed? {
        interaction := ResponseComplete;
        p := p.(notices := {CompletionNotice(CompletionID(identity, turn), turn)});
      } else {
        interaction := Quiet;
        if state.Failed? {
          p := p.(notices := {Failure(Value(), errorNotified)});
          errorNotified := true;
        }
      }
      p := p.(interaction := interaction);
    }

    method RequestInput(epoch: nat, q: InputRequest) returns (p: Projection)
      modifies this
      ensures (Value(), p) == InputRequested(old(Value()), epoch, q)
    {
      if q.requestID == "" || Text.Blank(q.threadID) || Text.Blank(q.turnID) || Text.Blank(q.itemID) {
        return REJECTED;
      }
      if !active || epoch != this.epoch || q.threadID != identity.threadID || q.turnID != turnID || !turnState.InProgress? {
        return REJECTED;
      }
      inputRequestID := q.requestID;
      interaction := InputRequired;
      p := Projection(true, false, true, interaction, {}, {}, false);
    }
  }
}
