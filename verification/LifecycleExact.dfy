/** What every input of the lifecycle reducer accepts, tracks and announces, on the fields of its state. */
module LifecycleExact {
  import opened ControlTypes
  import opened Lifecycle
  import opened LifecycleSafety
  import Text

  // ---------------------------------------------------------------- acceptance

  /** The input speaks of this epoch and of its thread. */
  predicate Own(s: State, i: Input) {
    && s.active && i.epoch == s.epoch
    && match i
       case Occur(_, e) => Text.TrimSpace(e.threadID) == Text.TrimSpace(s.identity.threadID)
       case AskInput(_, q) => q.threadID == s.identity.threadID
  }

  /** An input counts exactly when it is the epoch's own and names what is there: the current turn, a pending request, an unended turn. */
  lemma AcceptedExactlyWhen(s: State, i: Input)
    requires Inv(s)
    ensures Step(s, i).1.accepted <==>
              && Own(s, i)
              && match i
                 case AskInput(_, q) =>
                   && q.requestID != "" && !Text.Blank(q.threadID) && !Text.Blank(q.turnID) && !Text.Blank(q.itemID)
                   && q.turnID == s.turnID && s.turnState == InProgress
                 case Occur(_, TurnStarted(_, turnID)) => turnID != ""
                 case Occur(_, ThreadStatus(_, _)) => true
                 case Occur(_, ApprovalPending(_, turnID, itemID, requestID, _)) =>
                   turnID == s.turnID != "" && itemID != "" && requestID != "" && (requestID in s.pending ==> s.pending[requestID].itemID == itemID)
                 case Occur(_, RequestResolved(_, requestID)) => requestID in s.pending || requestID == s.inputRequestID != ""
                 case Occur(_, TurnCompleted(_, turnID, turnState)) =>
                   turnID == s.turnID != "" && turnID !in s.terminal && turnState in {Completed, TurnState.Failed, Interrupted}
                 case Occur(_, OtherEvent(_)) => false
  {
  }

  // ---------------------------------------------------------------- tracking

  predicate Starts(i: Input) {
    i.Occur? && i.e.TurnStarted?
  }

  predicate Completes(i: Input) {
    i.Occur? && i.e.TurnCompleted?
  }

  predicate Unloads(i: Input) {
    i.Occur? && i.e.ThreadStatus? && i.e.threadState == NotLoaded
  }

  predicate Changes(i: Input) {
    i.Occur? && i.e.ThreadStatus? && i.e.threadState != NotLoaded
  }

  predicate AnswersInput(s: State, i: Input) {
    i.Occur? && i.e.RequestResolved? && i.e.requestID == s.inputRequestID != ""
  }

  /** The tracked thread, turn and input request after an accepted input, field by field. */
  predicate TracksStep(s: State, i: Input, t: State) {
    && t.epoch == s.epoch && t.identity == s.identity && (t.active <==> !Unloads(i))
    && t.turnID == (if Starts(i) then i.e.turnID else if Unloads(i) then "" else s.turnID)
    && t.turnState == (if Starts(i) then InProgress else if Completes(i) then i.e.turnState else if Unloads(i) then TurnUnknown else s.turnState)
    && t.threadState == (if Starts(i) then Active else if Changes(i) then i.e.threadState
                         else if AnswersInput(s, i) && s.threadState == WaitingOnUserInput then Active else s.threadState)
    && t.inputRequestID == (if i.AskInput? then i.q.requestID
                            else if Starts(i) || Completes(i) || Unloads(i) || AnswersInput(s, i) then ""
                            else if Changes(i) && i.e.threadState != WaitingOnUserInput then "" else s.inputRequestID)
  }

  /** A failure is on record until the next turn or epoch, and a turn that ended never ends again. */
  predicate RecordsEnds(s: State, i: Input, t: State) {
    && (t.errorNotified <==>
          && !Starts(i) && !Unloads(i)
          && (s.errorNotified || (Completes(i) && i.e.turnState == TurnState.Failed) || (Changes(i) && i.e.threadState == SystemError)))
    && t.terminal == (if Starts(i) then map[] else if Completes(i) then s.terminal[i.e.turnID := i.e.turnState] else s.terminal)
  }

  lemma StepTracks(s: State, i: Input)
    requires Inv(s) && Step(s, i).1.accepted
    ensures TracksStep(s, i, Step(s, i).0) && RecordsEnds(s, i, Step(s, i).0)
  {
    if i.Occur? {
      match i.e
      case TurnStarted(_, _) => TurnTracks(s, i);
      case TurnCompleted(_, _, _) => TurnTracks(s, i);
      case ThreadStatus(_, _) => StatusTracks(s, i);
      case ApprovalPending(_, turnID, itemID, requestID, kind) => ApprovalTracks(s, turnID, itemID, requestID, kind);
      case RequestResolved(_, _) => ResolutionTracks(s, i);
      case OtherEvent(_) =>
    }
  }

  lemma TurnTracks(s: State, i: Input)
    requires Step(s, i).1.accepted && (Starts(i) || Completes(i))
    ensures TracksStep(s, i, Step(s, i).0) && RecordsEnds(s, i, Step(s, i).0)
  {
  }

  lemma ResolutionTracks(s: State, i: Input)
    requires Step(s, i).1.accepted && i.Occur? && i.e.RequestResolved?
    ensures TracksStep(s, i, Step(s, i).0) && RecordsEnds(s, i, Step(s, i).0)
  {
  }

  lemma StatusTracks(s: State, i: Input)
    requires Step(s, i).1.accepted && i.Occur? && i.e.ThreadStatus?
    ensures TracksStep(s, i, Step(s, i).0) && RecordsEnds(s, i, Step(s, i).0)
  {
    if Changes(i) {
      ChangeTracks(s, i.e.threadState);
    }
  }

  lemma ChangeTracks(s: State, threadState: ThreadState)
    requires threadState != NotLoaded
    ensures var t := OnThreadStatus(s, threadState).0;
            && t == s.(threadState := threadState, inputRequestID := if threadState == WaitingOnUserInput then s.inputRequestID else "",
                       interaction := t.interaction, pending := t.pending,
                       errorNotified := s.errorNotified || threadState == SystemError)
  {
  }

  lemma ApprovalTracks(s: State, turnID: string, itemID: string, requestID: string, kind: ApprovalKind)
    ensures var t := OnApprovalPending(s, turnID, itemID, requestID, kind).0; t == s.(interaction := t.interaction, pending := t.pending)
  {
  }

  /** Which approvals are pending after an accepted input. */
  lemma StepKeepsPending(s: State, i: Input, k: string)
    requires Inv(s) && Step(s, i).1.accepted
    ensures var t := Step(s, i).0;
            && (k in t.pending <==>
                  || (k in s.pending && !Starts(i) && !Completes(i) && !Unloads(i)
                      && (i.Occur? && i.e.RequestResolved? && i.e.requestID == k ==> AnswersInput(s, i)))
                  || (i.Occur? && i.e.ApprovalPending? && i.e.requestID == k))
            && (k in t.pending ==>
                  t.pending[k].(notified := false) == (if k in s.pending then s.pending[k].(notified := false)
                                                       else PendingApproval(i.e.turnID, i.e.itemID, k, i.e.kind, false)))
  {
    if Changes(i) {
      ChangeKeepsPending(s, i.e.threadState, k);
    } else if i.Occur? && i.e.ApprovalPending? {
      ApprovalKeepsPending(s, i.e.turnID, i.e.itemID, i.e.requestID, i.e.kind, k);
    } else if i.Occur? && i.e.RequestResolved? {
      ResolutionKeepsPending(s, i.e.requestID, k);
    }
  }

  lemma ChangeKeepsPending(s: State, threadState: ThreadState, k: string)
    requires threadState != NotLoaded
    ensures var t := OnThreadStatus(s, threadState).0;
            (k in t.pending <==> k in s.pending) && (k in t.pending ==> t.pending[k].(notified := false) == s.pending[k].(notified := false))
  {
    ChangedKeepsPending(s, threadState, k);
    NoticesKeepPending(StatusChanged(s, threadState), threadState, k);
  }

  lemma ChangedKeepsPending(s: State, threadState: ThreadState, k: string)
    ensures var v := StatusChanged(s, threadState);
            (k in v.pending <==> k in s.pending) && (k in v.pending ==> v.pending[k].(notified := false) == s.pending[k].(notified := false))
  {
  }

  lemma NoticesKeepPending(v: State, threadState: ThreadState, k: string)
    ensures var t := StatusNotices(v, threadState).0;
            (k in t.pending <==> k in v.pending) && (k in t.pending ==> t.pending[k].(notified := false) == v.pending[k].(notified := false))
  {
  }

  lemma ApprovalKeepsPending(s: State, turnID: string, itemID: string, requestID: string, kind: ApprovalKind, k: string)
    requires OnApprovalPending(s, turnID, itemID, requestID, kind).1.accepted
    ensures var t := OnApprovalPending(s, turnID, itemID, requestID, kind).0;
            && (k in t.pending <==> k in s.pending || k == requestID)
            && (k in t.pending ==>
                  t.pending[k].(notified := false) == (if k in s.pending then s.pending[k].(notified := false)
                                                       else PendingApproval(turnID, itemID, k, kind, false)))
  {
    var u := Admitting(s, turnID, itemID, requestID, kind);
    assert k in u.pending <==> k in s.pending || k == requestID;
  }

  lemma ResolutionKeepsPending(s: State, requestID: string, k: string)
    requires OnRequestResolved(s, requestID).1.accepted
    ensures var t := OnRequestResolved(s, requestID).0;
            && (k in t.pending <==> k in s.pending && (k == requestID ==> requestID == s.inputRequestID != ""))
            && (k in t.pending ==> t.pending[k] == s.pending[k])
  {
  }

  // ---------------------------------------------------------------- what is shown

  /** What an active epoch shows, read off its thread, turn, input request and approvals. */
  predicate Shows(t: State) {
    var asked := t.inputRequestID != "" && t.turnState == InProgress;
    match t.interaction
    case ResponseComplete => t.turnState == Completed
    case InputRequired => t.turnState != Completed && (asked || t.threadState == WaitingOnUserInput)
    case ApprovalRequired => t.turnState != Completed && !asked && t.threadState == WaitingOnApproval && t.pending != map[]
    case Working => t.turnState != Completed && !asked && (t.threadState == Active || (t.threadState == WaitingOnApproval && t.pending == map[]))
    case Quiet => t.turnState != Completed && !asked && t.threadState in {Idle, SystemError}
    case Unknown => t.turnState != Completed && !asked && t.threadState in {ThreadUnknown, NotLoaded}
    case Unset => false
  }

  lemma LiveShows(s: State)
    requires Inv(s)
    ensures Shows(s.(interaction := LiveInteraction(s)))
  {
    if s.pending != map[] {
      var k :| k in s.pending;
      assert Actionable(s, k);
    }
  }

  lemma StatusShows(s: State, threadState: ThreadState)
    requires Inv(s) && s.active && threadState != NotLoaded
    ensures var t := OnThreadStatus(s, threadState).0; Shows(t)
  {
    var v := StatusChanged(s, threadState);
    MoveKeepsInv(s, threadState);
    LiveShows(v);
    RaisedShows(v);
  }

  lemma RaisedShows(v: State)
    ensures Shows(Raised(v).0) <==> Shows(v)
  {
    assert Raised(v).0.pending.Keys == v.pending.Keys;
    assert Raised(v).0.pending == map[] <==> v.pending == map[];
  }

  lemma ApprovalShows(s: State, turnID: string, itemID: string, requestID: string, kind: ApprovalKind)
    requires Inv(s) && s.active && OnApprovalPending(s, turnID, itemID, requestID, kind).1.accepted
    ensures Shows(OnApprovalPending(s, turnID, itemID, requestID, kind).0)
  {
    var u := Admitting(s, turnID, itemID, requestID, kind);
    assert Inv(u);
    LiveShows(u);
    RaisedShows(u);
  }

  lemma ResolutionShows(s: State, requestID: string)
    requires Inv(s) && s.active && OnRequestResolved(s, requestID).1.accepted
    ensures Shows(OnRequestResolved(s, requestID).0)
  {
    ResolvedKeepsInv(s, requestID);
    var t := OnRequestResolved(s, requestID).0;
    LiveShows(t);
    assert t == t.(interaction := LiveInteraction(t));
  }

  /** After an accepted input the interaction is what the fields show; a new turn works, an ended one rests, an input request asks. */
  lemma StepShows(s: State, i: Input)
    requires Inv(s) && Step(s, i).1.accepted
    ensures var (t, p) := Step(s, i);
            && p.interaction == t.interaction
            && (if Unloads(i) then t.interaction == Unknown
                else if Starts(i) then t.interaction == Working
                else if Completes(i) then t.interaction == (if i.e.turnState == Completed then ResponseComplete else Quiet)
                else if i.AskInput? then t.interaction == InputRequired
                else Shows(t))
  {
    if i.Occur? && !Unloads(i) {
      match i.e
      case ThreadStatus(_, threadState) => StatusShows(s, threadState);
      case ApprovalPending(_, turnID, itemID, requestID, kind) => ApprovalShows(s, turnID, itemID, requestID, kind);
      case RequestResolved(_, requestID) => ResolutionShows(s, requestID);
      case _ =>
    }
  }

  /** The notice id of one approval, spelled out. */
  function SpelledID(threadID: string, p: PendingApproval): string {
    "ai:codex:native:approval:" + threadID + ":" + p.turnID + ":" + p.itemID + ":" + p.requestID
  }

  /** What an accepted input withdraws: all pending notices, those raised when waiting on approval ends, the one resolved, or none. */
  lemma StepClears(s: State, i: Input)
    requires Inv(s) && Step(s, i).1.accepted
    ensures var p := Step(s, i).1;
            && (forall id :: id in p.clears <==> exists k :: k in s.pending && id == SpelledID(s.identity.threadID, s.pending[k]) && Withdraws(s, i, k))
            && (p.clearProgress <==> Starts(i) || Completes(i) || Unloads(i))
            && (p.invalidated <==> Unloads(i))
            && (p.hasStartedTurn <==> Step(s, i).0.turnID != "")
  {
    var p := Step(s, i).1;
    IDsSpelled(s);
    if Starts(i) || Completes(i) || Unloads(i) {
      BoundaryClears(s, i);
    } else if Changes(i) {
      ChangeClears(s, i);
    } else if i.Occur? && i.e.RequestResolved? && !AnswersInput(s, i) {
      var gone := i.e.requestID;
      assert p.clears == {SpelledID(s.identity.threadID, s.pending[gone])} && forall k :: k in s.pending ==> (Withdraws(s, i, k) <==> k == gone);
    } else {
      assert p.clears == {} && forall k :: k in s.pending ==> !Withdraws(s, i, k);
    }
  }

  lemma BoundaryClears(s: State, i: Input)
    requires Step(s, i).1.accepted && (Starts(i) || Completes(i) || Unloads(i))
    ensures var p := Step(s, i).1;
            && p.clears == PendingIDs(s) && p.clearProgress && (p.invalidated <==> Unloads(i))
            && (p.hasStartedTurn <==> Step(s, i).0.turnID != "") && forall k :: k in s.pending ==> Withdraws(s, i, k)
  {
  }

  lemma ChangeClears(s: State, i: Input)
    requires Inv(s) && Step(s, i).1.accepted && Changes(i)
    ensures forall id :: id in Step(s, i).1.clears <==> exists k :: k in s.pending && id == SpelledID(s.identity.threadID, s.pending[k]) && Withdraws(s, i, k)
    ensures var p := Step(s, i).1; !p.clearProgress && !p.invalidated && (p.hasStartedTurn <==> s.turnID != "") && Step(s, i).0.turnID == s.turnID
  {
    var p := Step(s, i).1;
    IDsSpelled(s);
    ChangeTracks(s, i.e.threadState);
    if s.threadState == WaitingOnApproval && i.e.threadState != WaitingOnApproval {
      assert p.clears == NotifiedIDs(s);
    } else {
      assert p.clears == {};
    }
  }

  lemma IDsSpelled(s: State)
    ensures forall id :: id in PendingIDs(s) <==> exists k :: k in s.pending && id == SpelledID(s.identity.threadID, s.pending[k])
    ensures forall id :: id in NotifiedIDs(s) <==> exists k :: k in s.pending && s.pending[k].notified && id == SpelledID(s.identity.threadID, s.pending[k])
  {
  }

  predicate Withdraws(s: State, i: Input, k: string)
    requires k in s.pending
  {
    || Starts(i) || Completes(i) || Unloads(i)
    || (Changes(i) && s.threadState == WaitingOnApproval && i.e.threadState != WaitingOnApproval && s.pending[k].notified)
    || (i.Occur? && i.e.RequestResolved? && i.e.requestID == k && !AnswersInput(s, i))
  }

  // ---------------------------------------------------------------- what is announced

  /** An accepted end of a turn announces exactly its completion or its failure, and a failure already announced only for the queue. */
  lemma EndIsAnnounced(s: State, i: Input)
    requires Inv(s) && Step(s, i).1.accepted && Completes(i)
    ensures Step(s, i).1.notices ==
              match i.e.turnState
              case Completed => {CompletionNotice("ai:codex:native:completed:" + s.identity.threadID + ":" + Text.TrimSpace(i.e.turnID), i.e.turnID)}
              case Failed => {FailureNotice("ai:codex:native:error:" + s.identity.threadID + ":" + i.e.turnID, i.e.turnID, s.errorNotified)}
              case _ => {}
  {
  }

  /** A thread in system error is announced as a loud failure exactly once, until a turn starts. */
  lemma ErrorIsAnnounced(s: State, i: Input)
    requires Inv(s) && Step(s, i).1.accepted && Changes(i) && i.e.threadState == SystemError
    ensures var turn := if s.turnID == "" then "thread" else s.turnID;
            Step(s, i).1.notices ==
              if s.errorNotified then {} else {FailureNotice("ai:codex:native:error:" + s.identity.threadID + ":" + turn, s.turnID, false)}
  {
  }

  /** The approval is new to the outside: not pending before, or pending without a notice. */
  predicate Unannounced(s: State, k: string) {
    k in s.pending ==> !s.pending[k].notified
  }

  /** Any other status or approval event announces exactly the pending approvals not yet announced, when approval is what it shows. */
  lemma ApprovalsAreAnnounced(s: State, i: Input, n: Notice)
    requires Inv(s) && Step(s, i).1.accepted && i.Occur? && (Changes(i) || i.e.ApprovalPending?)
    requires i.e.ThreadStatus? ==> i.e.threadState != SystemError
    ensures var (t, p) := Step(s, i);
            n in p.notices <==>
              && t.interaction == ApprovalRequired
              && exists k :: k in t.pending && Unannounced(s, k) && n == ApprovalNotice(SpelledID(s.identity.threadID, t.pending[k]), t.pending[k])
  {
    if Changes(i) {
      ChangeAnnounces(s, i.e.threadState, n);
    } else {
      ApprovalAnnounces(s, i.e.turnID, i.e.itemID, i.e.requestID, i.e.kind, n);
    }
  }

  lemma ChangeAnnounces(s: State, threadState: ThreadState, n: Notice)
    requires Inv(s) && s.active && threadState !in {NotLoaded, SystemError}
    ensures var (t, p) := OnThreadStatus(s, threadState);
            n in p.notices <==>
              && t.interaction == ApprovalRequired
              && exists k :: k in t.pending && Unannounced(s, k) && n == ApprovalNotice(SpelledID(s.identity.threadID, t.pending[k]), t.pending[k])
  {
    var v := StatusChanged(s, threadState);
    MoveKeepsInv(s, threadState);
    if v.interaction == ApprovalRequired {
      assert v.pending == s.pending;
      RaisedAnnounces(v, n);
    }
  }

  lemma ApprovalAnnounces(s: State, turnID: string, itemID: string, requestID: string, kind: ApprovalKind, n: Notice)
    requires Inv(s) && s.active && OnApprovalPending(s, turnID, itemID, requestID, kind).1.accepted
    ensures var (t, p) := OnApprovalPending(s, turnID, itemID, requestID, kind);
            n in p.notices <==>
              && t.interaction == ApprovalRequired
              && exists k :: k in t.pending && Unannounced(s, k) && n == ApprovalNotice(SpelledID(s.identity.threadID, t.pending[k]), t.pending[k])
  {
    var u := Admitting(s, turnID, itemID, requestID, kind);
    AdmittedIsUnannounced(s, turnID, itemID, requestID, kind);
    if u.interaction == ApprovalRequired {
      RaisedAnnounces(u, n);
    }
    assert OnApprovalPending(s, turnID, itemID, requestID, kind).0.pending.Keys == u.pending.Keys;
  }

  lemma AdmittedIsUnannounced(s: State, turnID: string, itemID: string, requestID: string, kind: ApprovalKind)
    requires Inv(s) && s.active && OnApprovalPending(s, turnID, itemID, requestID, kind).1.accepted
    ensures var u := Admitting(s, turnID, itemID, requestID, kind);
            Inv(u) && u.identity == s.identity && forall k :: k in u.pending ==> (Unannounced(s, k) <==> !u.pending[k].notified)
  {
  }

  lemma RaisedAnnounces(u: State, n: Notice)
    requires Inv(u)
    ensures var (t, raised) := Raised(u);
            n in raised <==> exists k :: k in t.pending && !u.pending[k].notified && n == ApprovalNotice(SpelledID(u.identity.threadID, t.pending[k]), t.pending[k])
  {
    var (t, raised) := Raised(u);
    assert forall k :: k in u.pending ==> t.pending[k] == u.pending[k].(notified := true);
  }

  /** Starting a turn, resolving a request and asking for input announce nothing, and neither does unloading the thread. */
  lemma OthersAnnounceNothing(s: State, i: Input)
    requires Inv(s) && Step(s, i).1.accepted && !Completes(i) && !Changes(i) && !(i.Occur? && i.e.ApprovalPending?)
    ensures Step(s, i).1.notices == {}
  {
  }

  // ---------------------------------------------------------------- counting over runs

  /** The accepted completions of a run. */
  function CompletedTurns(s: State, inputs: seq<Input>): nat
    decreases |inputs|
  {
    if inputs == [] then 0 else
    (if Step(s, inputs[0]).1.accepted && Completes(inputs[0]) && inputs[0].e.turnState == Completed then 1 else 0)
    + CompletedTurns(Step(s, inputs[0]).0, inputs[1..])
  }

  /** The first failures of a turn: a failed turn or a thread in system error, with none announced since the turn started. */
  function FirstFailures(s: State, inputs: seq<Input>): nat
    decreases |inputs|
  {
    if inputs == [] then 0 else
    (if && Step(s, inputs[0]).1.accepted && !s.errorNotified
        && ((Completes(inputs[0]) && inputs[0].e.turnState == TurnState.Failed) || (Changes(inputs[0]) && inputs[0].e.threadState == SystemError)) then 1 else 0)
    + FirstFailures(Step(s, inputs[0]).0, inputs[1..])
  }

  lemma StepCounts(s: State, i: Input)
    requires Inv(s)
    ensures var p := Step(s, i).1;
            && |set n | n in p.notices && IsCompletion(n)|
               == (if p.accepted && Completes(i) && i.e.turnState == Completed then 1 else 0)
            && |set n | n in p.notices && IsLoudFailure(n)|
               == (if && p.accepted && !s.errorNotified
                      && ((Completes(i) && i.e.turnState == TurnState.Failed) || (Changes(i) && i.e.threadState == SystemError)) then 1 else 0)
  {
    var p := Step(s, i).1;
    if p.accepted && Completes(i) {
      EndIsAnnounced(s, i);
      EndCounts(p.notices, i.e.turnState, s.errorNotified);
    } else if p.accepted && Changes(i) && i.e.threadState == SystemError {
      ErrorIsAnnounced(s, i);
      EndCounts(p.notices, if s.errorNotified then Interrupted else TurnState.Failed, s.errorNotified);
    } else {
      SaysNothing(p);
    }
  }

  lemma EndCounts(notices: set<Notice>, turnState: TurnState, quiet: bool)
    requires match turnState
             case Completed => exists id, turn :: notices == {CompletionNotice(id, turn)}
             case Failed => exists id, turn :: notices == {FailureNotice(id, turn, quiet)}
             case _ => notices == {}
    ensures |set n | n in notices && IsCompletion(n)| == if turnState == Completed then 1 else 0
    ensures |set n | n in notices && IsLoudFailure(n)| == if turnState == TurnState.Failed && !quiet then 1 else 0
  {
    var completions, failures := set n | n in notices && IsCompletion(n), set n | n in notices && IsLoudFailure(n);
    assert completions == if turnState == Completed then notices else {};
    assert failures == if turnState == TurnState.Failed && !quiet then notices else {};
  }

  /** Over every run, each accepted completion is announced and nothing else is, and so is each first failure. */
  lemma {:induction false} AnnouncedExactlyOnce(s: State, inputs: seq<Input>)
    requires Inv(s)
    ensures Completions(s, inputs) == CompletedTurns(s, inputs) && LoudFailures(s, inputs) == FirstFailures(s, inputs)
    decreases |inputs|
  {
    if inputs != [] {
      StepCounts(s, inputs[0]);
      StepKeepsInv(s, inputs[0]);
      AnnouncedExactlyOnce(Step(s, inputs[0]).0, inputs[1..]);
    }
  }

  // ---------------------------------------------------------------- epochs

  /** A new epoch is accepted exactly for a number, a whole identity and its own thread, and shows its snapshot. */
  lemma BeginShows(s: State, epoch: nat, identity: Identity, snapshot: Snapshot)
    ensures var (t, p) := Begun(s, epoch, identity, snapshot);
            && (p.accepted <==>
                  && epoch != 0 && Text.TrimSpace(snapshot.threadID) == Text.TrimSpace(identity.threadID)
                  && !Text.Blank(identity.agentUID) && !Text.Blank(identity.paneUID) && !Text.Blank(identity.runtimeID)
                  && !Text.Blank(identity.generation) && !Text.Blank(identity.threadID))
            && (!p.accepted ==> t == s)
            && (p.accepted ==> BeginsAs(t, p, epoch, identity, snapshot))
  {
    if Begun(s, epoch, identity, snapshot).1.accepted {
      BegunShows(s, epoch, identity, snapshot);
    }
  }

  lemma BegunShows(s: State, epoch: nat, identity: Identity, snapshot: Snapshot)
    requires Begun(s, epoch, identity, snapshot).1.accepted
    ensures var (t, p) := Begun(s, epoch, identity, snapshot); BeginsAs(t, p, epoch, identity, snapshot)
  {
    var t := Opened(epoch, identity, snapshot, s.interaction);
    if snapshot.threadState != NotLoaded {
      LiveShows(t.(interaction := ResponseComplete));
    }
  }

  predicate BeginsAs(t: State, p: Projection, epoch: nat, identity: Identity, x: Snapshot) {
    var turnID := Text.TrimSpace(x.turnID);
    && t.epoch == epoch && t.identity == identity && t.threadState == x.threadState && t.pending == map[] && !t.errorNotified && t.inputRequestID == ""
    && p.notices == {} && p.clears == {} && p.interaction == t.interaction && (p.hasStartedTurn <==> t.turnID != "")
    && if x.threadState == NotLoaded then
         !t.active && p.invalidated && p.clearProgress && t.interaction == Unknown && t.turnID == "" && t.turnState == TurnUnknown && t.terminal == map[]
       else
         && t.active && !p.invalidated && t.turnID == turnID && t.turnState == x.turnState
         && (p.clearProgress <==> x.turnState in {Completed, TurnState.Failed, Interrupted})
         && t.terminal == (if turnID != "" && x.turnState in {Completed, TurnState.Failed, Interrupted} then map[turnID := x.turnState] else map[])
         && if x.turnState in {TurnState.Failed, Interrupted} then t.interaction == Quiet else Shows(t)
  }

  /** Invalidation counts exactly for the active epoch; it withdraws every pending notice and forgets the turn. */
  lemma InvalidationShows(s: State, epoch: nat)
    ensures var (t, p) := Invalidated(s, epoch);
            && (p.accepted <==> s.active && epoch == s.epoch)
            && (!p.accepted ==> t == s)
            && (p.accepted ==>
                  && !t.active && t.pending == map[] && t.turnID == "" && t.inputRequestID == "" && t.interaction == p.interaction == Unknown
                  && t.turnState == TurnUnknown && !t.errorNotified
                  && p.invalidated && p.clearProgress && !p.hasStartedTurn && p.notices == {}
                  && forall id :: id in p.clears <==> exists k :: k in s.pending && id == SpelledID(s.identity.threadID, s.pending[k]))
  {
  }
}
