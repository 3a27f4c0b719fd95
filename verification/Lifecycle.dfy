/** The lifecycle reducer of one provider source epoch, as functions on its state. */
module Lifecycle {
  import opened ControlTypes
  import Text

  datatype Interaction = Unset | Unknown | Quiet | Working | ApprovalRequired | InputRequired | ResponseComplete

  datatype PendingApproval = PendingApproval(turnID: string, itemID: string, requestID: string, kind: ApprovalKind, notified: bool)

  datatype Notice =
    | ApprovalNotice(id: string, approval: PendingApproval)
    | CompletionNotice(id: string, turnID: string)
    | FailureNotice(id: string, turnID: string, queueOnly: bool)

  datatype Projection = Projection(
    accepted: bool, invalidated: bool, hasStartedTurn: bool, interaction: Interaction,
    notices: set<Notice>, clears: set<string>, clearProgress: bool)

  const REJECTED := Projection(false, false, false, Unset, {}, {}, false)

  datatype Event =
    | TurnStarted(threadID: string, turnID: string)
    | ThreadStatus(threadID: string, threadState: ThreadState)
    | ApprovalPending(threadID: string, turnID: string, itemID: string, requestID: string, kind: ApprovalKind)
    | RequestResolved(threadID: string, requestID: string)
    | TurnCompleted(threadID: string, turnID: string, turnState: TurnState)
    | OtherEvent(threadID: string)

  /** The identity that a decoded item/tool/requestUserInput notification carries. */
  datatype InputRequest = InputRequest(requestID: string, threadID: string, turnID: string, itemID: string)

  datatype State = State(
    epoch: nat, active: bool, identity: Identity, threadState: ThreadState,
    turnID: string, turnState: TurnState, interaction: Interaction,
    pending: map<string, PendingApproval>, terminal: map<string, TurnState>,
    errorNotified: bool, inputRequestID: string)

  predicate ValidIdentity(i: Identity) {
    !Text.Blank(i.agentUID) && !Text.Blank(i.paneUID) && !Text.Blank(i.runtimeID) && !Text.Blank(i.generation) && !Text.Blank(i.threadID)
  }

  function ApprovalID(identity: Identity, p: PendingApproval): string {
    "ai:codex:native:approval:" + identity.threadID + ":" + p.turnID + ":" + p.itemID + ":" + p.requestID
  }

  function CompletionID(identity: Identity, turnID: string): string {
    "ai:codex:native:completed:" + identity.threadID + ":" + Text.TrimSpace(turnID)
  }

  function Failure(s: State, queueOnly: bool): Notice {
    FailureNotice("ai:codex:native:error:" + s.identity.threadID + ":" + (if s.turnID == "" then "thread" else s.turnID),
                  s.turnID, queueOnly)
  }

  /** The notice ids of all pending approvals, or of the notified ones only. */
  function NoticeIDs(identity: Identity, pending: map<string, PendingApproval>, notifiedOnly: bool): set<string> {
    set k | k in pending && (!notifiedOnly || pending[k].notified) :: ApprovalID(identity, pending[k])
  }

  function PendingIDs(s: State): set<string> {
    NoticeIDs(s.identity, s.pending, false)
  }

  function NotifiedIDs(s: State): set<string> {
    NoticeIDs(s.identity, s.pending, true)
  }

  predicate Actionable(s: State, k: string) {
    k in s.pending && s.pending[k].turnID == s.turnID && s.pending[k].itemID != "" && s.pending[k].requestID != ""
  }

  function LiveInteraction(s: State): Interaction {
    if s.turnState.Completed? then ResponseComplete
    else if s.inputRequestID != "" && s.turnState.InProgress? then InputRequired
    else match s.threadState
      case Idle => Quiet
      case WaitingOnUserInput => InputRequired
      case WaitingOnApproval => if exists k | k in s.pending :: Actionable(s, k) then ApprovalRequired else Working
      case Active => Working
      case SystemError => Quiet
      case _ => Unknown
  }

  function SnapshotInteraction(s: State): Interaction {
    if s.turnState.Completed? then ResponseComplete
    else if s.turnState.Failed? || s.turnState.Interrupted? then Quiet
    else LiveInteraction(s)
  }

  function Invalidated(s: State, epoch: nat): (State, Projection) {
    if !s.active || epoch != s.epoch then (s, REJECTED) else
    (s.(active := false, pending := map[], turnID := "", turnState := TurnUnknown, errorNotified := false,
        inputRequestID := "", interaction := Unknown),
     Projection(true, true, false, Unknown, {}, PendingIDs(s), true))
  }

  /** A fresh epoch on its snapshot, before its interaction is set. */
  function Opened(epoch: nat, identity: Identity, snapshot: Snapshot, interaction: Interaction): State {
    var turnID := Text.TrimSpace(snapshot.turnID);
    State(epoch, true, identity, snapshot.threadState, turnID, snapshot.turnState, interaction, map[],
          if turnID != "" && Ended(snapshot.turnState) && !snapshot.threadState.NotLoaded? then map[turnID := snapshot.turnState] else map[],
          false, "")
  }

  function Begun(s: State, epoch: nat, identity: Identity, snapshot: Snapshot): (State, Projection) {
    if epoch == 0 || !ValidIdentity(identity) || Text.TrimSpace(snapshot.threadID) != Text.TrimSpace(identity.threadID) then (s, REJECTED) else
    var t := Opened(epoch, identity, snapshot, s.interaction);
    if snapshot.threadState.NotLoaded? then Invalidated(t, epoch) else
    var u := t.(interaction := SnapshotInteraction(t));
    (u, Projection(true, false, u.turnID != "", u.interaction, {}, {}, Ended(snapshot.turnState)))
  }

  function Marked(pending: map<string, PendingApproval>, turnID: string): map<string, PendingApproval> {
    map k | k in pending :: if pending[k].turnID == turnID then pending[k].(notified := true) else pending[k]
  }

  function Unmarked(pending: map<string, PendingApproval>): map<string, PendingApproval> {
    map k | k in pending :: pending[k].(notified := false)
  }

  function Raisable(identity: Identity, pending: map<string, PendingApproval>, turnID: string): set<Notice> {
    set k | k in pending && pending[k].turnID == turnID && !pending[k].notified ::
      ApprovalNotice(ApprovalID(identity, pending[k]), pending[k].(notified := true))
  }

  /** The not yet notified approvals of the current turn, raised and marked together. */
  function Raised(s: State): (State, set<Notice>) {
    (s.(pending := Marked(s.pending, s.turnID)), Raisable(s.identity, s.pending, s.turnID))
  }

  function Silenced(s: State): State {
    s.(pending := Unmarked(s.pending))
  }

  function Base(s: State): Projection {
    Projection(true, false, s.turnID != "", s.interaction, {}, {}, false)
  }

  function OnTurnStarted(s: State, turnID: string): (State, Projection) {
    if turnID == "" then (s, REJECTED) else
    (s.(pending := map[], terminal := map[], errorNotified := false, inputRequestID := "", turnID := turnID,
        turnState := InProgress, threadState := Active, interaction := Working),
     Base(s).(clears := PendingIDs(s), hasStartedTurn := true, clearProgress := true, interaction := Working))
  }

  /** Leaving waiting-on-approval withdraws the raised approvals; the interaction follows the new state. */
  function StatusChanged(s: State, threadState: ThreadState): State {
    var t := (if s.threadState.WaitingOnApproval? && !threadState.WaitingOnApproval? then Silenced(s) else s).(threadState := threadState);
    var u := if threadState.WaitingOnUserInput? then t else t.(inputRequestID := "");
    u.(interaction := LiveInteraction(u))
  }

  function StatusNotices(v: State, threadState: ThreadState): (State, set<Notice>) {
    var failed := threadState.SystemError? && !v.errorNotified;
    var w := if failed then v.(errorNotified := true) else v;
    if w.interaction.ApprovalRequired? then Raised(w) else (w, if failed then {Failure(v, false)} else {})
  }

  function OnThreadStatus(s: State, threadState: ThreadState): (State, Projection) {
    if threadState.NotLoaded? then Invalidated(s, s.epoch) else
    var clears := if s.threadState.WaitingOnApproval? && !threadState.WaitingOnApproval? then NotifiedIDs(s) else {};
    var (x, raised) := StatusNotices(StatusChanged(s, threadState), threadState);
    (x, Base(s).(clears := clears, notices := raised, interaction := x.interaction))
  }

  function OnApprovalPending(s: State, turnID: string, itemID: string, requestID: string, kind: ApprovalKind): (State, Projection) {
    if turnID == "" || itemID == "" || requestID == "" || turnID != s.turnID then (s, REJECTED)
    else if requestID in s.pending && (s.pending[requestID].turnID != turnID || s.pending[requestID].itemID != itemID) then (s, REJECTED)
    else
      var t := if requestID in s.pending then s
               else s.(pending := s.pending[requestID := PendingApproval(turnID, itemID, requestID, kind, false)]);
      var u := t.(interaction := LiveInteraction(t));
      var (x, raised) := if u.interaction.ApprovalRequired? then Raised(u) else (u, {});
      (x, Base(s).(notices := raised, interaction := x.interaction))
  }

  function OnRequestResolved(s: State, requestID: string): (State, Projection) {
    if requestID == s.inputRequestID && s.inputRequestID != "" then
      var t := s.(inputRequestID := "", threadState := if s.threadState.WaitingOnUserInput? then Active else s.threadState);
      var u := t.(interaction := LiveInteraction(t));
      (u, Base(s).(interaction := u.interaction))
    else if requestID !in s.pending || s.pending[requestID].turnID != s.turnID then (s, REJECTED)
    else
      var t := s.(pending := s.pending - {requestID});
      var u := t.(interaction := LiveInteraction(t));
      (u, Base(s).(clears := {ApprovalID(s.identity, s.pending[requestID])}, interaction := u.interaction))
  }

  function OnTurnCompleted(s: State, turnID: string, turnState: TurnState): (State, Projection) {
    if turnID == "" || turnID != s.turnID || turnID in s.terminal || !Ended(turnState) then (s, REJECTED) else
    var t := s.(pending := map[], inputRequestID := "", turnState := turnState, terminal := s.terminal[turnID := turnState]);
    var p := Base(s).(clears := PendingIDs(s), clearProgress := true);
    if turnState.Completed? then
      (t.(interaction := ResponseComplete),
       p.(notices := {CompletionNotice(CompletionID(s.identity, turnID), turnID)}, interaction := ResponseComplete))
    else if turnState.Failed? then
      (t.(interaction := Quiet, errorNotified := true), p.(notices := {Failure(t, s.errorNotified)}, interaction := Quiet))
    else (t.(interaction := Quiet), p.(interaction := Quiet))
  }

  function Applied(s: State, epoch: nat, e: Event): (State, Projection) {
    if !s.active || epoch != s.epoch || Text.TrimSpace(e.threadID) != Text.TrimSpace(s.identity.threadID) then (s, REJECTED)
    else match e
      case TurnStarted(_, turnID) => OnTurnStarted(s, turnID)
      case ThreadStatus(_, threadState) => OnThreadStatus(s, threadState)
      case ApprovalPending(_, turnID, itemID, requestID, kind) => OnApprovalPending(s, turnID, itemID, requestID, kind)
      case RequestResolved(_, requestID) => OnRequestResolved(s, requestID)
      case TurnCompleted(_, turnID, turnState) => OnTurnCompleted(s, turnID, turnState)
      case OtherEvent(_) => (s, REJECTED)
  }

  /** applyUserInputRequest on a decoded request; a broken one is refused before the state is read. */
  function InputRequested(s: State, epoch: nat, q: InputRequest): (State, Projection) {
    if q.requestID == "" || Text.Blank(q.threadID) || Text.Blank(q.turnID) || Text.Blank(q.itemID) then (s, REJECTED)
    else if !s.active || epoch != s.epoch || q.threadID != s.identity.threadID || q.turnID != s.turnID || !s.turnState.InProgress? then (s, REJECTED)
    else
      (s.(inputRequestID := q.requestID, interaction := InputRequired),
       Projection(true, false, true, InputRequired, {}, {}, false))
  }
}
