/** What the reducer's notices mean to the outside, over every sequence of events in one source epoch. */
module LifecycleSafety {
  import opened ControlTypes
  import opened Lifecycle
  import Text

  /** Pending approvals belong to the current turn, and a completed turn is on record and shows its completion. */
  ghost predicate Inv(s: State) {
    && (!s.active ==> s.pending == map[])
    && (forall k :: k in s.pending ==>
          k != "" && s.pending[k].turnID == s.turnID && s.pending[k].requestID == k && s.pending[k].itemID != "")
    && (s.turnState.Completed? ==> s.interaction.ResponseComplete? && (s.turnID != "" ==> s.turnID in s.terminal))
  }

  /** One input of a running epoch. */
  datatype Input = Occur(epoch: nat, e: Event) | AskInput(epoch: nat, q: InputRequest)

  function Step(s: State, i: Input): (State, Projection) {
    match i
    case Occur(epoch, e) => Applied(s, epoch, e)
    case AskInput(epoch, q) => InputRequested(s, epoch, q)
  }

  lemma BeginEstablishesInv(s: State, epoch: nat, identity: Identity, snapshot: Snapshot)
    requires Inv(s)
    ensures Inv(Begun(s, epoch, identity, snapshot).0)
  {
  }

  lemma StepKeepsInv(s: State, i: Input)
    requires Inv(s)
    ensures Inv(Step(s, i).0)
  {
    if i.Occur? && s.active {
      match i.e
      case ThreadStatus(_, threadState) => StatusKeepsInv(s, threadState);
      case ApprovalPending(_, turnID, itemID, requestID, kind) => ApprovalKeepsInv(s, turnID, itemID, requestID, kind);
      case RequestResolved(_, requestID) => ResolvedKeepsInv(s, requestID);
      case _ =>
    }
  }

  lemma StatusKeepsInv(s: State, threadState: ThreadState)
    requires Inv(s) && s.active
    ensures Inv(OnThreadStatus(s, threadState).0)
  {
    if !threadState.NotLoaded? {
      MoveKeepsInv(s, threadState);
      RaisedKeepsInv(StatusChanged(s, threadState));
      RaisedKeepsInv(StatusChanged(s, threadState).(errorNotified := true));
    }
  }

  lemma MoveKeepsInv(s: State, threadState: ThreadState)
    requires Inv(s) && s.active
    ensures Inv(StatusChanged(s, threadState))
  {
  }

  lemma RaisedKeepsInv(s: State)
    requires Inv(s)
    ensures Inv(Raised(s).0)
  {
  }

  lemma ApprovalKeepsInv(s: State, turnID: string, itemID: string, requestID: string, kind: ApprovalKind)
    requires Inv(s) && s.active
    ensures Inv(OnApprovalPending(s, turnID, itemID, requestID, kind).0)
  {
    if OnApprovalPending(s, turnID, itemID, requestID, kind).1.accepted {
      var u := Admitting(s, turnID, itemID, requestID, kind);
      assert Inv(u);
      RaisedKeepsInv(u);
    }
  }

  lemma ResolvedKeepsInv(s: State, requestID: string)
    requires Inv(s) && s.active
    ensures Inv(OnRequestResolved(s, requestID).0)
  {
  }

  /** An event that is not accepted changes nothing and says nothing. */
  lemma RejectedIsSilent(s: State, i: Input)
    requires !Step(s, i).1.accepted
    ensures Step(s, i) == (s, REJECTED)
  {
  }

  /** A completed turn shows its completion until a new turn starts or the epoch is invalidated. */
  lemma CompletionSurvives(s: State, i: Input)
    requires Inv(s) && s.active && s.turnState.Completed?
    ensures var (t, p) := Step(s, i);
            || (t.turnState.Completed? && t.interaction.ResponseComplete? && t.turnID == s.turnID)
            || !t.active
            || (i.Occur? && i.e.TurnStarted? && p.accepted && t.turnID == i.e.turnID)
  {
    if i.Occur? && i.e.ThreadStatus? {
      StatusKeepsCompletion(s, i.e.threadState);
    } else if i.Occur? && i.e.ApprovalPending? {
      ApprovalKeepsCompletion(s, i.e.turnID, i.e.itemID, i.e.requestID, i.e.kind);
    }
  }

  ghost predicate ShowsCompletion(s: State, t: State) {
    t.turnState.Completed? && t.interaction.ResponseComplete? && t.turnID == s.turnID
  }

  lemma StatusKeepsCompletion(s: State, threadState: ThreadState)
    requires Inv(s) && s.active && s.turnState.Completed?
    ensures var t := OnThreadStatus(s, threadState).0; ShowsCompletion(s, t) || !t.active
  {
  }

  lemma ApprovalKeepsCompletion(s: State, turnID: string, itemID: string, requestID: string, kind: ApprovalKind)
    requires Inv(s) && s.active && s.turnState.Completed?
    ensures ShowsCompletion(s, OnApprovalPending(s, turnID, itemID, requestID, kind).0)
  {
  }

  /** Every pending approval has been notified whenever approval is what the interaction asks for. */
  predicate NoneBehind(t: State) {
    t.interaction.ApprovalRequired? ==> forall k :: k in t.pending ==> t.pending[k].notified
  }

  /** Whenever a status or an approval event ends in ApprovalRequired, every pending approval has been notified. */
  lemma RaisingLeavesNoneBehind(s: State, epoch: nat, e: Event)
    requires Inv(s) && (e.ThreadStatus? || e.ApprovalPending?)
    ensures var (t, p) := Applied(s, epoch, e); p.accepted ==> NoneBehind(t)
  {
    var (t, p) := Applied(s, epoch, e);
    if p.accepted && e.ThreadStatus? && !e.threadState.NotLoaded? {
      MoveKeepsInv(s, e.threadState);
    }
  }

  /** The pending approvals that a resolution leaves: all of them when it resolves the input request. */
  function Leaves(s: State, requestID: string): map<string, PendingApproval> {
    if requestID == s.inputRequestID && s.inputRequestID != "" then s.pending else s.pending - {requestID}
  }

  /** A resolution raises nothing: it shows the approvals it leaves, once no input request hides them, whether notified or not. */
  predicate Masks(s: State, i: Input) {
    && i.Occur? && i.e.RequestResolved? && s.threadState.WaitingOnApproval? && !s.turnState.Completed?
    && (s.inputRequestID == "" || s.inputRequestID == i.e.requestID || !s.turnState.InProgress?)
    && exists k :: k in Leaves(s, i.e.requestID) && !s.pending[k].notified
  }

  /** An accepted event ends with every pending approval notified, if approval is required then, exactly when it does not mask one. */
  lemma NoneBehindExactlyWhen(s: State, i: Input)
    requires Inv(s) && Step(s, i).1.accepted
    ensures NoneBehind(Step(s, i).0) <==> !Masks(s, i)
  {
    if i.Occur? && i.e.RequestResolved? {
      ResolutionMasksExactlyWhen(s, i);
    } else if i.Occur? && (i.e.ThreadStatus? || i.e.ApprovalPending?) {
      RaisingLeavesNoneBehind(s, i.epoch, i.e);
    }
  }

  lemma ResolutionMasksExactlyWhen(s: State, i: Input)
    requires Inv(s) && i.Occur? && i.e.RequestResolved? && OnRequestResolved(s, i.e.requestID).1.accepted
    ensures NoneBehind(OnRequestResolved(s, i.e.requestID).0) <==> !Masks(s, i)
  {
    var t := OnRequestResolved(s, i.e.requestID).0;
    assert t.pending == Leaves(s, i.e.requestID);
    if k :| k in t.pending && !t.pending[k].notified {
      assert Actionable(t, k);
    }
  }

  ghost predicate NeverMasks(s: State, inputs: seq<Input>)
    decreases |inputs|
  {
    inputs != [] ==> !(Step(s, inputs[0]).1.accepted && Masks(s, inputs[0])) && NeverMasks(Step(s, inputs[0]).0, inputs[1..])
  }

  ghost predicate NoneBehindThroughout(s: State, inputs: seq<Input>)
    decreases |inputs|
  {
    inputs != [] ==> NoneBehind(Step(s, inputs[0]).0) && NoneBehindThroughout(Step(s, inputs[0]).0, inputs[1..])
  }

  /** Over a whole run no approval is left unannounced under approval-required exactly when no event of it masks one. */
  lemma {:induction false} RunLeavesNoneBehindExactlyWhen(s: State, inputs: seq<Input>)
    requires Inv(s) && NoneBehind(s)
    ensures NoneBehindThroughout(s, inputs) <==> NeverMasks(s, inputs)
    decreases |inputs|
  {
    if inputs != [] {
      StepKeepsInv(s, inputs[0]);
      if Step(s, inputs[0]).1.accepted {
        NoneBehindExactlyWhen(s, inputs[0]);
      } else {
        RejectedIsSilent(s, inputs[0]);
      }
      if NoneBehind(Step(s, inputs[0]).0) {
        RunLeavesNoneBehindExactlyWhen(Step(s, inputs[0]).0, inputs[1..]);
      }
    }
  }

  /** Such a resolution: an approval that arrives under an input request is not raised when the input resolves. */
  lemma InputMasksApproval(s: State, q: InputRequest, itemID: string, requestID: string)
    requires Inv(s) && s.active && s.threadState.WaitingOnApproval? && s.turnState.InProgress? && s.turnID != "" && s.pending == map[]
    requires q.threadID == s.identity.threadID && q.turnID == s.turnID && q.requestID != ""
    requires !Text.Blank(q.threadID) && !Text.Blank(q.turnID) && !Text.Blank(q.itemID)
    requires itemID != "" && requestID != "" && requestID != q.requestID
    ensures var a := InputRequested(s, s.epoch, q).0;
            var b := Applied(a, s.epoch, ApprovalPending(s.identity.threadID, s.turnID, itemID, requestID, Command)).0;
            var (c, p) := Applied(b, s.epoch, RequestResolved(s.identity.threadID, q.requestID));
            c.interaction.ApprovalRequired? && p.notices == {} && requestID in c.pending && !c.pending[requestID].notified
  {
    var a := InputRequested(s, s.epoch, q).0;
    var b := Applied(a, s.epoch, ApprovalPending(s.identity.threadID, s.turnID, itemID, requestID, Command)).0;
    assert b.interaction.InputRequired? && b.pending == map[requestID := PendingApproval(s.turnID, itemID, requestID, Command, false)];
    var c := Applied(b, s.epoch, RequestResolved(s.identity.threadID, q.requestID)).0;
    assert Actionable(c, requestID);
  }

  /** And one that resolves another approval: the masked one stays behind. */
  lemma ResolutionLeavesMasked(s: State, requestID: string, masked: string)
    requires Inv(s) && s.active && s.threadState.WaitingOnApproval? && s.turnState.InProgress? && s.inputRequestID == ""
    requires requestID in s.pending && masked in s.pending && requestID != masked && !s.pending[masked].notified
    ensures var (t, p) := Applied(s, s.epoch, RequestResolved(s.identity.threadID, requestID));
            p.accepted && t.interaction.ApprovalRequired? && p.notices == {} && masked in t.pending && !t.pending[masked].notified
  {
    var t := Applied(s, s.epoch, RequestResolved(s.identity.threadID, requestID)).0;
    assert Actionable(t, masked);
  }

  // ---------------------------------------------------------------- the notice ledger

  function RaisedIDs(p: Projection): set<string> {
    set n | n in p.notices && n.ApprovalNotice? :: n.id
  }

  /** The approval notices outside, after one projection: cleared ids go, raised ids come. */
  function Ledger(outstanding: set<string>, p: Projection): set<string> {
    (outstanding - p.clears) + RaisedIDs(p)
  }

  /** One step balances the ledger: outside are exactly the notified pending approvals, and none is raised again. */
  ghost predicate Balanced(s: State, t: State, p: Projection) {
    && NotifiedIDs(t) == Ledger(NotifiedIDs(s), p)
    && NotifiedIDs(s) - p.clears !! RaisedIDs(p)
    && (forall m, n :: m in p.notices && n in p.notices && m.ApprovalNotice? && n.ApprovalNotice? && m.id == n.id ==> m == n)
  }

  // ---------------------------------------------------------------- when two approvals share a notice

  predicate SameNotice(s: State, j: string, k: string)
    requires j in s.pending && k in s.pending
  {
    j != k && ApprovalID(s.identity, s.pending[j]) == ApprovalID(s.identity, s.pending[k])
  }

  /** An approval that is still to be raised shares its notice with another pending approval. */
  ghost predicate RaiseClashes(s: State) {
    exists j, k :: j in s.pending && k in s.pending && !s.pending[j].notified && SameNotice(s, j, k)
  }

  /** Another notified approval shares the notice of this request. */
  ghost predicate SharesNotice(s: State, requestID: string)
    requires requestID in s.pending
  {
    exists k :: k in s.pending && s.pending[k].notified && SameNotice(s, k, requestID)
  }

  /** The state with the newcomer in place, before anything is raised. */
  function Admitting(s: State, turnID: string, itemID: string, requestID: string, kind: ApprovalKind): State {
    var t := if requestID in s.pending then s
             else s.(pending := s.pending[requestID := PendingApproval(turnID, itemID, requestID, kind, false)]);
    t.(interaction := LiveInteraction(t))
  }

  /** The inputs under which colliding notice ids are seen: a raise among them, or a resolution of one of them. */
  ghost predicate Clashes(s: State, i: Input) {
    && i.Occur? && Step(s, i).1.accepted
    && match i.e
       case ThreadStatus(_, threadState) =>
         !threadState.NotLoaded? && StatusChanged(s, threadState).interaction.ApprovalRequired? && RaiseClashes(StatusChanged(s, threadState))
       case ApprovalPending(_, turnID, itemID, requestID, kind) =>
         && Admitting(s, turnID, itemID, requestID, kind).interaction.ApprovalRequired?
         && RaiseClashes(Admitting(s, turnID, itemID, requestID, kind))
       case RequestResolved(_, requestID) => requestID in s.pending && requestID != s.inputRequestID && SharesNotice(s, requestID)
       case _ => false
  }

  // ---------------------------------------------------------------- raising

  function IDsOf(raised: set<Notice>): set<string> {
    set n | n in raised :: n.id
  }

  /** Raising keeps the ids outside equal to the notified ones. */
  lemma RaisingAddsUp(s: State)
    requires Inv(s)
    ensures NotifiedIDs(Raised(s).0) == NotifiedIDs(s) + IDsOf(Raised(s).1)
  {
    var (t, raised) := Raised(s);
    forall id | id in NotifiedIDs(s)
      ensures id in NotifiedIDs(t)
    {
      var j :| j in s.pending && s.pending[j].notified && ApprovalID(s.identity, s.pending[j]) == id;
      assert t.pending[j] == s.pending[j];
    }
    forall id | id in IDsOf(raised)
      ensures id in NotifiedIDs(t)
    {
      var n :| n in raised && n.id == id;
      var k :| k in s.pending && n == ApprovalNotice(ApprovalID(s.identity, s.pending[k]), s.pending[k].(notified := true));
      assert t.pending[k].notified && ApprovalID(t.identity, t.pending[k]) == id;
    }
    forall id | id in NotifiedIDs(t)
      ensures id in NotifiedIDs(s) + IDsOf(raised)
    {
      var k :| k in t.pending && t.pending[k].notified && ApprovalID(t.identity, t.pending[k]) == id;
      if !s.pending[k].notified {
        assert NoticeOf(s, k) in raised;
      }
    }
  }

  function NoticeOf(s: State, k: string): Notice
    requires k in s.pending
  {
    ApprovalNotice(ApprovalID(s.identity, s.pending[k]), s.pending[k].(notified := true))
  }

  /** Nothing raised is outside already, and no id is raised twice at once. */
  ghost predicate RaisesOnce(s: State, raised: set<Notice>) {
    && NotifiedIDs(s) !! IDsOf(raised)
    && (forall m, n :: m in raised && n in raised && m.id == n.id ==> m == n)
  }

  /** Raising announces each notice once exactly when no approval to be raised shares its notice. */
  lemma RaisingBalancesExactlyWhen(s: State)
    requires Inv(s)
    ensures RaisesOnce(s, Raised(s).1) <==> !RaiseClashes(s)
  {
    var raised := Raised(s).1;
    if RaiseClashes(s) {
      var j, k :| j in s.pending && k in s.pending && !s.pending[j].notified && SameNotice(s, j, k);
      assert NoticeOf(s, j) in raised && NoticeOf(s, j).id in IDsOf(raised);
      if s.pending[k].notified {
        assert NoticeOf(s, j).id in NotifiedIDs(s);
      } else {
        assert NoticeOf(s, k) in raised && NoticeOf(s, j).approval.requestID != NoticeOf(s, k).approval.requestID;
      }
    } else {
      UnclashedRaisesOnce(s);
    }
  }

  lemma UnclashedRaisesOnce(s: State)
    requires Inv(s) && !RaiseClashes(s)
    ensures RaisesOnce(s, Raised(s).1)
  {
    var raised := Raised(s).1;
    forall m, n | m in raised && n in raised && m.id == n.id
      ensures m == n
    {
      var j :| j in s.pending && !s.pending[j].notified && m == NoticeOf(s, j);
      var k :| k in s.pending && !s.pending[k].notified && n == NoticeOf(s, k);
      assert !SameNotice(s, j, k);
    }
    forall id | id in NotifiedIDs(s)
      ensures id !in IDsOf(raised)
    {
      var k :| k in s.pending && s.pending[k].notified && ApprovalID(s.identity, s.pending[k]) == id;
      forall n | n in raised
        ensures n.id != id
      {
        var j :| j in s.pending && !s.pending[j].notified && n == NoticeOf(s, j);
        assert !SameNotice(s, j, k);
      }
    }
  }

  // ---------------------------------------------------------------- one step

  lemma NothingRaised(p: Projection)
    requires forall n :: n in p.notices ==> !n.ApprovalNotice?
    ensures RaisedIDs(p) == {}
  {
  }

  lemma ClearingBalances(s: State, t: State, p: Projection)
    requires t.pending == map[] && p.clears == PendingIDs(s) && (forall n :: n in p.notices ==> !n.ApprovalNotice?)
    ensures Balanced(s, t, p)
  {
    NothingRaised(p);
    assert NotifiedIDs(t) == {};
    assert NotifiedIDs(s) <= PendingIDs(s);
  }

  lemma KeepingBalances(s: State, t: State, p: Projection)
    requires t.pending == s.pending && t.identity == s.identity && p.clears == {} && (forall n :: n in p.notices ==> !n.ApprovalNotice?)
    ensures Balanced(s, t, p)
  {
    NothingRaised(p);
  }

  /** A projection that only raises, from a state with the same notices outside. */
  lemma RaiseDecides(s: State, v: State, t: State, p: Projection)
    requires Inv(v) && NotifiedIDs(v) == NotifiedIDs(s) && p.clears == {} && p.notices == Raised(v).1
    requires t.pending == Raised(v).0.pending && t.identity == v.identity
    ensures Balanced(s, t, p) <==> !RaiseClashes(v)
  {
    RaisingAddsUp(v);
    RaisingBalancesExactlyWhen(v);
    assert forall n :: n in p.notices ==> n.ApprovalNotice?;
    assert RaisedIDs(p) == IDsOf(p.notices);
  }

  lemma StatusBalancesExactlyWhen(s: State, threadState: ThreadState)
    requires Inv(s) && s.active && !threadState.NotLoaded?
    ensures var (t, p) := OnThreadStatus(s, threadState); var v := StatusChanged(s, threadState);
            Balanced(s, t, p) <==> !(v.interaction.ApprovalRequired? && RaiseClashes(v))
  {
    var v := StatusChanged(s, threadState);
    var (t, p) := OnThreadStatus(s, threadState);
    MoveKeepsInv(s, threadState);
    if s.threadState.WaitingOnApproval? && !threadState.WaitingOnApproval? {
      assert NotifiedIDs(t) == {};
      NothingRaised(p);
    } else if v.interaction.ApprovalRequired? {
      assert v.pending == s.pending;
      RaiseDecides(s, v, t, p);
    } else {
      KeepingBalances(s, t, p);
    }
  }

  lemma ApprovalBalancesExactlyWhen(s: State, turnID: string, itemID: string, requestID: string, kind: ApprovalKind)
    requires Inv(s) && s.active && OnApprovalPending(s, turnID, itemID, requestID, kind).1.accepted
    ensures var (t, p) := OnApprovalPending(s, turnID, itemID, requestID, kind); var v := Admitting(s, turnID, itemID, requestID, kind);
            Balanced(s, t, p) <==> !(v.interaction.ApprovalRequired? && RaiseClashes(v))
  {
    var (t, p) := OnApprovalPending(s, turnID, itemID, requestID, kind);
    var v := Admitting(s, turnID, itemID, requestID, kind);
    NewcomerIsQuiet(s, v, requestID);
    if v.interaction.ApprovalRequired? {
      RaiseDecides(s, v, t, p);
    } else {
      NothingRaised(p);
    }
  }

  lemma NewcomerIsQuiet(s: State, u: State, requestID: string)
    requires u.identity == s.identity
    requires u.pending == s.pending || (requestID !in s.pending && requestID in u.pending && !u.pending[requestID].notified
                                        && u.pending == s.pending[requestID := u.pending[requestID]])
    ensures NotifiedIDs(u) == NotifiedIDs(s)
  {
    forall id | id in NotifiedIDs(s)
      ensures id in NotifiedIDs(u)
    {
      var k :| k in s.pending && s.pending[k].notified && ApprovalID(s.identity, s.pending[k]) == id;
      assert u.pending[k] == s.pending[k];
    }
  }

  /** Resolving a request balances the ledger exactly when no other notified approval shares its notice. */
  lemma ResolveBalancesExactlyWhen(s: State, requestID: string)
    requires Inv(s) && s.active && requestID in s.pending && requestID != s.inputRequestID
    ensures var (t, p) := OnRequestResolved(s, requestID); Balanced(s, t, p) <==> !SharesNotice(s, requestID)
  {
    var (t, p) := OnRequestResolved(s, requestID);
    var gone := ApprovalID(s.identity, s.pending[requestID]);
    NothingRaised(p);
    forall id
      ensures id in NotifiedIDs(t) <==>
        exists k :: k in s.pending && k != requestID && s.pending[k].notified && ApprovalID(s.identity, s.pending[k]) == id
    {
      if k :| k in s.pending && k != requestID && s.pending[k].notified && ApprovalID(s.identity, s.pending[k]) == id {
        assert k in t.pending;
      }
    }
    if SharesNotice(s, requestID) {
      var k :| k in s.pending && s.pending[k].notified && SameNotice(s, k, requestID);
      assert gone in NotifiedIDs(t);
    } else {
      assert forall k :: k in s.pending && k != requestID && s.pending[k].notified ==> !SameNotice(s, k, requestID);
      assert NotifiedIDs(t) == NotifiedIDs(s) - {gone};
    }
  }

  lemma TurnBalances(s: State, i: Input)
    requires Inv(s) && Step(s, i).1.accepted && i.Occur? && (i.e.TurnStarted? || i.e.TurnCompleted?)
    ensures var (t, p) := Step(s, i); Balanced(s, t, p)
  {
    var (t, p) := Step(s, i);
    ClearingBalances(s, t, p);
  }

  /** An accepted step balances the ledger exactly when it does not clash. */
  lemma StepBalancesExactlyWhen(s: State, i: Input)
    requires Inv(s) && Step(s, i).1.accepted
    ensures var (t, p) := Step(s, i); Balanced(s, t, p) <==> !Clashes(s, i)
  {
    var (t, p) := Step(s, i);
    if i.AskInput? {
      KeepingBalances(s, t, p);
    } else {
      match i.e
      case TurnStarted(_, _) => TurnBalances(s, i);
      case TurnCompleted(_, _, _) => TurnBalances(s, i);
      case ThreadStatus(_, threadState) =>
        if threadState.NotLoaded? {
          ClearingBalances(s, t, p);
        } else {
          StatusBalancesExactlyWhen(s, threadState);
        }
      case ApprovalPending(_, turnID, itemID, requestID, kind) => ApprovalBalancesExactlyWhen(s, turnID, itemID, requestID, kind);
      case RequestResolved(_, requestID) =>
        if requestID == s.inputRequestID && requestID != "" {
          KeepingBalances(s, t, p);
        } else {
          ResolveBalancesExactlyWhen(s, requestID);
        }
      case OtherEvent(_) =>
    }
  }

  // ---------------------------------------------------------------- runs

  /** The final state of a run and the notices then outside. */
  function Run(s: State, outstanding: set<string>, inputs: seq<Input>): (State, set<string>)
    decreases |inputs|
  {
    if inputs == [] then (s, outstanding) else
    var (t, p) := Step(s, inputs[0]);
    Run(t, if p.accepted then Ledger(outstanding, p) else outstanding, inputs[1..])
  }

  /** No step of the run clashes. */
  ghost predicate NeverClashes(s: State, inputs: seq<Input>)
    decreases |inputs|
  {
    inputs != [] ==> !Clashes(s, inputs[0]) && NeverClashes(Step(s, inputs[0]).0, inputs[1..])
  }

  /** Every accepted step of the run balances the ledger. */
  ghost predicate BalancedThroughout(s: State, inputs: seq<Input>)
    decreases |inputs|
  {
    inputs != [] ==>
      && (Step(s, inputs[0]).1.accepted ==> Balanced(s, Step(s, inputs[0]).0, Step(s, inputs[0]).1))
      && BalancedThroughout(Step(s, inputs[0]).0, inputs[1..])
  }

  /** A run raises every notice once and withdraws it once exactly when no step of it clashes. */
  lemma {:induction false} RunBalancesExactlyWhen(s: State, inputs: seq<Input>)
    requires Inv(s)
    ensures BalancedThroughout(s, inputs) <==> NeverClashes(s, inputs)
    decreases |inputs|
  {
    if inputs != [] {
      StepKeepsInv(s, inputs[0]);
      if Step(s, inputs[0]).1.accepted {
        StepBalancesExactlyWhen(s, inputs[0]);
      }
      RunBalancesExactlyWhen(Step(s, inputs[0]).0, inputs[1..]);
    }
  }

  /** Without a clash, the notices outside after a run are exactly the notified pending approvals. */
  lemma {:induction false} NoticesBalance(s: State, inputs: seq<Input>)
    requires Inv(s) && NeverClashes(s, inputs)
    ensures var (t, outstanding) := Run(s, NotifiedIDs(s), inputs); Inv(t) && outstanding == NotifiedIDs(t)
    decreases |inputs|
  {
    if inputs != [] {
      var (t, p) := Step(s, inputs[0]);
      StepKeepsInv(s, inputs[0]);
      if p.accepted {
        StepBalancesExactlyWhen(s, inputs[0]);
      } else {
        RejectedIsSilent(s, inputs[0]);
      }
      NoticesBalance(t, inputs[1..]);
    }
  }

  // ---------------------------------------------------------------- nothing leaks, clash or not

  /** Whatever collides, no step leaves a notice outside that no notified approval stands for. */
  lemma StepLeaksNothing(s: State, i: Input)
    requires Inv(s) && Step(s, i).1.accepted
    ensures var (t, p) := Step(s, i); Ledger(NotifiedIDs(s), p) <= NotifiedIDs(t)
  {
    if Clashes(s, i) {
      match i.e
      case ThreadStatus(_, threadState) => StatusLeaksNothing(s, threadState);
      case ApprovalPending(_, turnID, itemID, requestID, kind) => ApprovalLeaksNothing(s, turnID, itemID, requestID, kind);
      case RequestResolved(_, requestID) => ResolveLeaksNothing(s, requestID);
    } else {
      StepBalancesExactlyWhen(s, i);
    }
  }

  lemma RaiseLeaksNothing(v: State, t: State, p: Projection)
    requires Inv(v) && p.clears == {} && p.notices == Raised(v).1 && t.pending == Raised(v).0.pending && t.identity == v.identity
    ensures Ledger(NotifiedIDs(v), p) == NotifiedIDs(t)
  {
    RaisingAddsUp(v);
    assert RaisedIDs(p) == IDsOf(p.notices);
  }

  lemma StatusLeaksNothing(s: State, threadState: ThreadState)
    requires Inv(s) && s.active && !threadState.NotLoaded? && StatusChanged(s, threadState).interaction.ApprovalRequired?
    ensures var (t, p) := OnThreadStatus(s, threadState); Ledger(NotifiedIDs(s), p) <= NotifiedIDs(t)
  {
    var (t, p) := OnThreadStatus(s, threadState);
    MoveKeepsInv(s, threadState);
    if p.clears == {} && StatusChanged(s, threadState).pending == s.pending {
      RaiseLeaksNothing(StatusChanged(s, threadState), t, p);
    } else {
      StatusBalancesExactlyWhen(s, threadState);
    }
  }

  lemma ApprovalLeaksNothing(s: State, turnID: string, itemID: string, requestID: string, kind: ApprovalKind)
    requires Inv(s) && s.active && OnApprovalPending(s, turnID, itemID, requestID, kind).1.accepted
    requires Admitting(s, turnID, itemID, requestID, kind).interaction.ApprovalRequired?
    ensures var (t, p) := OnApprovalPending(s, turnID, itemID, requestID, kind); Ledger(NotifiedIDs(s), p) <= NotifiedIDs(t)
  {
    var (t, p) := OnApprovalPending(s, turnID, itemID, requestID, kind);
    var v := Admitting(s, turnID, itemID, requestID, kind);
    NewcomerIsQuiet(s, v, requestID);
    RaiseLeaksNothing(v, t, p);
  }

  lemma ResolveLeaksNothing(s: State, requestID: string)
    requires Inv(s) && s.active && requestID in s.pending && requestID != s.inputRequestID
    ensures var (t, p) := OnRequestResolved(s, requestID); Ledger(NotifiedIDs(s), p) <= NotifiedIDs(t)
  {
    var (t, p) := OnRequestResolved(s, requestID);
    NothingRaised(p);
    forall id | id in NotifiedIDs(s) - p.clears
      ensures id in NotifiedIDs(t)
    {
      var k :| k in s.pending && s.pending[k].notified && ApprovalID(s.identity, s.pending[k]) == id;
      assert k in t.pending;
    }
  }

  lemma {:induction false} RunLeaksNothing(s: State, outstanding: set<string>, inputs: seq<Input>)
    requires Inv(s) && outstanding <= NotifiedIDs(s)
    ensures var (t, left) := Run(s, outstanding, inputs); Inv(t) && left <= NotifiedIDs(t)
    decreases |inputs|
  {
    if inputs != [] {
      var (t, p) := Step(s, inputs[0]);
      StepKeepsInv(s, inputs[0]);
      if p.accepted {
        StepLeaksNothing(s, inputs[0]);
        assert Ledger(outstanding, p) <= Ledger(NotifiedIDs(s), p);
        RunLeaksNothing(t, Ledger(outstanding, p), inputs[1..]);
      } else {
        RejectedIsSilent(s, inputs[0]);
        RunLeaksNothing(t, outstanding, inputs[1..]);
      }
    }
  }

  /** An epoch without pending approvals, an ended one above all, has left no approval notice outside, whatever collided. */
  lemma EpochsEndClean(s: State, epoch: nat, identity: Identity, snapshot: Snapshot, inputs: seq<Input>)
    requires Inv(s) && Begun(s, epoch, identity, snapshot).1.accepted
    ensures var (t, outstanding) := Run(Begun(s, epoch, identity, snapshot).0, {}, inputs);
            (!t.active || t.pending == map[]) ==> outstanding == {}
  {
    var b := Begun(s, epoch, identity, snapshot).0;
    BeginEstablishesInv(s, epoch, identity, snapshot);
    RunLeaksNothing(b, {}, inputs);
    var (t, outstanding) := Run(b, {}, inputs);
    if t.pending == map[] {
      assert NotifiedIDs(t) == {};
    }
  }

  // ---------------------------------------------------------------- colons

  predicate ColonFree(s: string) {
    ':' !in s
  }

  predicate ColonFreeItems(s: State) {
    forall k :: k in s.pending ==> ColonFree(s.pending[k].itemID)
  }

  predicate ColonFreeInput(i: Input) {
    i.Occur? && i.e.ApprovalPending? ==> ColonFree(i.e.itemID)
  }

  lemma FirstColonDecides(a: string, b: string, x: string, y: string)
    requires ColonFree(a) && ColonFree(b) && a + ":" + x == b + ":" + y
    ensures a == b && x == y
  {
    var u, v := a + ":" + x, b + ":" + y;
    assert u[|a|] == ':' && v[|b|] == ':';
    assert |a| == |b|;
    assert u[..|a|] == a && v[..|b|] == b;
    assert u[|a| + 1..] == x && v[|b| + 1..] == y;
  }

  /** Without colons in the item ids, a notice id names one approval of a turn. */
  lemma NoticeIDsAreInjective(identity: Identity, p: PendingApproval, q: PendingApproval)
    requires p.turnID == q.turnID && ColonFree(p.itemID) && ColonFree(q.itemID)
    requires ApprovalID(identity, p) == ApprovalID(identity, q)
    ensures p.itemID == q.itemID && p.requestID == q.requestID
  {
    var head := "ai:codex:native:approval:" + identity.threadID + ":" + p.turnID + ":";
    var a, b := p.itemID + ":" + p.requestID, q.itemID + ":" + q.requestID;
    assert ApprovalID(identity, p) == head + a && ApprovalID(identity, q) == head + b;
    assert (head + a)[|head|..] == a && (head + b)[|head|..] == b;
    FirstColonDecides(p.itemID, q.itemID, p.requestID, q.requestID);
  }

  lemma ColonFreeDiffer(s: State, j: string, k: string)
    requires Inv(s) && ColonFreeItems(s) && j in s.pending && k in s.pending
    ensures !SameNotice(s, j, k)
  {
    if SameNotice(s, j, k) {
      NoticeIDsAreInjective(s.identity, s.pending[j], s.pending[k]);
    }
  }

  lemma ColonFreeDoesNotClash(s: State, i: Input)
    requires Inv(s) && ColonFreeItems(s) && ColonFreeInput(i)
    ensures !Clashes(s, i)
  {
    if Clashes(s, i) {
      match i.e
      case ThreadStatus(_, threadState) =>
        MoveKeepsInv(s, threadState);
        ChangeKeepsItems(s, threadState);
        ColonFreeRaises(StatusChanged(s, threadState));
      case ApprovalPending(_, turnID, itemID, requestID, kind) =>
        ColonFreeRaises(Admitting(s, turnID, itemID, requestID, kind));
      case RequestResolved(_, requestID) =>
        var k :| k in s.pending && s.pending[k].notified && SameNotice(s, k, requestID);
        ColonFreeDiffer(s, k, requestID);
    }
  }

  lemma ColonFreeRaises(s: State)
    requires Inv(s) && ColonFreeItems(s)
    ensures !RaiseClashes(s)
  {
    forall j, k | j in s.pending && k in s.pending
      ensures !SameNotice(s, j, k)
    {
      ColonFreeDiffer(s, j, k);
    }
  }

  /** Item ids without a colon never clash, over any run. */
  lemma {:induction false} ColonFreeNeverClashes(s: State, inputs: seq<Input>)
    requires Inv(s) && ColonFreeItems(s) && forall i :: i in inputs ==> ColonFreeInput(i)
    ensures NeverClashes(s, inputs)
    decreases |inputs|
  {
    if inputs != [] {
      assert inputs[0] in inputs;
      ColonFreeDoesNotClash(s, inputs[0]);
      StepKeepsInv(s, inputs[0]);
      StepKeepsColonFree(s, inputs[0]);
      ColonFreeNeverClashes(Step(s, inputs[0]).0, inputs[1..]);
    }
  }

  lemma StepKeepsColonFree(s: State, i: Input)
    requires Inv(s) && ColonFreeItems(s) && ColonFreeInput(i)
    ensures ColonFreeItems(Step(s, i).0)
  {
    if i.Occur? && Step(s, i).1.accepted {
      match i.e
      case ThreadStatus(_, threadState) => StatusKeepsItems(s, threadState);
      case ApprovalPending(_, turnID, itemID, requestID, kind) => ApprovalKeepsItems(s, turnID, itemID, requestID, kind);
      case _ =>
    }
  }

  lemma StatusKeepsItems(s: State, threadState: ThreadState)
    ensures var t := OnThreadStatus(s, threadState).0;
            t.pending.Keys <= s.pending.Keys && forall k :: k in t.pending ==> t.pending[k].itemID == s.pending[k].itemID
  {
    if !threadState.NotLoaded? {
      ChangeKeepsItems(s, threadState);
      NoticesKeepItems(StatusChanged(s, threadState), threadState);
    }
  }

  lemma ChangeKeepsItems(s: State, threadState: ThreadState)
    ensures var v := StatusChanged(s, threadState);
            v.pending.Keys == s.pending.Keys && forall k :: k in v.pending ==> v.pending[k].itemID == s.pending[k].itemID
  {
  }

  lemma NoticesKeepItems(v: State, threadState: ThreadState)
    ensures var t := StatusNotices(v, threadState).0;
            t.pending.Keys == v.pending.Keys && forall k :: k in t.pending ==> t.pending[k].itemID == v.pending[k].itemID
  {
  }

  lemma ApprovalKeepsItems(s: State, turnID: string, itemID: string, requestID: string, kind: ApprovalKind)
    ensures var t := OnApprovalPending(s, turnID, itemID, requestID, kind).0;
            forall k :: k in t.pending ==> if k in s.pending then t.pending[k].itemID == s.pending[k].itemID else t.pending[k].itemID == itemID
  {
    var u, t := Admitting(s, turnID, itemID, requestID, kind), OnApprovalPending(s, turnID, itemID, requestID, kind).0;
    AdmittingKeepsItems(s, turnID, itemID, requestID, kind);
    RaisedKeepsItems(u);
    assert t == s || t == u || t == Raised(u).0;
  }

  lemma AdmittingKeepsItems(s: State, turnID: string, itemID: string, requestID: string, kind: ApprovalKind)
    ensures var u := Admitting(s, turnID, itemID, requestID, kind);
            forall k :: k in u.pending ==> if k in s.pending then u.pending[k].itemID == s.pending[k].itemID else u.pending[k].itemID == itemID
  {
  }

  lemma RaisedKeepsItems(u: State)
    ensures var t := Raised(u).0; t.pending.Keys == u.pending.Keys && forall k :: k in t.pending ==> t.pending[k].itemID == u.pending[k].itemID
  {
  }

  /** With colons: from any new epoch that waits on approval, two approvals raise one notice id twice, and nothing cleared it. */
  lemma CollidingNoticeIsRaisedTwice(s: State, epoch: nat, identity: Identity, turnID: string)
    requires epoch != 0 && ValidIdentity(identity) && Text.TrimSpace(turnID) == turnID != ""
    ensures var b := Begun(s, epoch, identity, Snapshot(identity.threadID, WaitingOnApproval, turnID, InProgress)).0;
            var first := Occur(epoch, ApprovalPending(identity.threadID, turnID, "a", "b:c", Command));
            var second := Occur(epoch, ApprovalPending(identity.threadID, turnID, "a:b", "c", Command));
            var (t, p) := Step(b, first);
            var (u, q) := Step(t, second);
            p.accepted && q.accepted && RaisedIDs(p) != {} && RaisedIDs(p) == RaisedIDs(q) && p.clears == q.clears == {}
            && Clashes(t, second) && !Balanced(t, u, q)
  {
    var b := Begun(s, epoch, identity, Snapshot(identity.threadID, WaitingOnApproval, turnID, InProgress)).0;
    var t := OnApprovalPending(b, turnID, "a", "b:c", Command).0;
    CollidingIDs(identity, turnID);
    FirstIsRaised(b, turnID);
    SecondIsRaised(t, turnID);
    assert ApprovalID(identity, t.pending["b:c"]) in NotifiedIDs(t);
  }

  lemma CollidingIDs(identity: Identity, turnID: string)
    ensures ApprovalID(identity, PendingApproval(turnID, "a", "b:c", Command, true))
         == ApprovalID(identity, PendingApproval(turnID, "a:b", "c", Command, false))
  {
    var head := "ai:codex:native:approval:" + identity.threadID + ":" + turnID + ":";
    assert "a" + ":" + "b:c" == "a:b" + ":" + "c";
    assert ApprovalID(identity, PendingApproval(turnID, "a", "b:c", Command, true)) == head + ("a" + ":" + "b:c");
    assert ApprovalID(identity, PendingApproval(turnID, "a:b", "c", Command, false)) == head + ("a:b" + ":" + "c");
  }

  /** A turn in progress that waits on approval, with nothing asked of its user. */
  predicate Waits(s: State, turnID: string) {
    s.threadState.WaitingOnApproval? && s.turnState.InProgress? && s.inputRequestID == "" && s.turnID == turnID != ""
  }

  lemma FirstIsRaised(b: State, turnID: string)
    requires Waits(b, turnID) && b.pending == map[]
    ensures var (t, p) := OnApprovalPending(b, turnID, "a", "b:c", Command);
            && t == b.(pending := map["b:c" := PendingApproval(turnID, "a", "b:c", Command, true)], interaction := ApprovalRequired)
            && p.accepted && p.clears == {}
            && RaisedIDs(p) == {ApprovalID(b.identity, PendingApproval(turnID, "a", "b:c", Command, true))}
  {
    var one := PendingApproval(turnID, "a", "b:c", Command, false);
    var u := b.(pending := b.pending["b:c" := one]);
    assert Actionable(u, "b:c");
    var (t, p) := OnApprovalPending(b, turnID, "a", "b:c", Command);
    assert p.notices == {ApprovalNotice(ApprovalID(b.identity, one), one.(notified := true))};
  }

  lemma SecondIsRaised(t: State, turnID: string)
    requires Waits(t, turnID) && t.pending == map["b:c" := PendingApproval(turnID, "a", "b:c", Command, true)]
    ensures var (u, q) := OnApprovalPending(t, turnID, "a:b", "c", Command);
            && q.accepted && q.clears == {} && u.pending.Keys == {"b:c", "c"}
            && RaisedIDs(q) == {ApprovalID(t.identity, PendingApproval(turnID, "a:b", "c", Command, false))}
            && var v := Admitting(t, turnID, "a:b", "c", Command); v.interaction.ApprovalRequired? && RaiseClashes(v)
  {
    var two := PendingApproval(turnID, "a:b", "c", Command, false);
    var u := t.(pending := t.pending["c" := two]);
    assert "b:c" != "c" && Actionable(u, "c");
    CollidingIDs(t.identity, turnID);
    var (w, q) := OnApprovalPending(t, turnID, "a:b", "c", Command);
    assert q.notices == {ApprovalNotice(ApprovalID(t.identity, two), two.(notified := true))};
    var v := Admitting(t, turnID, "a:b", "c", Command);
    assert SameNotice(v, "c", "b:c");
  }

  // ---------------------------------------------------------------- one completion, one loud failure

  predicate IsCompletion(n: Notice) {
    n.CompletionNotice?
  }

  predicate IsLoudFailure(n: Notice) {
    n.FailureNotice? && !n.queueOnly
  }

  function Completions(s: State, inputs: seq<Input>): nat
    decreases |inputs|
  {
    if inputs == [] then 0 else
    var (t, p) := Step(s, inputs[0]);
    |set n | n in p.notices && IsCompletion(n)| + Completions(t, inputs[1..])
  }

  function LoudFailures(s: State, inputs: seq<Input>): nat
    decreases |inputs|
  {
    if inputs == [] then 0 else
    var (t, p) := Step(s, inputs[0]);
    |set n | n in p.notices && IsLoudFailure(n)| + LoudFailures(t, inputs[1..])
  }

  /** An accepted turn start. */
  predicate StartsTurn(s: State, i: Input) {
    i.Occur? && i.e.TurnStarted? && Step(s, i).1.accepted
  }

  /** No turn start of the run is accepted. */
  predicate StartsNoTurn(s: State, inputs: seq<Input>)
    decreases |inputs|
  {
    inputs != [] ==> !StartsTurn(s, inputs[0]) && StartsNoTurn(Step(s, inputs[0]).0, inputs[1..])
  }

  /** The turn can still announce its completion, or its failure. */
  predicate CanComplete(s: State) {
    s.active && s.turnID !in s.terminal
  }

  predicate CanFailLoudly(s: State) {
    s.active && !s.errorNotified
  }

  lemma StepAnnounces(s: State, i: Input)
    requires Inv(s) && !StartsTurn(s, i)
    ensures var (t, p) := Step(s, i);
            && |set n | n in p.notices && IsCompletion(n)| + (if CanComplete(t) then 1 else 0) <= (if CanComplete(s) then 1 else 0)
            && |set n | n in p.notices && IsLoudFailure(n)| + (if CanFailLoudly(t) then 1 else 0) <= (if CanFailLoudly(s) then 1 else 0)
  {
    var (t, p) := Step(s, i);
    if i.Occur? && i.e.TurnCompleted? && p.accepted {
      CompletionAnnounces(s, i.e.turnID, i.e.turnState);
    } else if i.Occur? && i.e.ThreadStatus? && p.accepted && !i.e.threadState.NotLoaded? {
      StatusAnnounces(s, i.e.threadState);
    } else {
      SaysNothing(p);
    }
  }

  lemma SaysNothing(p: Projection)
    requires forall n :: n in p.notices ==> n.ApprovalNotice?
    ensures (set n | n in p.notices && IsCompletion(n)) == {} && (set n | n in p.notices && IsLoudFailure(n)) == {}
  {
  }

  lemma CompletionAnnounces(s: State, turnID: string, turnState: TurnState)
    requires Inv(s) && s.active && OnTurnCompleted(s, turnID, turnState).1.accepted
    ensures var (t, p) := OnTurnCompleted(s, turnID, turnState);
            && CanComplete(s) && !CanComplete(t)
            && |set n | n in p.notices && IsCompletion(n)| <= 1
            && |set n | n in p.notices && IsLoudFailure(n)| + (if CanFailLoudly(t) then 1 else 0) <= (if CanFailLoudly(s) then 1 else 0)
  {
    var (t, p) := OnTurnCompleted(s, turnID, turnState);
    var completions := set n | n in p.notices && IsCompletion(n);
    var failures := set n | n in p.notices && IsLoudFailure(n);
    if turnState.Completed? {
      assert completions == {CompletionNotice(CompletionID(s.identity, turnID), turnID)} && failures == {};
    } else if turnState.Failed? {
      var loud := Failure(t, s.errorNotified);
      assert p.notices == {loud} && completions == {} && failures == if s.errorNotified then {} else {loud};
    } else {
      assert completions == {} && failures == {};
    }
  }

  lemma StatusAnnounces(s: State, threadState: ThreadState)
    requires Inv(s) && s.active && !threadState.NotLoaded?
    ensures var (t, p) := OnThreadStatus(s, threadState);
            && t.active && t.terminal == s.terminal && t.turnID == s.turnID && (s.errorNotified ==> t.errorNotified)
            && (set n | n in p.notices && IsCompletion(n)) == {}
            && |set n | n in p.notices && IsLoudFailure(n)| <= (if !s.errorNotified && t.errorNotified then 1 else 0)
  {
    var (t, p) := OnThreadStatus(s, threadState);
    var v := StatusChanged(s, threadState);
    if threadState.SystemError? && !s.errorNotified {
      assert p.notices == {Failure(v, false)};
      assert (set n | n in p.notices && IsLoudFailure(n)) == {Failure(v, false)};
    } else {
      assert (set n | n in p.notices && IsLoudFailure(n)) == {};
    }
  }

  /** Between two turn starts a thread announces at most one completion and at most one loud failure. */
  lemma {:induction false} AnnouncedAtMostOnce(s: State, inputs: seq<Input>)
    requires Inv(s) && StartsNoTurn(s, inputs)
    ensures Completions(s, inputs) <= (if CanComplete(s) then 1 else 0)
    ensures LoudFailures(s, inputs) <= (if CanFailLoudly(s) then 1 else 0)
    decreases |inputs|
  {
    if inputs != [] {
      StepAnnounces(s, inputs[0]);
      StepKeepsInv(s, inputs[0]);
      AnnouncedAtMostOnce(Step(s, inputs[0]).0, inputs[1..]);
    }
  }
}
