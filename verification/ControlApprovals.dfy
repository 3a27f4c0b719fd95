/** Approval answers are claimed before they are written, and a poisoned request id is never answered. */
module ControlApprovals {
  import opened ControlTypes
  import opened ControlSpec
  import opened ControlSafety
  import opened ControlDelivery
  import opened Options
  import Text

  ghost predicate Pending(s: State, k: string) {
    s.pending.Some? && k in s.pending.value
  }

  ghost predicate Poisoned(s: State, k: string) {
    s.ambiguous.Some? && k in s.ambiguous.value
  }

  function Answers(calls: seq<Call>, k: string): nat {
    if calls == [] then 0 else (if calls[0].Respond? && calls[0].rawID == k then 1 else 0) + Answers(calls[1..], k)
  }

  lemma {:induction false} AnswersConcat(a: seq<Call>, b: seq<Call>, k: string)
    ensures Answers(a + b, k) == Answers(a, k) + Answers(b, k)
  {
    if a == [] {
      assert a + b == b;
    } else {
      assert (a + b)[1..] == a[1..] + b;
      AnswersConcat(a[1..], b, k);
    }
  }

  lemma {:induction false} QuietAnswersNothing(calls: seq<Call>, k: string)
    requires Quiet(calls)
    ensures Answers(calls, k) == 0
  {
    if calls != [] {
      assert calls[0] in calls;
      QuietAnswersNothing(calls[1..], k);
    }
  }

  /** How often a run admits raw request id k to the pending set. */
  ghost function Admissions(cfg: Config, s: State, inputs: seq<Input>, k: string): nat
    requires Inv(cfg, s)
    decreases |inputs|
  {
    if inputs == [] then 0 else
    StepKeepsInv(cfg, s, inputs[0]);
    var t := Step(cfg, s, inputs[0]).0;
    (if !Pending(s, k) && Pending(t, k) then 1 else 0) + Admissions(cfg, t, inputs[1..], k)
  }

  /** One request answers k at most once, and only by taking it out of the pending set first. */
  lemma RequestAnswersPending(cfg: Config, s: State, q: Request, w: World, k: string)
    requires Inv(cfg, s)
    ensures var o := Handle(cfg, s, q, w);
            && (Pending(o.state, k) ==> Pending(s, k))
            && Answers(o.calls, k) <= 1
            && (Answers(o.calls, k) == 1 ==> Pending(s, k) && !Pending(o.state, k))
  {
    var o := Handle(cfg, s, q, w);
    HandleSound(cfg, s, q, w);
    if o.calls != [] {
      var n := |o.calls| - 1;
      assert o.calls == o.calls[..n] + [o.calls[n]];
      AnswersConcat(o.calls[..n], [o.calls[n]], k);
      QuietAnswersNothing(o.calls[..n], k);
      RequestKeepsPending(cfg, s, q, w, k);
    } else {
      assert o.state == s;
    }
  }

  // ---------------------------------------------------------------- what a request does to the two maps

  /** The lifecycle read of a request whose snapshot the epoch reconciles with. */
  function UsedRead(q: Request, w: World): ReadAnswer {
    if q.op.Deliver? then ActingRead(w) else w.firstRead
  }

  /** An admitted request gets as far as reconciling the epoch with its read. */
  predicate Reconciles(cfg: Config, s: State, q: Request, w: World) {
    && Serves(cfg, UsedRead(q, w)) && w.fenceAfterRead
    && match q.op
       case Start => !Text.Blank(q.text)
       case Deliver => !Text.Blank(q.text)
       case Steer => !Text.Blank(q.text) && CanMutate(s) && !w.firstRead.snapshot.threadState.SystemError?
       case Peer => w.injectionSupported && w.peerReady && !w.cancelledAfterRead
       case _ => false
  }

  /** The snapshot shows another turn than the tracked one, or that turn ended. */
  predicate TurnOver(s: State, x: Snapshot) {
    Text.TrimSpace(x.turnID) != s.turnID || !x.turnState.InProgress?
  }

  /** The provider's answer to a start names this thread and a turn. */
  predicate Accepts(cfg: Config, w: World) {
    w.start.Answered? && w.start.value.threadID == cfg.identity.threadID && w.start.value.turnID != ""
  }

  /** The thread can take a new turn: as its read shows it, or as it is tracked when a drain withholds the read. */
  predicate Startable(cfg: Config, s: State, r: ReadAnswer, drainable: bool) {
    (Serves(cfg, r) && !Running(r.snapshot.threadState)) || (drainable && DrainedRead(r) && CanStart(s))
  }

  /** An admitted request gets as far as writing a new turn. */
  predicate WritesStart(cfg: Config, s: State, q: Request, w: World) {
    && w.fenceAfterRead && Startable(cfg, s, UsedRead(q, w), !q.op.Peer?)
    && match q.op
       case Start => !Text.Blank(q.text)
       case Deliver => !Text.Blank(q.text)
       case Peer => w.injectionSupported && w.peerReady && !w.cancelledAfterRead && PeerClaims(s, q, w)
       case _ => false
  }

  /** The request crosses a turn boundary: the one it reads, or the one it makes. */
  predicate Crosses(cfg: Config, s: State, q: Request, w: World) {
    || (Reconciles(cfg, s, q, w) && TurnOver(s, UsedRead(q, w).snapshot))
    || (WritesStart(cfg, s, q, w) && Accepts(cfg, w))
  }

  /** Both maps are emptied when a turn boundary is crossed and kept otherwise; nothing is answered. */
  ghost predicate Bounded(s: State, o: Outcome, crossed: bool) {
    && o.state.active == s.active
    && (o.calls != [] ==> !o.calls[|o.calls| - 1].Respond?)
    && (if crossed then o.state.pending == Some(map[]) && o.state.ambiguous == Some({})
        else o.state.pending == s.pending && o.state.ambiguous == s.ambiguous)
  }

  lemma StartBounded(cfg: Config, s: State, q: Request, w: World, calls: seq<Call>)
    requires calls == [Fence(true)] && q.op.Start?
    ensures Bounded(s, HandleStart(cfg, s, q, w, calls), Crosses(cfg, s, q, w))
  {
  }

  lemma SteerBounded(cfg: Config, s: State, q: Request, w: World, calls: seq<Call>)
    requires calls == [Fence(true)] && q.op.Steer?
    ensures Bounded(s, HandleSteer(cfg, s, q, w, calls), Crosses(cfg, s, q, w))
  {
  }

  lemma DeliverBounded(cfg: Config, s: State, q: Request, w: World, calls: seq<Call>)
    requires calls == [Fence(true)] && q.op.Deliver?
    ensures Bounded(s, HandleDeliver(cfg, s, q, w, calls), Crosses(cfg, s, q, w))
  {
    var (view, read) := DeliverRead(cfg, w, calls);
    if !view.NoWrite? {
      var t := Refreshed(s, view);
      ActingView(cfg, s, w, calls);
      DeliverWriteBounded(cfg, t, q.text, w, view.Drained?, read + [Fence(w.fenceAfterRead)]);
    }
  }

  lemma DeliverWriteBounded(cfg: Config, s: State, text: string, w: World, drained: bool, calls: seq<Call>)
    requires calls != [] && calls[|calls| - 1].Fence?
    ensures var o := DeliverWrite(cfg, s, text, w, drained, calls);
            o.calls != [] && Bounded(s, o, CanStart(s) && Accepts(cfg, w))
  {
  }

  lemma PeerAdmitBounded(cfg: Config, s: State, q: Request, w: World, calls: seq<Call>)
    requires calls != [] && calls[|calls| - 1].Fence?
    ensures Bounded(s, PeerAdmit(cfg, s, q, w, calls), PeerClaims(s, q, w) && CanStart(s) && Accepts(cfg, w))
  {
  }

  lemma PeerBounded(cfg: Config, s: State, q: Request, w: World, calls: seq<Call>)
    requires calls == [Fence(true)] && q.op.Peer?
    ensures Bounded(s, HandlePeer(cfg, s, q, w, calls), Crosses(cfg, s, q, w))
  {
    var view := Classify(cfg, w.firstRead, false);
    if view.Usable? && w.fenceAfterRead {
      ValidSnapshotsDecide(s, view.snapshot);
      PeerAdmitBounded(cfg, Refreshed(s, view), q, w, calls + [ReadSnapshot] + [Fence(true)]);
    }
  }

  /** Any request but a review empties both maps exactly when, once admitted, it crosses a turn boundary. */
  lemma RequestBounded(cfg: Config, s: State, q: Request, w: World)
    requires Inv(cfg, s) && !q.op.Review?
    ensures Bounded(s, Handle(cfg, s, q, w), Admitted(cfg, s, q, w) && Crosses(cfg, s, q, w))
  {
    var calls := [Fence(true)];
    if Admitted(cfg, s, q, w) {
      match q.op
      case Start => StartBounded(cfg, s, q, w, calls);
      case Steer => SteerBounded(cfg, s, q, w, calls);
      case Deliver => DeliverBounded(cfg, s, q, w, calls);
      case Peer => PeerBounded(cfg, s, q, w, calls);
      case Interrupt =>
      case Review =>
      case Status =>
      case Approvals =>
      case OtherOperation =>
    }
  }

  /** A response leaves only through review, which has already deleted that request from pending. */
  lemma RequestKeepsPending(cfg: Config, s: State, q: Request, w: World, k: string)
    requires Inv(cfg, s)
    ensures var o := Handle(cfg, s, q, w);
            && (Pending(o.state, k) ==> Pending(s, k))
            && (o.calls != [] && o.calls[|o.calls| - 1].Respond? && o.calls[|o.calls| - 1].rawID == k
                ==> Pending(s, k) && !Pending(o.state, k))
  {
    if q.op.Review? {
      if s.active && |Matching(s.pending.value, q.key)| == 1 {
        var key := Only(Matching(s.pending.value, q.key));
        assert key in Matching(s.pending.value, q.key);
      }
    } else {
      RequestBounded(cfg, s, q, w);
    }
  }

  lemma StepAnswersPending(cfg: Config, s: State, i: Input, k: string)
    requires Inv(cfg, s)
    ensures var (t, calls) := Step(cfg, s, i);
            Answers(calls, k) + (if Pending(t, k) then 1 else 0)
            <= (if Pending(s, k) || Pending(t, k) then 1 else 0)
  {
    match i
    case Notify(n) =>
    case Ask(q, w) => RequestAnswersPending(cfg, s, q, w, k);
    case Revoke =>
  }

  /** Over any run, responses to k never exceed its admissions to the pending set. */
  lemma {:induction false} AnswersNeverExceedAdmissions(cfg: Config, s: State, inputs: seq<Input>, k: string)
    requires Inv(cfg, s)
    ensures var (t, calls) := Run(cfg, s, inputs);
            Answers(calls, k) + (if Pending(t, k) then 1 else 0)
            <= Admissions(cfg, s, inputs, k) + (if Pending(s, k) then 1 else 0)
    decreases |inputs|
  {
    if inputs != [] {
      StepKeepsInv(cfg, s, inputs[0]);
      StepAnswersPending(cfg, s, inputs[0], k);
      var (t, calls) := Step(cfg, s, inputs[0]);
      AnswersNeverExceedAdmissions(cfg, t, inputs[1..], k);
      AnswersConcat(calls, Run(cfg, t, inputs[1..]).1, k);
    }
  }

  // ---------------------------------------------------------------- poisoned ids

  /** A second, different envelope under a pending raw id leaves no capability to answer either. */
  lemma ConflictPoisons(cfg: Config, s: State, e: Envelope)
    requires Inv(cfg, s) && s.active && Pending(s, e.rawID) && s.pending.value[e.rawID] != e
    requires e.threadID == cfg.identity.threadID && e.turnID == s.turnID && e.itemID != ""
    ensures var t := Notified(cfg, s, Approval(e)); Poisoned(t, e.rawID) && !Pending(t, e.rawID)
  {
  }

  /** What ends the poisoning of k: revocation, its resolution, or a boundary of the tracked turn. */
  ghost predicate Ends(cfg: Config, s: State, i: Input, k: string)
    requires HasMaps(s)
  {
    match i
    case Revoke => true
    case Notify(n) =>
      (match n
       case TurnStarted(threadID, _) => threadID == cfg.identity.threadID
       case TurnCompleted(threadID, turnID, _) => threadID == cfg.identity.threadID && turnID == s.turnID
       case Resolved(threadID, rawID) => threadID == cfg.identity.threadID && rawID == k
       case _ => false)
    case Ask(q, w) => Admitted(cfg, s, q, w) && Crosses(cfg, s, q, w)
  }

  /** A poisoned id stays poisoned exactly until one of those inputs, and no step answers it. */
  lemma PoisonEndsExactlyWhen(cfg: Config, s: State, i: Input, k: string)
    requires Inv(cfg, s) && Poisoned(s, k) && s.active
    ensures var (t, calls) := Step(cfg, s, i);
            && (Poisoned(t, k) <==> !Ends(cfg, s, i, k)) && Answers(calls, k) == 0
            && (Poisoned(t, k) ==> t.active)
  {
    match i
    case Notify(n) =>
    case Revoke =>
    case Ask(q, w) =>
      RequestAnswersPending(cfg, s, q, w, k);
      if !q.op.Review? {
        RequestBounded(cfg, s, q, w);
      }
  }

  /** Over any run in which nothing ends its poisoning, k stays poisoned and is not answered. */
  lemma {:induction false} PoisonedNeverAnswered(cfg: Config, s: State, inputs: seq<Input>, k: string)
    requires Inv(cfg, s) && s.active && Poisoned(s, k)
    ensures NeverEnds(cfg, s, inputs, k) ==>
              var (t, calls) := Run(cfg, s, inputs); Poisoned(t, k) && Answers(calls, k) == 0
    decreases |inputs|
  {
    if inputs != [] && NeverEnds(cfg, s, inputs, k) {
      StepKeepsInv(cfg, s, inputs[0]);
      PoisonEndsExactlyWhen(cfg, s, inputs[0], k);
      var (t, calls) := Step(cfg, s, inputs[0]);
      PoisonedNeverAnswered(cfg, t, inputs[1..], k);
      AnswersConcat(calls, Run(cfg, t, inputs[1..]).1, k);
    }
  }

  ghost predicate NeverEnds(cfg: Config, s: State, inputs: seq<Input>, k: string)
    requires Inv(cfg, s)
    decreases |inputs|
  {
    inputs != [] ==>
      && !Ends(cfg, s, inputs[0], k)
      && (StepKeepsInv(cfg, s, inputs[0]);
          NeverEnds(cfg, Step(cfg, s, inputs[0]).0, inputs[1..], k))
  }
}
