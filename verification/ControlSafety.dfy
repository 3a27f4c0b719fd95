/** Safety of a control epoch over every interleaving of notifications, requests and revocation. */
module ControlSafety {
  import opened ControlTypes
  import opened ControlSpec
  import opened Options
  import Text

  datatype Input = Notify(n: Notification) | Ask(q: Request, w: World) | Revoke

  /** The inductive invariant: raw-id keys, one thread, one turn, and no key both pending and poisoned. */
  ghost predicate Inv(cfg: Config, s: State) {
    && HasMaps(s)
    && (s.active ==>
          && (forall k :: k in s.pending.value ==>
                var e := s.pending.value[k];
                e.rawID == k && e.threadID == cfg.identity.threadID && e.turnID == s.turnID && e.itemID != "")
          && s.pending.value.Keys !! s.ambiguous.value)
  }

  ghost function Step(cfg: Config, s: State, i: Input): (State, seq<Call>)
    requires HasMaps(s)
  {
    match i
    case Notify(n) => (Notified(cfg, s, n), [])
    case Ask(q, w) => var o := Handle(cfg, s, q, w); (o.state, o.calls)
    case Revoke => (Revoked(s), [])
  }

  // ---------------------------------------------------------------- one request at a time

  predicate Quiet(calls: seq<Call>) {
    forall c :: c in calls ==> !IsMutation(c)
  }

  /** At most one provider mutation, and it is the last outside call of the request. */
  predicate OneWrite(calls: seq<Call>) {
    calls != [] ==> Quiet(calls[..|calls| - 1])
  }

  predicate Wrote(calls: seq<Call>) {
    calls != [] && IsMutation(calls[|calls| - 1])
  }

  /** The binding fence held after the last lifecycle read; only a durable claim may lie between. */
  predicate WriteFenced(calls: seq<Call>) {
    var n := |calls|;
    || (n >= 2 && calls[n - 2] == Fence(true))
    || (n >= 3 && calls[n - 3] == Fence(true) && calls[n - 2].ClaimRef?)
  }

  ghost predicate Sound(cfg: Config, o: Outcome, fenced: bool) {
    Inv(cfg, o.state) && OneWrite(o.calls) && (fenced && Wrote(o.calls) ==> WriteFenced(o.calls))
  }

  lemma QuietIsSound(cfg: Config, s: State, response: Response, calls: seq<Call>)
    requires Inv(cfg, s) && Quiet(calls)
    ensures Sound(cfg, Outcome(s, response, calls), true)
  {
  }

  lemma StartTurnAtSound(cfg: Config, s: State, text: string, w: World, calls: seq<Call>)
    requires Inv(cfg, s) && Quiet(calls) && WriteFenced(calls + [StartTurn(cfg.identity.threadID, text)])
    ensures Sound(cfg, StartTurnAt(cfg, s, text, w, calls), true)
  {
    var o := StartTurnAt(cfg, s, text, w, calls);
    assert o.calls[..|o.calls| - 1] == calls;
  }

  lemma SteerTurnAtSound(cfg: Config, s: State, turnID: string, text: string, w: World, calls: seq<Call>)
    requires Inv(cfg, s) && Quiet(calls) && WriteFenced(calls + [SteerTurn(cfg.identity.threadID, turnID, text)])
    ensures Sound(cfg, SteerTurnAt(cfg, s, turnID, text, w, calls), true)
  {
    var o := SteerTurnAt(cfg, s, turnID, text, w, calls);
    assert o.calls[..|o.calls| - 1] == calls;
  }

  lemma StartSound(cfg: Config, s: State, q: Request, w: World, calls: seq<Call>)
    requires Inv(cfg, s) && Quiet(calls)
    ensures Sound(cfg, HandleStart(cfg, s, q, w, calls), true)
  {
    var o := HandleStart(cfg, s, q, w, calls);
    var view := Classify(cfg, w.firstRead, false);
    var read := calls + [ReadSnapshot];
    var fenced := read + [Fence(w.fenceAfterRead)];
    if Text.Blank(q.text) || view.NoWrite? || !w.fenceAfterRead {
      assert Quiet(read) && Quiet(fenced);
      QuietIsSound(cfg, s, o.response, o.calls);
    } else {
      var t := Refreshed(s, view);
      if CanStart(t) {
        StartTurnAtSound(cfg, t, q.text, w, fenced);
      } else {
        QuietIsSound(cfg, t, o.response, fenced);
      }
    }
  }

  lemma SteerSound(cfg: Config, s: State, q: Request, w: World, calls: seq<Call>)
    requires Inv(cfg, s) && Quiet(calls)
    ensures Sound(cfg, HandleSteer(cfg, s, q, w, calls), true)
  {
    var o := HandleSteer(cfg, s, q, w, calls);
    var view := Classify(cfg, w.firstRead, true);
    var fenced := calls + [ReadSnapshot] + [Fence(w.fenceAfterRead)];
    assert Quiet(fenced);
    if Text.Blank(q.text) || !CanMutate(s) || view.NoWrite? || !w.fenceAfterRead {
      QuietIsSound(cfg, s, o.response, o.calls);
    } else {
      var t := Refreshed(s, view);
      if t.turnID == s.turnID && CanMutate(t) {
        SteerTurnAtSound(cfg, t, s.turnID, q.text, w, fenced);
      } else {
        QuietIsSound(cfg, t, o.response, fenced);
      }
    }
  }

  lemma DeliverSound(cfg: Config, s: State, q: Request, w: World, calls: seq<Call>)
    requires Inv(cfg, s) && Quiet(calls)
    ensures Sound(cfg, HandleDeliver(cfg, s, q, w, calls), true)
  {
    var o := HandleDeliver(cfg, s, q, w, calls);
    var (view, read) := DeliverRead(cfg, w, calls);
    var fenced := read + [Fence(w.fenceAfterRead)];
    assert Quiet(read) && Quiet(fenced);
    if Text.Blank(q.text) || view.NoWrite? || !w.fenceAfterRead {
      QuietIsSound(cfg, s, o.response, o.calls);
    } else {
      var t := Refreshed(s, view);
      if CanStart(t) {
        StartTurnAtSound(cfg, t, q.text, w, fenced);
      } else if CanMutate(t) {
        SteerTurnAtSound(cfg, t, t.turnID, q.text, w, fenced);
      } else {
        QuietIsSound(cfg, t, o.response, fenced);
      }
    }
  }

  lemma InterruptSound(cfg: Config, s: State, w: World, calls: seq<Call>)
    requires Inv(cfg, s) && Quiet(calls)
    ensures Sound(cfg, HandleInterrupt(cfg, s, w, calls), false)
  {
    assert (calls + [InterruptTurn(cfg.identity.threadID, s.turnID)])[..|calls|] == calls;
  }

  lemma ReviewSound(cfg: Config, s: State, q: Request, w: World, calls: seq<Call>)
    requires Inv(cfg, s) && s.active && Quiet(calls)
    ensures Sound(cfg, HandleReview(s, q, w, calls), false)
  {
    var keys := Matching(s.pending.value, q.key);
    if |keys| == 1 {
      var key := Only(keys);
      assert key in keys;
      assert (calls + [Respond(s.pending.value[key].rawID, q.decision)])[..|calls|] == calls;
    }
  }

  lemma PeerWriteSound(cfg: Config, s: State, text: string, w: World, calls: seq<Call>)
    requires Inv(cfg, s) && Quiet(calls) && |calls| >= 2 && calls[|calls| - 2] == Fence(true) && calls[|calls| - 1].ClaimRef?
    ensures Sound(cfg, PeerWrite(cfg, s, text, w, calls), true)
  {
    var o := PeerWrite(cfg, s, text, w, calls);
    assert o.calls[..|o.calls| - 1] == calls;
  }

  lemma PeerClaimSound(cfg: Config, s: State, q: Request, text: string, w: World, calls: seq<Call>)
    requires Inv(cfg, s) && Quiet(calls) && calls != [] && calls[|calls| - 1] == Fence(true)
    ensures Sound(cfg, PeerClaim(cfg, s, q, text, w, calls), true)
  {
    var o := PeerClaim(cfg, s, q, text, w, calls);
    if q.key in s.used || |s.used| >= PEER_LEDGER_LIMIT || !w.claim.Claimed? {
      QuietIsSound(cfg, s, o.response, o.calls);
    } else {
      PeerWriteSound(cfg, s.(used := s.used + {q.key}), text, w, calls + [ClaimRef(q.key)]);
    }
  }

  lemma PeerAdmitSound(cfg: Config, s: State, q: Request, w: World, calls: seq<Call>)
    requires Inv(cfg, s) && Quiet(calls)
    ensures Sound(cfg, PeerAdmit(cfg, s, q, w, calls), true)
  {
    var o := PeerAdmit(cfg, s, q, w, calls);
    var t := s.(used := s.used - w.pruned);
    var pruned := calls + [PruneClaims];
    var looked := pruned + [Fence(w.fenceAfterPrune)] + [ReadEnvelope(q.key)];
    var admitted := looked + [Fence(w.fenceAfterEnvelope)];
    assert Quiet(pruned) && Quiet(pruned + [Fence(w.fenceAfterPrune)]) && Quiet(looked) && Quiet(admitted);
    if o == PeerClaim(cfg, t, q, if w.peerText.Some? then w.peerText.value else "", w, admitted) && w.fenceAfterEnvelope {
      PeerClaimSound(cfg, t, q, if w.peerText.Some? then w.peerText.value else "", w, admitted);
    } else {
      QuietIsSound(cfg, t, o.response, o.calls);
    }
  }

  lemma PeerSound(cfg: Config, s: State, q: Request, w: World, calls: seq<Call>)
    requires Inv(cfg, s) && Quiet(calls)
    ensures Sound(cfg, HandlePeer(cfg, s, q, w, calls), true)
  {
    var o := HandlePeer(cfg, s, q, w, calls);
    var view := Classify(cfg, w.firstRead, false);
    var read := calls + [ReadSnapshot];
    var fenced := read + [Fence(w.fenceAfterRead)];
    assert Quiet(read) && Quiet(fenced);
    if view.Usable? && w.injectionSupported && w.peerReady && !w.cancelledAfterRead && w.fenceAfterRead {
      var t := Refreshed(s, view);
      if CanStart(t) || CanMutate(t) {
        PeerAdmitSound(cfg, t, q, w, fenced);
      } else {
        QuietIsSound(cfg, t, o.response, fenced);
      }
    } else {
      QuietIsSound(cfg, s, o.response, o.calls);
    }
  }

  /** Every request keeps the invariant, writes at most once and last, and the four text writes are fenced. */
  lemma HandleSound(cfg: Config, s: State, q: Request, w: World)
    requires Inv(cfg, s)
    ensures Sound(cfg, Handle(cfg, s, q, w), q.op.Start? || q.op.Steer? || q.op.Deliver? || q.op.Peer?)
  {
    var calls := [Fence(w.fenceAtEntry)];
    if s.active {
      match q.op
      case Start => StartSound(cfg, s, q, w, calls);
      case Steer => SteerSound(cfg, s, q, w, calls);
      case Deliver => DeliverSound(cfg, s, q, w, calls);
      case Peer => PeerSound(cfg, s, q, w, calls);
      case Interrupt => InterruptSound(cfg, s, w, calls);
      case Review => ReviewSound(cfg, s, q, w, calls);
      case Status =>
      case Approvals =>
      case OtherOperation =>
    }
  }

  lemma StepKeepsInv(cfg: Config, s: State, i: Input)
    requires Inv(cfg, s)
    ensures Inv(cfg, Step(cfg, s, i).0)
  {
    match i
    case Notify(n) =>
    case Ask(q, w) => HandleSound(cfg, s, q, w);
    case Revoke =>
  }

  /** The state after a run, and every outside call it made. */
  ghost function Run(cfg: Config, s: State, inputs: seq<Input>): (State, seq<Call>)
    requires Inv(cfg, s)
    decreases |inputs|
  {
    if inputs == [] then (s, []) else
    StepKeepsInv(cfg, s, inputs[0]);
    var (t, calls) := Step(cfg, s, inputs[0]);
    var (u, rest) := Run(cfg, t, inputs[1..]);
    (u, calls + rest)
  }

  lemma {:induction false} RunKeepsInv(cfg: Config, snapshot: Snapshot, inputs: seq<Input>)
    ensures Inv(cfg, ControlSpec.Fresh(snapshot)) && Inv(cfg, Run(cfg, ControlSpec.Fresh(snapshot), inputs).0)
  {
    RunFromKeepsInv(cfg, ControlSpec.Fresh(snapshot), inputs);
  }

  lemma {:induction false} RunFromKeepsInv(cfg: Config, s: State, inputs: seq<Input>)
    requires Inv(cfg, s)
    ensures Inv(cfg, Run(cfg, s, inputs).0)
    decreases |inputs|
  {
    if inputs != [] {
      StepKeepsInv(cfg, s, inputs[0]);
      RunFromKeepsInv(cfg, Step(cfg, s, inputs[0]).0, inputs[1..]);
    }
  }

  /** A revoked epoch makes no outside call again, and nothing revives it. */
  lemma {:induction false} RevokedStaysSilent(cfg: Config, s: State, inputs: seq<Input>)
    requires Inv(cfg, s) && !s.active
    ensures !Run(cfg, s, inputs).0.active && Run(cfg, s, inputs).1 == []
    decreases |inputs|
  {
    if inputs != [] {
      StepKeepsInv(cfg, s, inputs[0]);
      RevokedStaysSilent(cfg, Step(cfg, s, inputs[0]).0, inputs[1..]);
    }
  }

}
