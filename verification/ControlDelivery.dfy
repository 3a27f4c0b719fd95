/** When exactly a text request reaches the provider, and through which call. */
module ControlDelivery {
  import opened ControlTypes
  import opened ControlSpec
  import opened ControlSafety
  import opened Options
  import Text

  /** A valid snapshot always decides: the thread takes a new turn or a steer, never both and never neither. */
  lemma ValidSnapshotsDecide(s: State, x: Snapshot)
    ensures ValidSnapshot(x) ==> CanStart(Reconciled(s, x)) != CanMutate(Reconciled(s, x))
    ensures CanStart(Reconciled(s, x)) ==> x.threadState.Idle? || x.threadState.SystemError?
    ensures CanMutate(Reconciled(s, x)) ==> ValidSnapshot(x)
  {
  }

  ghost predicate Admitted(cfg: Config, s: State, q: Request, w: World) {
    s.active && q.epoch == cfg.epoch != "" && q.identity == cfg.identity && w.fenceAtEntry && cfg.connected
  }

  /** The lifecycle answer a delivery acts on: the second one after a waited-out retry. */
  function ActingRead(w: World): ReadAnswer {
    if w.firstRead.Unread? && w.firstRead.refusal.RetryLater? && w.waited then w.secondRead else w.firstRead
  }

  /** The read served a usable state of this thread. */
  predicate Serves(cfg: Config, r: ReadAnswer) {
    r.Fresh? && r.snapshot.threadID == cfg.identity.threadID && ValidSnapshot(r.snapshot)
  }

  predicate DrainedRead(r: ReadAnswer) {
    r.Unread? && r.refusal.Drain?
  }

  predicate ReadsAtMostTwice(calls: seq<Call>) {
    forall i, j, k :: 0 <= i < j < k < |calls| ==> !(calls[i].ReadSnapshot? && calls[j].ReadSnapshot? && calls[k].ReadSnapshot?)
  }

  /** A delivery writes exactly when the read or, under a drain, the tracked state can carry it. */
  lemma DeliverWritesExactlyWhen(cfg: Config, s: State, q: Request, w: World)
    requires Inv(cfg, s) && q.op.Deliver?
    ensures var o := Handle(cfg, s, q, w);
            Wrote(o.calls) <==>
              && Admitted(cfg, s, q, w) && !Text.Blank(q.text) && w.fenceAfterRead
              && (Serves(cfg, ActingRead(w)) || (DrainedRead(ActingRead(w)) && (CanStart(s) || CanMutate(s))))
  {
    ActingView(cfg, s, w, [Fence(true)]);
    var (view, read) := DeliverRead(cfg, w, [Fence(true)]);
    if !view.NoWrite? {
      DeliverWriteCalls(cfg, Refreshed(s, view), q.text, w, view.Drained?, read + [Fence(w.fenceAfterRead)]);
    }
  }

  /** Which write it is: a start on a thread that can start, otherwise a steer of the tracked turn. */
  lemma DeliverWritesWhat(cfg: Config, s: State, q: Request, w: World)
    requires Inv(cfg, s) && q.op.Deliver? && Wrote(Handle(cfg, s, q, w).calls)
    ensures var calls := Handle(cfg, s, q, w).calls;
            var t := if DrainedRead(ActingRead(w)) then s else Reconciled(s, ActingRead(w).snapshot);
            calls[|calls| - 1] == if CanStart(t) then StartTurn(cfg.identity.threadID, q.text)
                                  else SteerTurn(cfg.identity.threadID, t.turnID, q.text)
  {
    ActingView(cfg, s, w, [Fence(true)]);
    var (view, read) := DeliverRead(cfg, w, [Fence(true)]);
    if !view.NoWrite? {
      DeliverWriteCalls(cfg, Refreshed(s, view), q.text, w, view.Drained?, read + [Fence(w.fenceAfterRead)]);
    }
  }

  /** The view a delivery acts on is that of its acting read, and a usable one decides. */
  lemma ActingView(cfg: Config, s: State, w: World, calls: seq<Call>)
    requires calls != [] && !Wrote(calls)
    ensures var (view, read) := DeliverRead(cfg, w, calls);
            && read != [] && !Wrote(read)
            && (view.Usable? <==> Serves(cfg, ActingRead(w))) && (view.Drained? <==> DrainedRead(ActingRead(w)))
            && (view.Usable? ==> view.snapshot == ActingRead(w).snapshot
                                 && CanStart(Reconciled(s, view.snapshot)) != CanMutate(Reconciled(s, view.snapshot)))
  {
    var (view, read) := DeliverRead(cfg, w, calls);
    if view.Usable? {
      ValidSnapshotsDecide(s, view.snapshot);
    }
  }

  lemma DeliverWriteCalls(cfg: Config, s: State, text: string, w: World, drained: bool, calls: seq<Call>)
    requires calls != [] && !Wrote(calls)
    ensures var o := DeliverWrite(cfg, s, text, w, drained, calls);
            && (Wrote(o.calls) <==> CanStart(s) || CanMutate(s))
            && o.calls == calls + if CanStart(s) then [StartTurn(cfg.identity.threadID, text)]
                                  else if CanMutate(s) then [SteerTurn(cfg.identity.threadID, s.turnID, text)] else []
  {
  }

  /** A delivery never claims that no turn is active: its snapshot was validated. */
  lemma DeliverNeverFindsNoTurn(cfg: Config, s: State, q: Request, w: World)
    requires Inv(cfg, s) && q.op.Deliver?
    ensures Handle(cfg, s, q, w).response != Refused(NoActiveTurn)
  {
    DeliverFindsATurn(cfg, s, q, w, [Fence(true)]);
  }

  lemma DeliverFindsATurn(cfg: Config, s: State, q: Request, w: World, calls: seq<Call>)
    ensures HandleDeliver(cfg, s, q, w, calls).response != Refused(NoActiveTurn)
  {
    var (view, read) := DeliverRead(cfg, w, calls);
    if view.Usable? {
      ValidSnapshotsDecide(s, view.snapshot);
    }
    if !view.NoWrite? {
      var t, fenced := Refreshed(s, view), read + [Fence(w.fenceAfterRead)];
      WritesFindATurn(cfg, t, q.text, w, fenced);
    }
  }

  lemma WritesFindATurn(cfg: Config, s: State, text: string, w: World, calls: seq<Call>)
    ensures StartTurnAt(cfg, s, text, w, calls).response != Refused(NoActiveTurn)
    ensures SteerTurnAt(cfg, s, s.turnID, text, w, calls).response != Refused(NoActiveTurn)
  {
  }

  /** However it ends, a delivery reads the lifecycle at most twice. */
  lemma DeliverReadsAtMostTwice(cfg: Config, s: State, q: Request, w: World)
    requires Inv(cfg, s) && q.op.Deliver?
    ensures ReadsAtMostTwice(Handle(cfg, s, q, w).calls)
  {
    var (view, read) := DeliverRead(cfg, w, [Fence(true)]);
    assert read == [Fence(true), ReadSnapshot] || read == [Fence(true), ReadSnapshot, WaitRetry] ||
           read == [Fence(true), ReadSnapshot, WaitRetry, ReadSnapshot];
    NoFurtherReads(read, [Fence(w.fenceAfterRead)]);
    if !view.NoWrite? {
      var t, fenced := Refreshed(s, view), read + [Fence(w.fenceAfterRead)];
      DeliverWriteCalls(cfg, t, q.text, w, view.Drained?, fenced);
      NoFurtherReads(fenced, DeliverWrite(cfg, t, q.text, w, view.Drained?, fenced).calls[|fenced|..]);
    }
  }

  lemma NoFurtherReads(calls: seq<Call>, more: seq<Call>)
    requires ReadsAtMostTwice(calls) && forall c :: c in more ==> !c.ReadSnapshot?
    ensures ReadsAtMostTwice(calls + more)
  {
  }

  /** A peer message never meets the no-active-turn refusal: its snapshot was validated. */
  lemma PeerNeverFindsNoTurn(cfg: Config, s: State, q: Request, w: World)
    requires Inv(cfg, s) && q.op.Peer?
    ensures Handle(cfg, s, q, w).response != Refused(NoActiveTurn)
  {
    var view := Classify(cfg, w.firstRead, false);
    if view.Usable? {
      ValidSnapshotsDecide(s, view.snapshot);
      PeerAdmitFindsATurn(cfg, Refreshed(s, view), q, w, [Fence(w.fenceAtEntry)] + [ReadSnapshot] + [Fence(w.fenceAfterRead)]);
    }
  }

  lemma PeerAdmitFindsATurn(cfg: Config, s: State, q: Request, w: World, calls: seq<Call>)
    ensures PeerAdmit(cfg, s, q, w, calls).response != Refused(NoActiveTurn)
  {
  }

  /** A steer writes to the turn cached at its entry or not at all, whatever turn the fresh read shows. */
  lemma SteerNeverRetargets(cfg: Config, s: State, q: Request, w: World)
    requires Inv(cfg, s) && q.op.Steer?
    ensures var o := Handle(cfg, s, q, w);
            && (forall c :: c in o.calls && IsMutation(c) ==> c == SteerTurn(cfg.identity.threadID, s.turnID, q.text))
            && (Wrote(o.calls) <==>
                  && Admitted(cfg, s, q, w) && !Text.Blank(q.text) && CanMutate(s) && w.fenceAfterRead
                  && (DrainedRead(w.firstRead) ||
                      (Serves(cfg, w.firstRead) && w.firstRead.snapshot.turnState.InProgress?
                       && Text.TrimSpace(w.firstRead.snapshot.turnID) == s.turnID)))
  {
  }

  /** A drained read leaves the state that already passed the first check, so a steer never reports the drain. */
  lemma SteerNeverReportsDrain(cfg: Config, s: State, q: Request, w: World)
    requires Inv(cfg, s) && q.op.Steer?
    ensures Handle(cfg, s, q, w).response != Refused(DrainRequired)
  {
  }

  /** A new turn is written exactly when a served idle thread, or the tracked one under a drain, can start. */
  lemma StartWritesExactlyWhen(cfg: Config, s: State, q: Request, w: World)
    requires Inv(cfg, s) && q.op.Start?
    ensures var o := Handle(cfg, s, q, w);
            Wrote(o.calls) <==>
              && Admitted(cfg, s, q, w) && !Text.Blank(q.text) && w.fenceAfterRead
              && ((Serves(cfg, w.firstRead) && !Running(w.firstRead.snapshot.threadState))
                  || (DrainedRead(w.firstRead) && CanStart(s)))
  {
  }

  /** Past its read, a peer message survives pruning, its fresh envelope and both claims. */
  predicate PeerClaims(s: State, q: Request, w: World) {
    && !w.pruneFailed && !w.cancelledAfterPrune && w.fenceAfterPrune && w.peerText.Some?
    && !w.cancelledAfterEnvelope && w.fenceAfterEnvelope
    && q.key !in s.used - w.pruned && |s.used - w.pruned| < PEER_LEDGER_LIMIT && w.claim.Claimed?
  }

  /** A peer write needs every fence, a fresh envelope and both claims; it starts or injects on a decided thread. */
  lemma PeerWritesExactlyWhen(cfg: Config, s: State, q: Request, w: World)
    requires Inv(cfg, s) && q.op.Peer?
    ensures var o := Handle(cfg, s, q, w);
            Wrote(o.calls) <==>
              && Admitted(cfg, s, q, w) && w.injectionSupported && w.peerReady && Serves(cfg, w.firstRead)
              && !w.cancelledAfterRead && w.fenceAfterRead && PeerClaims(s, q, w)
    ensures var o := Handle(cfg, s, q, w); Wrote(o.calls) ==> q.key in o.state.used
  {
    PeerHandlingWrites(cfg, s, q, w, [Fence(true)]);
  }

  lemma PeerHandlingWrites(cfg: Config, s: State, q: Request, w: World, calls: seq<Call>)
    requires calls == [Fence(true)]
    ensures var o := HandlePeer(cfg, s, q, w, calls);
            && (Wrote(o.calls) <==>
                  && w.injectionSupported && w.peerReady && Serves(cfg, w.firstRead)
                  && !w.cancelledAfterRead && w.fenceAfterRead && PeerClaims(s, q, w))
            && (Wrote(o.calls) ==> q.key in o.state.used)
  {
    var view := Classify(cfg, w.firstRead, false);
    if view.Usable? && w.fenceAfterRead {
      ValidSnapshotsDecide(s, view.snapshot);
      PeerAdmitWrites(cfg, Refreshed(s, view), q, w, calls + [ReadSnapshot] + [Fence(true)]);
    }
  }

  lemma PeerAdmitWrites(cfg: Config, s: State, q: Request, w: World, calls: seq<Call>)
    requires calls != [] && !Wrote(calls)
    ensures var o := PeerAdmit(cfg, s, q, w, calls);
            && (Wrote(o.calls) <==> PeerClaims(s, q, w))
            && (Wrote(o.calls) ==> q.key in o.state.used)
  {
  }
}
