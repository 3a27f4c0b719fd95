/** The dispatch pass over one question result, each durable commit and each send logged as an Outbox event. */
module OutboxDispatch {
  import opened Options
  import opened Outbox
  import OutboxSafety

  class Dispatcher {
    const resultDeadline: int
    /** Whether the two stores answer every read and write. */
    const reliable: bool
    ghost const start: World
    /** The durable result record. */
    var parts: seq<Part>
    var outcome: Outcome
    /** The message store and the clock, which move between any two steps. */
    var messages: map<Ref, Message>
    var reclaimed: set<Ref>
    var clock: int
    ghost var phase: Phase
    ghost var writes: multiset<nat>
    ghost var history: seq<Event>

    ghost function Here(): World
      reads this
    {
      World(parts, outcome, messages, reclaimed, clock, resultDeadline, phase, writes)
    }

    /** Everything done so far, here and by others, is a run of the outbox machine that ends here. */
    ghost predicate Valid()
      reads this
    {
      Runs(start, history) && After(start, history) == Here()
    }

    constructor (count: nat, now: int, deadline: int, answers: bool)
      ensures Valid() && reliable == answers && start == Init(count, now, deadline) && Here() == start
    {
      parts := seq(count, _ => Part(0, now, ToSend));
      outcome, messages, reclaimed, clock, resultDeadline := Undecided, map[], {}, now, deadline;
      phase, writes, history, reliable := Idle, multiset{}, [], answers;
      start := Init(count, now, deadline);
    }

    /** Appends one event that the fields already show. */
    ghost method Log(e: Event)
      requires Runs(start, history)
      requires Enabled(After(start, history), e) && Next(After(start, history), e) == Here()
      modifies this`history
      ensures Valid() && history == old(history) + [e]
    {
      Extend(start, history, e);
      history := history + [e];
    }

    /** Moves only the dispatcher's own position. */
    ghost method Move(e: Event, to: Phase)
      requires Valid() && Enabled(Here(), e) && Next(Here(), e) == Here().(phase := to)
      modifies this`phase, this`history
      ensures Valid() && phase == to
    {
      phase := to;
      Log(e);
    }

    /** Time, the provider and the store may move here; no reference appears, changes its deadline or loses its verdict. */
    method Interfere()
      requires Valid()
      modifies this`messages, this`reclaimed, this`clock, this`writes, this`history
      ensures Valid() && old(clock) <= clock && messages.Keys == old(messages).Keys
      ensures forall r :: r in messages && KnownFailure(old(messages)[r]) ==> KnownFailure(messages[r])
      ensures forall r :: r in messages && !old(messages)[r].verdict.Open? ==> messages[r].verdict == old(messages)[r].verdict
      ensures forall r :: r in messages ==> messages[r].deadline == old(messages)[r].deadline
    {
    }

    /** One locked update of the durable record. It can fail before or after the new record reaches the disk. */
    method Commit(p: seq<Part>, o: Outcome, ghost e: Event) returns (ok: bool)
      requires Valid() && Enabled(Here(), e)
      requires Next(Here(), e) == Here().(parts := p, outcome := o, phase := Next(Here(), e).phase)
      modifies this`parts, this`outcome, this`phase, this`history
      ensures Valid()
      ensures ok ==> Here() == Next(old(Here()), e)
      ensures reliable ==> ok
      ensures !ok ==> phase.Idle? && (parts == old(parts) || parts == p) && (outcome == old(outcome) || outcome == o)
    {
      var durable: bool := *;
      ok := *;
      ok := ok || reliable;
      if ok || durable {
        parts, outcome, phase := p, o, Next(Here(), e).phase;
        Log(e);
      }
      if !ok {
        Restart();
      }
    }

    /** The next owner after a crash or an error finds the durable record and nothing in flight. */
    ghost method Restart()
      requires Valid()
      modifies this`phase, this`history
      ensures Valid() && phase.Idle?
    {
      Move(Crash, Idle);
    }

    /** Doubt is recorded, never resolved by sending again. */
    method CommitDoubt(n: nat) returns (ok: bool)
      requires Valid() && n < |parts| && Enabled(Here(), Doubt(n))
      modifies this`parts, this`outcome, this`phase, this`history
      ensures Valid() && phase.Idle?
      ensures parts == old(parts) || parts == old(parts)[n := old(parts)[n].(state := Doubtful)]
      ensures ok ==> parts[n].state.Doubtful? && outcome.SomeUnknown?
      ensures reliable ==> ok
      ensures outcome == old(outcome) || outcome.SomeUnknown?
    {
      Move(Doubt(n), Doubting(n));
      ok := Commit(parts[n := parts[n].(state := Doubtful)], SomeUnknown, CommitUnknown);
    }

    /** Settles the part by the receipt in hand. */
    method CommitReceipt(n: nat, receipt: Verdict) returns (ok: bool)
      requires Valid() && n < |parts| && phase == Holding(n, receipt)
      modifies this`parts, this`outcome, this`phase, this`history
      ensures Valid() && phase.Idle?
      ensures parts == old(parts) || parts == old(parts)[n := Received(old(parts)[n], receipt, clock)]
      ensures ok ==> parts[n] == Received(old(parts)[n], receipt, clock) && (receipt.Unknown? ==> outcome.SomeUnknown?)
      ensures reliable ==> ok
      ensures outcome == old(outcome) || outcome.SomeUnknown?
    {
      var o := if receipt.Unknown? then SomeUnknown else outcome;
      ok := Commit(parts[n := Received(parts[n], receipt, clock)], o, Event.CommitReceipt);
    }

    /** The store's status read settles a record whose deadline has passed: as unknown once its hand-off was observed. */
    method ExpireIfDue(ref: Ref)
      requires Valid() && ref in messages
      modifies this`messages, this`history
      ensures Valid()
      ensures var m := old(messages)[ref];
              messages == if m.verdict.Open? && m.deadline <= clock then old(messages)[ref := m.(verdict := if m.handoff then Unknown else Expired)]
                          else old(messages)
    {
      if messages[ref].verdict.Open? && messages[ref].deadline <= clock {
        messages := messages[ref := messages[ref].(verdict := Lapsed(messages[ref]))];
        Log(Expire(ref));
      }
    }

    /** A reference the store already shows is observed and never submitted again. */
    method ObservePart(n: nat) returns (ok: bool)
      requires Valid() && phase.Idle? && n < |parts| && Unfinished(parts[n]) && Seen(Here(), Ref(n, parts[n].attempt))
      modifies this
      ensures Valid() && phase.Idle? && messages.Keys == old(messages).Keys
      ensures Advances(old(parts), parts, n, messages, clock) && old(clock) <= clock
      ensures outcome == old(outcome) || outcome.SomeUnknown?
      ensures var verdict := messages[Ref(n, old(parts)[n].attempt)].verdict;
              ok ==> parts[n] == if old(parts)[n].state.Sending? && verdict.Open? then old(parts)[n].(state := Doubtful)
                                 else Received(old(parts)[n], verdict, clock)
      ensures reliable ==> ok
    {
      var ref := Ref(n, parts[n].attempt);
      ExpireIfDue(ref);
      var verdict := messages[ref].verdict;
      if parts[n].state.Sending? && verdict.Open? {
        ok := CommitDoubt(n);
        return;
      }
      ok := ReceiveObserved(n, verdict);
    }

    /** Settles the part by the store's own verdict. */
    method ReceiveObserved(n: nat, verdict: Verdict) returns (ok: bool)
      requires Valid() && n < |parts| && Enabled(Here(), Observe(n)) && messages[Ref(n, parts[n].attempt)].verdict == verdict
      modifies this`parts, this`outcome, this`phase, this`history
      ensures Valid() && phase.Idle?
      ensures parts == old(parts) || parts == old(parts)[n := Received(old(parts)[n], verdict, clock)]
      ensures ok ==> parts[n] == Received(old(parts)[n], verdict, clock)
      ensures reliable ==> ok
      ensures outcome == old(outcome) || outcome.SomeUnknown?
    {
      Move(Observe(n), Holding(n, verdict));
      ok := CommitReceipt(n, verdict);
    }

    /** The durable claim that comes before the send. */
    method ClaimPart(n: nat) returns (ok: bool)
      requires Valid() && phase.Idle? && n < |parts| && parts[n].state.ToSend? && parts[n].next <= clock
      requires !Seen(Here(), Ref(n, parts[n].attempt))
      modifies this`parts, this`outcome, this`phase, this`history
      ensures Valid() && outcome == old(outcome)
      ensures parts == old(parts) || parts == old(parts)[n := old(parts)[n].(state := Sending)]
      ensures if ok then phase == Calling(n) && parts[n].state.Sending? else phase.Idle?
      ensures reliable ==> ok
    {
      ok := Commit(parts[n := parts[n].(state := Sending)], outcome, ClaimSending(n));
    }

    /** Nothing was accepted: the same reference is due again five seconds later. */
    method CommitRetry(n: nat) returns (ok: bool)
      requires Valid() && n < |parts| && phase == Refused(n)
      modifies this`parts, this`outcome, this`phase, this`history
      ensures Valid() && phase.Idle? && outcome == old(outcome)
      ensures parts == old(parts) || parts == old(parts)[n := old(parts)[n].(state := ToSend, next := clock + RETRY_AFTER_REFUSAL)]
      ensures ok ==> parts[n] == old(parts)[n].(state := ToSend, next := clock + RETRY_AFTER_REFUSAL)
      ensures reliable ==> ok
    {
      ok := Commit(parts[n := parts[n].(state := ToSend, next := clock + RETRY_AFTER_REFUSAL)], outcome, Event.CommitRetry);
    }

    /** Hands a claimed part's reference to the message service exactly once, and commits what came back. */
    method SendClaimed(n: nat) returns (ok: bool, answer: Option<Verdict>)
      requires Valid() && phase == Calling(n) && n < |parts|
      modifies this
      ensures Valid() && phase.Idle?
      ensures messages.Keys == old(messages).Keys || messages.Keys == old(messages).Keys + {Ref(n, old(parts)[n].attempt)}
      ensures Advances(old(parts), parts, n, messages, clock) && old(clock) <= clock
      ensures outcome == old(outcome) || outcome.SomeUnknown?
      ensures reliable ==> ok
      ensures ok ==> parts[n] == (if answer.Some? then Received(old(parts)[n], answer.value, clock)
                                  else old(parts)[n].(state := ToSend, next := clock + RETRY_AFTER_REFUSAL))
      ensures ok && answer.Some? ==> Ref(n, old(parts)[n].attempt) in messages
    {
      answer := None;
      var ttl := resultDeadline - clock;
      var receipt := Submit(n, ttl);
      if receipt == [] {
        ok := CommitRetry(n);
        return;
      }
      answer := Some(receipt[0]);
      ok := CommitReceipt(n, receipt[0]);
    }

    /** Claims the part, then hands its reference to the message service exactly once. */
    method SendPart(n: nat) returns (ok: bool, answer: Option<Verdict>)
      requires Valid() && phase.Idle? && n < |parts| && parts[n].state.ToSend? && parts[n].next <= clock
      requires !Seen(Here(), Ref(n, parts[n].attempt))
      modifies this
      ensures Valid() && phase.Idle?
      ensures messages.Keys == old(messages).Keys || messages.Keys == old(messages).Keys + {Ref(n, old(parts)[n].attempt)}
      ensures Advances(old(parts), parts, n, messages, clock) && old(clock) <= clock
      ensures outcome == old(outcome) || outcome.SomeUnknown?
      ensures reliable ==> ok
      ensures ok ==> parts[n] == (if answer.Some? then Received(old(parts)[n].(state := Sending), answer.value, clock)
                                  else old(parts)[n].(next := clock + RETRY_AFTER_REFUSAL))
      ensures ok && answer.Some? ==> Ref(n, old(parts)[n].attempt) in messages
    {
      answer := None;
      ok := ClaimPart(n);
      if !ok {
        return;
      }
      Interfere();
      ok, answer := SendClaimed(n);
    }

    /** The message service: an empty receipt before acceptance, or one acceptance and its first receipt. */
    method Submit(n: nat, ttl: int) returns (receipt: seq<Verdict>)
      requires Valid() && phase == Calling(n) && n < |parts| && ttl == resultDeadline - clock
      modifies this`messages, this`reclaimed, this`clock, this`phase, this`writes, this`history
      ensures Valid() && |receipt| <= 1 && old(clock) <= clock
      ensures receipt == [] ==> phase == Refused(n) && messages.Keys == old(messages).Keys
      ensures receipt != [] ==> phase == Holding(n, receipt[0]) && messages.Keys == old(messages).Keys + {Ref(n, parts[n].attempt)}
      ensures receipt != [] && receipt[0].Failed? ==> KnownFailure(messages[Ref(n, parts[n].attempt)])
      ensures receipt != [] && receipt[0].Expired? ==> Past(messages[Ref(n, parts[n].attempt)], clock)
    {
      if ttl <= 0 {
        Move(SendRefuses, Refused(n));
        return [];
      }
      Move(SendStarts, Admitted(n));
      receipt := SubmitAdmitted(n, clock + ttl);
    }

    /** Past the lifetime check: a refusal, or the acceptance and its first receipt. */
    method SubmitAdmitted(n: nat, deadline: int) returns (receipt: seq<Verdict>)
      requires Valid() && phase == Admitted(n) && n < |parts| && resultDeadline == deadline
      modifies this`messages, this`reclaimed, this`clock, this`phase, this`writes, this`history
      ensures Valid() && |receipt| <= 1 && old(clock) <= clock
      ensures receipt == [] ==> phase == Refused(n) && messages.Keys == old(messages).Keys
      ensures receipt != [] ==> phase == Holding(n, receipt[0]) && messages.Keys == old(messages).Keys + {Ref(n, parts[n].attempt)}
      ensures receipt != [] && receipt[0].Failed? ==> KnownFailure(messages[Ref(n, parts[n].attempt)])
      ensures receipt != [] && receipt[0].Expired? ==> Past(messages[Ref(n, parts[n].attempt)], clock)
    {
      Interfere();
      var refused: bool := *;
      if refused {
        Move(SendRefuses, Refused(n));
        return [];
      }
      PutAccepted(n, deadline);
      Interfere();
      var answer := Answer(n);
      receipt := [answer];
    }

    /** The store's one acceptance of this reference. */
    method PutAccepted(n: nat, deadline: int)
      requires Valid() && phase == Admitted(n) && n < |parts| && resultDeadline <= deadline
      modifies this`messages, this`phase, this`history
      ensures Valid() && phase == InFlight(n)
      ensures messages == old(messages)[Ref(n, parts[n].attempt) := Message(Open, false, false, deadline, false)]
    {
      messages := messages[Ref(n, parts[n].attempt) := Message(Open, false, false, deadline, false)];
      phase := InFlight(n);
      Log(SendAccepts(deadline));
    }

    /** The delivery attempt ends with any receipt that tells the truth, whether or not the store has it. */
    method Answer(n: nat) returns (answer: Verdict)
      requires Valid() && phase == InFlight(n) && n < |parts| && Ref(n, parts[n].attempt) in messages
      modifies this`messages, this`phase, this`history
      ensures Valid() && phase == Holding(n, answer) && messages.Keys == old(messages).Keys
      ensures answer.Failed? ==> KnownFailure(messages[Ref(n, parts[n].attempt)])
      ensures answer.Expired? ==> Past(messages[Ref(n, parts[n].attempt)], clock)
    {
      var ref := Ref(n, parts[n].attempt);
      answer := *;
      if !HonestReceipt(messages[ref], answer, clock) {
        answer := Open;
      }
      if answer.Failed? {
        messages := messages[ref := messages[ref].(disowned := true)];
      }
      phase := Holding(n, answer);
      Log(SendReturns(answer));
    }

    /** One part of the pass: skip, observe, give up, wait, or send. */
    method DispatchPart(n: nat, conflict: bool, routable: bool) returns (ok: bool)
      requires Valid() && phase.Idle? && n < |parts|
      modifies this
      ensures Valid() && phase.Idle?
      ensures Advances(old(parts), parts, n, messages, clock) && old(clock) <= clock
      ensures outcome == old(outcome) || outcome.SomeUnknown?
      ensures old(messages).Keys <= messages.Keys <= old(messages).Keys + {Ref(n, old(parts)[n].attempt)}
      ensures messages.Keys != old(messages).Keys ==> old(parts)[n].state.ToSend? && old(parts)[n].next <= clock
      ensures reliable ==> ok
      ensures ok && Unfinished(old(parts)[n]) && old(parts)[n].next <= old(clock)
              ==> Handled(old(parts)[n], parts[n], conflict, routable, Ref(n, old(parts)[n].attempt) in old(messages))
    {
      Interfere();
      if !Unfinished(parts[n]) || clock < parts[n].next {
        return true;
      }
      var unreadable: bool := *;
      if unreadable && !reliable {
        return false;
      }
      var ref := Ref(n, parts[n].attempt);
      // A stored record under this reference that is not this result's own is a conflict.
      if conflict {
        ok := CommitDoubt(n);
      } else if ref in messages && ref !in reclaimed {
        ok := ObservePart(n);
      } else if !parts[n].state.ToSend? {
        ok := CommitDoubt(n);
      } else if !routable {
        ok := true;
      } else {
        var answer;
        ok, answer := SendPart(n);
      }
    }

    /** One pass over a result that is still pending; `conflicts` and `routes` are what the store and the routing answer a part. */
    method Dispatch(targetFound: bool, conflicts: nat -> bool, routes: nat -> bool) returns (ok: bool)
      requires Valid() && phase.Idle?
      requires start == Init(|start.parts|, start.clock, resultDeadline)
      requires outcome.Undecided? || outcome.SomeUnknown?
      modifies this
      ensures Valid() && phase.Idle? && |parts| == |old(parts)|
      ensures forall n :: writes[n] <= 1 <==> !OutboxSafety.ResentPastFailure(Here(), n)
      ensures forall n :: Honest(history, n) ==> writes[n] <= 1
      ensures outcome.AllDelivered? ==> forall n :: 0 <= n < |parts| ==> 1 <= writes[n]
      ensures !targetFound && ok ==> outcome.TargetDeleted?
      ensures targetFound && ok && resultDeadline <= old(clock) ==> outcome.ResultExpired?
      ensures targetFound && ok && old(clock) < resultDeadline ==> AllHandled(old(parts), parts, |parts|, old(clock), old(messages).Keys, conflicts, routes)
      ensures targetFound && ok && old(clock) < resultDeadline && (forall p :: p in parts ==> !Unfinished(p))
              ==> outcome == if exists p :: p in parts && p.state.Doubtful? then SomeUnknown else AllDelivered
      ensures reliable ==> ok
    {
      ok := DispatchRecord(targetFound, conflicts, routes);
      forall n: nat
        ensures writes[n] <= 1 <==> !OutboxSafety.ResentPastFailure(Here(), n)
        ensures Honest(history, n) ==> writes[n] <= 1
        ensures outcome.AllDelivered? && n < |parts| ==> 1 <= writes[n]
      {
        WritesOf(n);
      }
    }

    /** What the machine proves of one part of this object's own run. */
    lemma WritesOf(n: nat)
      requires Valid() && start == Init(|start.parts|, start.clock, resultDeadline)
      ensures writes[n] <= 1 <==> !OutboxSafety.ResentPastFailure(Here(), n)
      ensures Honest(history, n) ==> writes[n] <= 1
      ensures outcome.AllDelivered? && n < |parts| ==> 1 <= writes[n]
    {
      OutboxSafety.WrittenTwiceExactlyWhen(|start.parts|, start.clock, resultDeadline, history, n);
      if Honest(history, n) {
        OutboxSafety.PartWrittenAtMostOnce(|start.parts|, start.clock, resultDeadline, history, n);
      }
      OutboxSafety.RunKeepsLength(start, history);
      if n < |parts| {
        OutboxSafety.DeliveredMeansWritten(|start.parts|, start.clock, resultDeadline, history, n);
      }
    }

    method DispatchRecord(targetFound: bool, conflicts: nat -> bool, routes: nat -> bool) returns (ok: bool)
      requires Valid() && phase.Idle? && (outcome.Undecided? || outcome.SomeUnknown?)
      modifies this
      ensures Valid() && phase.Idle? && |parts| == |old(parts)|
      ensures !targetFound && ok ==> outcome.TargetDeleted?
      ensures targetFound && ok && resultDeadline <= old(clock) ==> outcome.ResultExpired?
      ensures targetFound && ok && old(clock) < resultDeadline ==> AllHandled(old(parts), parts, |parts|, old(clock), old(messages).Keys, conflicts, routes)
      ensures targetFound && ok && old(clock) < resultDeadline && (forall p :: p in parts ==> !Unfinished(p))
              ==> outcome == if exists p :: p in parts && p.state.Doubtful? then SomeUnknown else AllDelivered
      ensures reliable ==> ok
    {
      if !targetFound {
        ok := Commit(parts, TargetDeleted, Close(TargetDeleted));
        return;
      }
      if resultDeadline <= clock {
        ok := Commit(parts, ResultExpired, Close(ResultExpired));
        return;
      }
      var n := 0;
      ok := true;
      while n < |parts|
        invariant Valid() && phase.Idle? && |parts| == |old(parts)| && n <= |parts|
        invariant (outcome.Undecided? || outcome.SomeUnknown?) && (reliable ==> ok)
        invariant old(clock) <= clock && AllHandled(old(parts), parts, n, old(clock), old(messages).Keys, conflicts, routes)
        invariant forall k :: n <= k < |parts| ==> parts[k] == old(parts)[k] && SameRef(k, parts[k].attempt, old(messages).Keys, messages.Keys)
        decreases |parts| - n
      {
        ok := DispatchPart(n, conflicts(n), routes(n));
        if !ok {
          return;
        }
        n := n + 1;
      }
      var settled := Summarized();
      ok := Commit(parts, settled, Summarize);
    }

    /** The closing scan: unfinished parts keep the outcome open, one doubtful part makes it unknown. */
    method Summarized() returns (settled: Outcome)
      ensures settled == Summary(parts, outcome)
    {
      var pending, n := false, 0;
      settled := AllDelivered;
      while n < |parts|
        invariant n <= |parts|
        invariant pending <==> exists p :: p in parts[..n] && Unfinished(p)
        invariant settled == if exists p :: p in parts[..n] && p.state.Doubtful? then SomeUnknown else AllDelivered
      {
        assert parts[..n + 1] == parts[..n] + [parts[n]];
        if parts[n].state.Doubtful? {
          settled := SomeUnknown;
        }
        if Unfinished(parts[n]) {
          pending := true;
        }
        n := n + 1;
      }
      assert parts[..n] == parts;
      if pending {
        settled := outcome;
      }
    }
  }

  /** This reference is known to both stores or to neither. */
  predicate SameRef(n: nat, attempt: nat, before: set<Ref>, after: set<Ref>) {
    Ref(n, attempt) in before <==> Ref(n, attempt) in after
  }

  /** Every due unfinished part among the first n was handled. */
  predicate AllHandled(before: seq<Part>, after: seq<Part>, n: nat, clock: int, refs: set<Ref>, conflicts: nat -> bool, routes: nat -> bool) {
    && n <= |before| == |after|
    && forall k :: 0 <= k < n && Unfinished(before[k]) && before[k].next <= clock
         ==> Handled(before[k], after[k], conflicts(k), routes(k), Ref(k, before[k].attempt) in refs)
  }

  /** What a pass does to a due unfinished part; `accepted` is whether its reference was ever accepted before. */
  predicate Handled(before: Part, after: Part, conflict: bool, routable: bool, accepted: bool) {
    if conflict then after == before.(state := Doubtful)
    else if accepted then
      after == before.(state := Doubtful) || after.attempt == before.attempt + 1 || after.state.Settled? || after.state.Accepted?
      || before.state.ToSend?
    else if !before.state.ToSend? then after == before.(state := Doubtful)
    else routable <==> after != before
  }

  /** Only the dispatched part changes, and a new reference is minted only past a known failure or a deadline. */
  predicate Advances(before: seq<Part>, after: seq<Part>, n: nat, messages: map<Ref, Message>, clock: int)
    requires n < |before|
  {
    && |after| == |before|
    && after == before[n := after[n]]
    && before[n].attempt <= after[n].attempt <= before[n].attempt + 1
    && (after[n].attempt != before[n].attempt ==>
          && Ref(n, before[n].attempt) in messages
          && (KnownFailure(messages[Ref(n, before[n].attempt)]) || Past(messages[Ref(n, before[n].attempt)], clock)))
  }
}
