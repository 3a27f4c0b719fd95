/** The crash-safe claim ledger behind peer writes, as a machine over its durable and volatile steps. */
module PeerLedger {

  type Ref = string

  const LEDGER_LIMIT := 256

  /** A message record as the store shows it. Reclaimed records are pruned from the store and read as missing. */
  datatype Record = Unseen | Open | Settled(known: bool) | Reclaimed

  predicate Final(r: Record) {
    r.Settled? || r.Reclaimed?
  }

  /** Where the one admission of this generation stands. */
  datatype Phase =
    | Idle
    | Pruning(ref: Ref, settled: map<Ref, bool>)
    | Reading(ref: Ref)
    | Claiming(ref: Ref)
    | Writing(ref: Ref)

  /** records, files and writes are durable; used and phase die with the process. */
  datatype Ledger = Ledger(
    records: map<Ref, Record>, files: map<Ref, string>, used: set<Ref>, phase: Phase, writes: multiset<Ref>)

  const Init := Ledger(map[], map[], {}, Idle, multiset{})

  function RecordOf(l: Ledger, ref: Ref): Record {
    if ref in l.records then l.records[ref] else Unseen
  }

  datatype Event =
    // the message store
    | Accept(ref: Ref) | Settle(ref: Ref, known: bool) | Reclaim(ref: Ref) | Reaccept(ref: Ref)
    // the process
    | NewEpoch | CrashTearing(ref: Ref, body: string)
    // one admission
    | Begin(ref: Ref) | Check(ref: Ref) | ForgetUsed(ref: Ref) | RemoveFile(ref: Ref) | EndPrune | Abort
    | SeeEnvelope | Claim | ClaimTorn(body: string) | Write

  /** The prune check: the answer cached in this pass, true for a settled record with a known outcome. */
  predicate SaysSettled(phase: Phase, ref: Ref) {
    phase.Pruning? && ref in phase.settled && phase.settled[ref]
  }

  predicate KnownSettled(r: Record) {
    r.Settled? && r.known
  }

  predicate ClaimFree(l: Ledger, ref: Ref) {
    ref !in l.used && |l.used| < LEDGER_LIMIT && |l.files| < LEDGER_LIMIT && ref !in l.files
  }

  predicate Enabled(l: Ledger, e: Event) {
    match e
    case Accept(ref) => RecordOf(l, ref).Unseen?
    case Settle(ref, _) => RecordOf(l, ref).Open?
    case Reclaim(ref) => RecordOf(l, ref).Settled?
    case Reaccept(ref) => RecordOf(l, ref).Reclaimed?
    case NewEpoch => true
    case CrashTearing(ref, _) => l.phase == Claiming(ref) && ref !in l.files
    case Begin(_) => l.phase.Idle?
    case Check(ref) => l.phase.Pruning? && ref !in l.phase.settled
    case ForgetUsed(ref) => ref in l.used && SaysSettled(l.phase, ref)
    case RemoveFile(ref) => ref in l.files && l.files[ref] != "" && SaysSettled(l.phase, l.files[ref])
    case EndPrune => l.phase.Pruning?
    case Abort => !l.phase.Idle? && !l.phase.Writing?
    case SeeEnvelope => l.phase.Reading? && RecordOf(l, l.phase.ref).Open?
    case Claim => l.phase.Claiming? && ClaimFree(l, l.phase.ref)
    case ClaimTorn(_) => l.phase.Claiming? && ClaimFree(l, l.phase.ref)
    case Write => l.phase.Writing?
  }

  function Next(l: Ledger, e: Event): Ledger
    requires Enabled(l, e)
  {
    match e
    case Accept(ref) => l.(records := l.records[ref := Open])
    case Settle(ref, known) => l.(records := l.records[ref := Settled(known)])
    case Reclaim(ref) => l.(records := l.records[ref := Reclaimed])
    case Reaccept(ref) => l.(records := l.records[ref := Open])
    case NewEpoch => l.(used := {}, phase := Idle)
    case CrashTearing(ref, body) => l.(files := l.files[ref := body], used := {}, phase := Idle)
    case Begin(ref) => l.(phase := Pruning(ref, map[]))
    case Check(ref) => l.(phase := Pruning(l.phase.ref, l.phase.settled[ref := KnownSettled(RecordOf(l, ref))]))
    case ForgetUsed(ref) => l.(used := l.used - {ref})
    case RemoveFile(ref) => l.(files := l.files - {ref})
    case EndPrune => l.(phase := Reading(l.phase.ref))
    case Abort => l.(phase := Idle)
    case SeeEnvelope => l.(phase := Claiming(l.phase.ref))
    case Claim => l.(files := l.files[l.phase.ref := l.phase.ref], used := l.used + {l.phase.ref}, phase := Writing(l.phase.ref))
    case ClaimTorn(body) => l.(files := l.files[l.phase.ref := body], phase := Idle)
    case Write => l.(writes := l.writes + multiset{l.phase.ref}, phase := Idle)
  }

  predicate Runs(l: Ledger, run: seq<Event>)
    decreases |run|
  {
    run != [] ==> Enabled(l, run[0]) && Runs(Next(l, run[0]), run[1..])
  }

  /** How often a run accepts ref again after the store had pruned it. */
  function Reacceptances(run: seq<Event>, ref: Ref): nat {
    if run == [] then 0 else (if run[0] == Reaccept(ref) then 1 else 0) + Reacceptances(run[1..], ref)
  }

  function After(l: Ledger, run: seq<Event>): Ledger
    requires Runs(l, run)
    decreases |run|
  {
    if run == [] then l else After(Next(l, run[0]), run[1..])
  }

  predicate Claimed(l: Ledger, ref: Ref) {
    ref in l.files && l.files[ref] == ref
  }

  /** With n acceptances after the first, ref is written n + 1 times at most; a reference whose writes are
      spent stays behind its durable claim until its record is final. */
  predicate Inv(l: Ledger, ref: Ref, n: nat) {
    && l.writes[ref] <= n + 1
    && (l.phase == Writing(ref) ==> Claimed(l, ref) && l.writes[ref] <= n)
    && (l.writes[ref] == n + 1 ==>
          && (Claimed(l, ref) || Final(RecordOf(l, ref)))
          && (SaysSettled(l.phase, ref) ==> Final(RecordOf(l, ref)))
          && (l.phase == Claiming(ref) ==> Claimed(l, ref)))
  }

  lemma NextKeepsInv(l: Ledger, e: Event, ref: Ref, n: nat)
    requires Inv(l, ref, n) && Enabled(l, e)
    ensures Inv(Next(l, e), ref, if e == Reaccept(ref) then n + 1 else n)
  {
  }

  /** Over every run with crashes, new epochs, settlement and pruning, each acceptance is written at most once. */
  lemma {:induction false} RunKeepsInv(l: Ledger, run: seq<Event>, ref: Ref, n: nat)
    requires Inv(l, ref, n) && Runs(l, run)
    ensures Inv(After(l, run), ref, n + Reacceptances(run, ref))
    decreases |run|
  {
    if run != [] {
      NextKeepsInv(l, run[0], ref, n);
      RunKeepsInv(Next(l, run[0]), run[1..], ref, if run[0] == Reaccept(ref) then n + 1 else n);
    }
  }

  lemma WritesWithinAcceptances(run: seq<Event>, ref: Ref)
    requires Runs(Init, run)
    ensures After(Init, run).writes[ref] <= 1 + Reacceptances(run, ref)
  {
    RunKeepsInv(Init, run, ref, 0);
  }

  lemma {:induction false} NeverReaccepted(run: seq<Event>, ref: Ref)
    ensures Reacceptances(run, ref) == 0 <==> Reaccept(ref) !in run
  {
    if run != [] {
      NeverReaccepted(run[1..], ref);
      assert run == [run[0]] + run[1..];
    }
  }

  /** A reference the store never accepts again is written at most once, whatever happens to the others. */
  lemma PeerWrittenAtMostOnce(run: seq<Event>, ref: Ref)
    requires Runs(Init, run) && Reaccept(ref) !in run
    ensures After(Init, run).writes[ref] <= 1
  {
    WritesWithinAcceptances(run, ref);
    NeverReaccepted(run, ref);
  }

  // ---------------------------------------------------------------- only a known outcome frees a claim

  /** The outcome of this reference is settled and known, or was and the record is gone. */
  predicate OutcomeKnown(l: Ledger, ref: Ref) {
    ref in l.records && l.records[ref] in {Record.Settled(true), Reclaimed}
  }

  /** The prune check answers true exactly for a record settled with a known outcome, and changes nothing else. */
  lemma CheckSaysExactly(l: Ledger, ref: Ref)
    requires Enabled(l, Check(ref))
    ensures var m := Next(l, Check(ref));
            && m == l.(phase := m.phase) && m.phase.Pruning? && m.phase.ref == l.phase.ref
            && m.phase.settled.Keys == l.phase.settled.Keys + {ref} && (forall k :: k in l.phase.settled ==> m.phase.settled[k] == l.phase.settled[k])
            && (m.phase.settled[ref] <==> ref in l.records && l.records[ref] == Record.Settled(true))
  {
  }

  /** The pass has found ref settled only if its outcome is known, and a claim of ref stands until then. */
  predicate Held(l: Ledger, ref: Ref, claimed: bool) {
    && (SaysSettled(l.phase, ref) ==> OutcomeKnown(l, ref))
    && (claimed ==> Claimed(l, ref) || OutcomeKnown(l, ref))
  }

  lemma NextHolds(l: Ledger, e: Event, ref: Ref, claimed: bool)
    requires Held(l, ref, claimed) && Enabled(l, e) && e != Reaccept(ref)
    ensures Held(Next(l, e), ref, claimed)
  {
  }

  lemma {:induction false} RunHolds(l: Ledger, run: seq<Event>, ref: Ref, claimed: bool)
    requires Held(l, ref, claimed) && Runs(l, run) && Reaccept(ref) !in run
    ensures Held(After(l, run), ref, claimed)
    decreases |run|
  {
    if run != [] {
      assert run[0] in run;
      NextHolds(l, run[0], ref, claimed);
      RunHolds(Next(l, run[0]), run[1..], ref, claimed);
    }
  }

  /** A durable claim, once made, outlives every crash, epoch and pruning pass until the outcome of its message is known. */
  lemma ClaimOutlivesUnknown(first: seq<Event>, second: seq<Event>, ref: Ref)
    requires Runs(Init, first) && Runs(After(Init, first), second) && Reaccept(ref) !in first && Reaccept(ref) !in second
    requires Claimed(After(Init, first), ref)
    ensures var l := After(After(Init, first), second); Claimed(l, ref) || OutcomeKnown(l, ref)
  {
    RunHolds(Init, first, ref, false);
    RunHolds(After(Init, first), second, ref, true);
  }

  /** Some run that accepts ref n times again leads to this ledger. */
  ghost predicate Reach(l: Ledger, ref: Ref, n: nat) {
    exists run :: Runs(Init, run) && After(Init, run) == l && Reacceptances(run, ref) == n
  }

  lemma Take(l: Ledger, e: Event, ref: Ref, n: nat) returns (m: Ledger)
    requires Reach(l, ref, n) && Enabled(l, e)
    ensures m == Next(l, e) && Reach(m, ref, if e == Reaccept(ref) then n + 1 else n)
  {
    var run :| Runs(Init, run) && After(Init, run) == l && Reacceptances(run, ref) == n;
    Extend(Init, run, e);
    ReacceptancesAppend(run, e, ref);
    m := Next(l, e);
    assert Runs(Init, run + [e]) && After(Init, run + [e]) == m;
  }

  lemma {:induction false} ReacceptancesAppend(run: seq<Event>, e: Event, ref: Ref)
    ensures Reacceptances(run + [e], ref) == Reacceptances(run, ref) + if e == Reaccept(ref) then 1 else 0
  {
    if run == [] {
      assert run + [e] == [e];
    } else {
      assert (run + [e])[1..] == run[1..] + [e];
      ReacceptancesAppend(run[1..], e, ref);
    }
  }

  /** The bound is reached: for every n some run that accepts a pruned reference n times again writes it n + 1 times. */
  lemma ReacceptingRewrites(ref: Ref, n: nat)
    requires ref != ""
    ensures exists run :: Runs(Init, run) && Reacceptances(run, ref) == n && After(Init, run).writes[ref] == n + 1
  {
    var l := WriteAgain(ref, n);
    var run :| Runs(Init, run) && After(Init, run) == l && Reacceptances(run, ref) == n;
    assert After(Init, run).writes[ref] == n + 1;
  }

  lemma {:induction false} WriteAgain(ref: Ref, n: nat) returns (l: Ledger)
    requires ref != ""
    ensures Reach(l, ref, n) && l.records == map[ref := Open] && l.files == map[ref := ref] && l.used == {ref} && l.phase.Idle?
    ensures l.writes[ref] == n + 1
  {
    if n == 0 {
      assert Runs(Init, []) && After(Init, []) == Init && Reacceptances([], ref) == 0;
      l := Take(Init, Accept(ref), ref, 0);
    } else {
      l := WriteAgain(ref, n - 1);
      l := ForgetSettled(l, ref, n - 1);
    }
    l := WriteOnce(l, ref, n);
  }

  lemma WriteOnce(l: Ledger, ref: Ref, n: nat) returns (m: Ledger)
    requires Reach(l, ref, n) && l.records == map[ref := Open] && l.files == map[] && l.used == {} && l.phase.Idle?
    ensures Reach(m, ref, n) && m == Ledger(l.records, map[ref := ref], {ref}, Idle, l.writes + multiset{ref})
  {
    m := Look(l, ref, n);
    m := Take(m, Claim, ref, n);
    m := Take(m, Write, ref, n);
  }

  lemma Look(l: Ledger, ref: Ref, n: nat) returns (m: Ledger)
    requires Reach(l, ref, n) && RecordOf(l, ref).Open? && l.phase.Idle?
    ensures Reach(m, ref, n) && m == l.(phase := Claiming(ref))
  {
    m := Take(l, Begin(ref), ref, n);
    m := Take(m, EndPrune, ref, n);
    m := Take(m, SeeEnvelope, ref, n);
  }

  /** A written reference settles, loses both claims to pruning, is reclaimed, and is accepted again. */
  lemma ForgetSettled(l: Ledger, ref: Ref, n: nat) returns (m: Ledger)
    requires ref != "" && Reach(l, ref, n)
    requires l.records == map[ref := Open] && l.files == map[ref := ref] && l.used == {ref} && l.phase.Idle?
    ensures Reach(m, ref, n + 1) && m == Ledger(l.records, map[], {}, Idle, l.writes)
  {
    m := Take(l, Settle(ref, true), ref, n);
    m := Take(m, Begin(ref), ref, n);
    m := Take(m, Check(ref), ref, n);
    assert m == Ledger(map[ref := Settled(true)], l.files, l.used, Pruning(ref, map[ref := true]), l.writes);
    m := PruneBoth(m, ref, n);
    m := Revive(m, ref, n);
  }

  lemma Revive(l: Ledger, ref: Ref, n: nat) returns (m: Ledger)
    requires Reach(l, ref, n) && l.records == map[ref := Settled(true)] && l.phase.Pruning?
    ensures Reach(m, ref, n + 1) && m == l.(records := map[ref := Open], phase := Idle)
  {
    m := Take(l, Reclaim(ref), ref, n);
    m := Take(m, Abort, ref, n);
    m := Take(m, Reaccept(ref), ref, n);
  }

  lemma PruneBoth(l: Ledger, ref: Ref, n: nat) returns (m: Ledger)
    requires ref != "" && Reach(l, ref, n) && l.files == map[ref := ref] && l.used == {ref} && l.phase == Pruning(ref, map[ref := true])
    ensures Reach(m, ref, n) && m == l.(files := map[], used := {})
  {
    m := Take(l, ForgetUsed(ref), ref, n);
    m := Take(m, RemoveFile(ref), ref, n);
  }

  lemma Extend(l: Ledger, run: seq<Event>, e: Event)
    requires Runs(l, run)
    ensures Runs(l, run + [e]) <==> Enabled(After(l, run), e)
    ensures Runs(l, run + [e]) ==> After(l, run + [e]) == Next(After(l, run), e)
  {
    AppendRun(l, run, [e]);
  }

  lemma {:induction false} AppendRun(l: Ledger, a: seq<Event>, b: seq<Event>)
    requires Runs(l, a)
    ensures Runs(l, a + b) <==> Runs(After(l, a), b)
    ensures Runs(l, a + b) ==> After(l, a + b) == After(After(l, a), b)
    decreases |a|
  {
    if a == [] {
      assert a + b == b;
    } else {
      assert (a + b)[1..] == a[1..] + b;
      AppendRun(Next(l, a[0]), a[1..], b);
    }
  }
}
