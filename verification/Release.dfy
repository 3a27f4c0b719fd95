/** The held-message release: an in-order drain with backoff, one shared window and a hand-off. */
module Release {
  type Ref = string

  /** One held record: as the store has it, and as a listing copied it. */
  datatype Record = Record(ref: Ref, deadline: int, handoff: bool)

  datatype Outcome = Done | Stop | Undecidable | Blocked

  /** How one release returns: nothing left to attempt, its window over, or an error. */
  datatype Result = Quiet | Ended(failed: bool, relisted: bool) | Broken

  const SECOND := 1_000_000_000
  const WINDOW := 600 * SECOND
  const FIRST_WAIT := 2 * SECOND
  const MAX_WAIT := 30 * SECOND
  const WATCH_INTERVAL := 2 * SECOND

  function Refs(records: seq<Record>): set<Ref> {
    set r | r in records :: r.ref
  }

  // ---- one judgment ----

  datatype Route = Accepts | Unanswered | Mismatch

  /** What one fresh read shows: the Registry, the target's route, and whether it awaits its operator. */
  datatype View = Unreadable | Removed | Target(route: Route, awaits: bool)

  /** How a judgment closes a record: as stale, as a hand-off of unknown outcome, or by the store's own deadline rule. */
  datatype Ending = Stale(reason: string) | HandoffUnknown | Lapse

  datatype Judgment = Wait(outcome: Outcome) | Finish(ending: Ending) | Push

  /** A record whose hand-off was observed is never closed with a known outcome. */
  function Withdrawn(record: Record, reason: string): Ending {
    if record.handoff then HandoffUnknown else Stale(reason)
  }

  /** Whether a record may be pushed now; everything that cannot be pushed is finished or waited for. */
  function Judge(view: View, record: Record, now: int): Judgment {
    if view.Unreadable? then Wait(Undecidable)
    else if view.Removed? then Finish(Withdrawn(record, "target-removed"))
    else if view.route.Unanswered? then Wait(if view.awaits then Blocked else Undecidable)
    else if view.route.Mismatch? then Finish(Withdrawn(record, "target-activation-stale"))
    else if record.handoff then Finish(HandoffUnknown)
    else if record.deadline <= now then Finish(Lapse)
    else if view.awaits then Wait(Blocked)
    else Push
  }

  /** Only a target that accepts and does not await its operator is pushed to, in time and without a hand-off. */
  predicate Pushable(view: View, record: Record, now: int) {
    view == Target(Accepts, false) && !record.handoff && now < record.deadline
  }

  /** The target is gone or has moved on, or it would accept a record that was handed off or is out of time. */
  predicate Closable(view: View, record: Record, now: int) {
    || view == Removed || view in {Target(Mismatch, false), Target(Mismatch, true)}
    || (view in {Target(Accepts, false), Target(Accepts, true)} && (record.handoff || record.deadline <= now))
  }

  /** The judgment, case by case of what the view and the record show. */
  lemma JudgesExactly(view: View, record: Record, now: int)
    ensures var judgment := Judge(view, record, now);
            && (judgment == Push <==> Pushable(view, record, now))
            && (judgment.Finish? <==> Closable(view, record, now))
            && (judgment == Wait(Blocked) <==>
                  view.Target? && view.awaits && !Closable(view, record, now))
            && (judgment == Wait(Undecidable) <==> view in {Unreadable, Target(Unanswered, false)})
            && (judgment == Finish(HandoffUnknown) <==> Closable(view, record, now) && record.handoff)
            && (judgment == Finish(Lapse) <==> Closable(view, record, now) && !record.handoff && view.Target? && view.route == Accepts)
            && (judgment == Finish(Stale("target-removed")) <==> view == Removed && !record.handoff)
            && (judgment == Finish(Stale("target-activation-stale")) <==> view.Target? && view.route == Mismatch && !record.handoff)
  {
    assert "target-removed"[7] != "target-activation-stale"[7];
  }

  // ---- waiting ----

  /** Why the release pauses: watching an open dialog, or the kth retry of an undecidable record. */
  datatype Why = Watching | Retrying(k: nat)

  function Backoff(k: nat): (wait: int)
    ensures FIRST_WAIT <= wait <= MAX_WAIT
  {
    if k == 0 then FIRST_WAIT else Least(2 * Backoff(k - 1), MAX_WAIT)
  }

  function Least(a: int, b: int): int {
    if a < b then a else b
  }

  function Wanted(why: Why): int {
    match why
    case Watching => WATCH_INTERVAL
    case Retrying(k) => Backoff(k)
  }

  /** The wait doubles four times and then stays at half a minute. */
  lemma {:induction false} BackoffLevels(k: nat)
    ensures k >= 4 ==> Backoff(k) == 30 * SECOND
    ensures Wanted(Watching) == 2 * SECOND && Wanted(Retrying(k)) == Backoff(k)
    ensures Backoff(0) == 2 * SECOND && Backoff(1) == 4 * SECOND && Backoff(2) == 8 * SECOND && Backoff(3) == 16 * SECOND
  {
    assert Backoff(1) == 2 * Backoff(0) && Backoff(2) == 2 * Backoff(1) && Backoff(3) == 2 * Backoff(2);
    if k > 4 {
      BackoffLevels(k - 1);
    }
  }

  /** The window closes ten minutes after it opens, or at the earliest deadline still ahead among the pending records. */
  predicate ClosesAt(end: int, start: int, pending: seq<Record>) {
    && start < end <= start + 600 * SECOND
    && (forall r :: r in pending && start < r.deadline ==> end <= r.deadline)
    && (end == start + 600 * SECOND || exists r :: r in pending && r.deadline == end)
  }

  method HeldReleaseWindowEnd(now: int, pending: seq<Record>) returns (end: int)
    ensures ClosesAt(end, now, pending)
  {
    end := now + WINDOW;
    for i := 0 to |pending|
      invariant ClosesAt(end, now, pending[..i])
    {
      assert pending[..i + 1] == pending[..i] + [pending[i]];
      var deadline := pending[i].deadline;
      if now < deadline && deadline < end {
        end := deadline;
        assert pending[i] in pending[..i + 1];
      }
    }
    assert pending[..|pending|] == pending;
  }

  // ---- the trace ----

  /** `held` is what the store holds at the push, `stale` the versions it had before and has no longer. */
  datatype Act =
    | Pushed(listing: seq<Record>, i: nat, held: seq<Record>, stale: set<Record>, view: View, at: int)
    | Closed(record: Record, ending: Ending, at: int)
    | Slept(at: int, pause: int, why: Why)

  /** The store still holds the record and has seen no hand-off of it. */
  predicate Ready(held: seq<Record>, ref: Ref) {
    exists r :: r in held && r.ref == ref && !r.handoff
  }

  /**
   * A push goes to a target that accepts and does not await its operator. It happens before its deadline, and only when every
   * older record of its listing has left the held state. It goes by the listed copy, which shows no hand-off: the store still
   * holds the record without one exactly when nothing changed the record since it was listed.
   */
  predicate ProperPush(a: Act) {
    a.Pushed? ==>
      && a.i < |a.listing| && a.view == Target(Accepts, false) && !a.listing[a.i].handoff && a.at < a.listing[a.i].deadline
      && (forall j :: 0 <= j < a.i ==> a.listing[j].ref !in Refs(a.held))
      && (Ready(a.held, a.listing[a.i].ref) <==> a.listing[a.i] !in a.stale)
  }

  /** A closing is of unknown outcome exactly when the listed copy shows a hand-off, and lapses only past the deadline. */
  predicate ProperClosing(a: Act) {
    a.Closed? ==> (a.ending == HandoffUnknown <==> a.record.handoff) && (a.ending == Lapse ==> a.record.deadline <= a.at)
  }

  predicate Proper(a: Act) {
    ProperPush(a) && ProperClosing(a)
  }

  /** One push of the ith listed record was added, between two states of the store's past. */
  predicate PushAdded(before: seq<Act>, after: seq<Act>, listing: seq<Record>, i: nat, from: set<Record>, to: set<Record>) {
    && |after| == |before| + 1 && before <= after
    && var a := after[|before|];
       a.Pushed? && a.listing == listing && a.i == i && from <= a.stale <= to
  }

  predicate InTime(a: Act, start: int, end: int) {
    a.Slept? ==> start <= a.at && 0 < a.pause && a.pause == Least(Wanted(a.why), end - a.at)
  }

  function Pause(a: Act): int {
    if a.Slept? then a.pause else 0
  }

  function TotalPause(trace: seq<Act>): int {
    if trace == [] then 0 else TotalPause(trace[..|trace| - 1]) + Pause(trace[|trace| - 1])
  }

  lemma TotalGrows(trace: seq<Act>, a: Act)
    ensures TotalPause(trace + [a]) == TotalPause(trace) + Pause(a)
  {
    assert (trace + [a])[..|trace|] == trace;
  }

  /** The window, once open, with the listing it was start for. */
  datatype Window = Unopened | Window(start: int, end: int)

  /** The window opens at most once, for the listing at hand. */
  ghost predicate KeepsWindow(before: Window, waitingBefore: seq<Record>, after: Window, waitingAfter: seq<Record>, pending: seq<Record>) {
    if before.Window? then after == before && waitingAfter == waitingBefore
    else after.Window? ==> waitingAfter == pending
  }

  /** What is left of the window; more than a whole one while it is unopened. */
  ghost function Remaining(window: Window, now: int): nat {
    if window.Unopened? then WINDOW + 1
    else if window.end <= now then 0
    else if window.end - now <= WINDOW then window.end - now else WINDOW
  }

  predicate WakesBy(a: Act, deadline: int) {
    a.Slept? ==> a.at + a.pause <= deadline
  }

  lemma {:induction false} TotalIsNatural(trace: seq<Act>, start: int, end: int)
    requires forall a :: a in trace ==> InTime(a, start, end)
    ensures 0 <= TotalPause(trace)
  {
    if trace != [] {
      var rest := trace[..|trace| - 1];
      assert forall a :: a in rest ==> a in trace;
      assert trace[|trace| - 1] in trace;
      TotalIsNatural(rest, start, end);
    }
  }

  lemma RefsAppend(records: seq<Record>, r: Record)
    ensures Refs(records + [r]) == Refs(records) + {r.ref}
  {
    assert r in records + [r];
    assert forall x :: x in records ==> x in records + [r];
  }

  // ---- the store, which moves on its own ----

  /** What is held, the references that no longer are, the past versions of changed or settled records, and the clock. */
  datatype Store = Store(held: seq<Record>, gone: set<Ref>, stale: set<Record>, now: int)

  /** What left the held state stays out of it, and only a hand-off changes a record that is still held. */
  ghost predicate Coherent(s: Store, universe: set<Ref>) {
    && Refs(s.held) !! s.gone && Refs(s.held) <= universe
    && (forall r, x :: r in s.stale && x in s.held && r.ref == x.ref ==> x.handoff && !r.handoff)
  }

  /** Every version of a record that the store has or had. */
  ghost function Versions(s: Store): set<Record> {
    (set r | r in s.held) + s.stale
  }

  /** Every version known before is known still, and none leaves the past. */
  ghost predicate Knows(s: Store, t: Store) {
    s.gone <= t.gone && s.stale <= t.stale && Versions(s) <= Versions(t)
  }

  /**
   * What other processes may do between two steps: a record that left the held state never returns to it, and a hand-off is
   * never taken back.
   */
  ghost predicate Shifts(s: Store, t: Store, universe: set<Ref>) {
    Coherent(t, universe) && Knows(s, t) && s.now <= t.now && Refs(s.held) <= Refs(t.held) + t.gone
  }

  /** The store two seconds after a listing, its one record settled or handed off by another process in between. */
  function Overtaken(record: Record, now: int, settled: bool): Store {
    if settled then Store([], {record.ref}, {record}, now + FIRST_WAIT)
    else Store([record.(handoff := true)], {}, {record}, now + FIRST_WAIT)
  }

  /** The stale copy is pushed: the store may settle the record or see its hand-off during a wait, and the judgment still says push. */
  lemma OvertakenCopyIsPushed(record: Record, now: int, settled: bool)
    requires !record.handoff && now + FIRST_WAIT < record.deadline
    ensures var t := Overtaken(record, now, settled);
            && Shifts(Store([record], {}, {}, now), t, {record.ref})
            && Judge(Target(Accepts, false), record, t.now).Push?
            && ProperPush(Pushed([record], 0, t.held, t.stale, Target(Accepts, false), t.now)) && !Ready(t.held, record.ref)
  {
    var s, t := Store([record], {}, {}, now), Overtaken(record, now, settled);
    assert Refs(s.held) == {record.ref};
    assert Refs(t.held) == if settled then {} else {record.ref};
  }

  class Releaser {
    /** The records the store lists as held for this target, oldest first, and the clock; both move on their own. */
    var held: seq<Record>
    var now: int
    var window: Window
    /** Whether the store answers every read and write. */
    const reliable: bool
    /** References that were held and no longer are, and versions of records that the store has since changed or settled. */
    ghost var gone: set<Ref>
    ghost var stale: set<Record>
    /** All that can be held while this release runs. */
    ghost const universe: set<Ref>
    /** The records that were pending when the window opened. */
    ghost var waiting: seq<Record>
    ghost var trace: seq<Act>
    /** How many judgments were made. */
    ghost var judged: nat

    ghost predicate Valid()
      reads this
    {
      StoreValid() && TraceValid()
    }

    ghost function Here(): Store
      reads this`held, this`gone, this`stale, this`now
    {
      Store(held, gone, stale, now)
    }

    ghost predicate StoreValid()
      reads this`held, this`gone, this`stale, this`now
    {
      Coherent(Here(), universe)
    }

    ghost predicate TraceValid()
      reads this`now, this`window, this`waiting, this`trace
    {
      && (forall a :: a in trace ==> Proper(a))
      && match window
         case Unopened => TotalPause(trace) == 0 && forall a :: a in trace ==> !a.Slept?
         case Window(start, end) =>
           && ClosesAt(end, start, waiting) && TotalPause(trace) <= end - start
           && TotalPause(trace) <= now - start && start <= now
           && forall a :: a in trace ==> InTime(a, start, end)
    }

    constructor (listing: seq<Record>, clock: int, answers: bool, ghost refs: set<Ref>)
      requires Refs(listing) <= refs
      ensures Valid() && reliable == answers && held == listing && now == clock && universe == refs && trace == [] && window == Unopened
    {
      held, now, window, reliable := listing, clock, Unopened, answers;
      gone, stale, universe, waiting, trace, judged := {}, {}, refs, [], [], 0;
    }

    ghost predicate Known(r: Record)
      reads this`held, this`gone, this`stale, this`now
    {
      r in Versions(Here())
    }

    twostate predicate KnowsAll()
      reads this`held, this`gone, this`stale, this`now
    {
      Knows(old(Here()), Here())
    }

    /** Other processes hold records, settle them and observe hand-offs here, and time passes. */
    method Interfere()
      requires Valid()
      modifies this`held, this`now, this`gone, this`stale
      ensures Valid() && Shifts(old(Here()), Here(), universe)
    {
    }

    /** The store settles this reference, whatever it was; a refused write leaves it as it was. */
    method Settle(ref: Ref) returns (failed: bool)
      requires Valid()
      modifies this`held, this`gone, this`stale
      ensures Valid() && KnowsAll()
      ensures !failed ==> ref in gone
      ensures reliable ==> !failed
    {
      failed := *;
      if reliable || !failed {
        failed := false;
        WithoutKeeps(held, ref);
        gone := gone + {ref};
        stale := stale + set r | r in held && r.ref == ref;
        held := Without(held, ref);
      }
    }

    /** The listed copy of a record without a hand-off is current exactly when the store still holds it so. */
    lemma ChangedMeansUnready(record: Record)
      requires Valid() && Known(record) && !record.handoff
      ensures Ready(held, record.ref) <==> record !in stale
    {
      if record in held {
        assert Ready(held, record.ref);
      }
    }

    /** The push of the listed copy, as the trace has it. */
    ghost method LogPush(listing: seq<Record>, i: nat, record: Record, view: View)
      requires Valid() && i < |listing| && listing[i] == record
      requires Known(record) && Pushable(view, record, now) && forall j :: 0 <= j < i ==> listing[j].ref in gone
      modifies this`trace
      ensures Valid() && TotalPause(trace) == old(TotalPause(trace))
      ensures trace == old(trace) + [Pushed(listing, i, held, stale, view, now)]
    {
      var a := Pushed(listing, i, held, stale, view, now);
      ChangedMeansUnready(record);
      assert Proper(a);
      TotalGrows(trace, a);
      trace := trace + [a];
    }

    /** The closing of a record, as the trace has it. */
    ghost method LogClosing(record: Record, ending: Ending)
      requires Valid() && ProperClosing(Closed(record, ending, now))
      modifies this`trace
      ensures Valid() && TotalPause(trace) == old(TotalPause(trace))
      ensures trace == old(trace) + [Closed(record, ending, now)]
    {
      TotalGrows(trace, Closed(record, ending, now));
      trace := trace + [Closed(record, ending, now)];
    }

    /** A pause that is over, as the trace has it. */
    ghost method LogSleep(at: int, pause: int, why: Why)
      requires Valid() && window.Window? && window.start <= at && at + pause <= now && TotalPause(trace) <= at - window.start
      requires 0 < pause && pause == Least(Wanted(why), window.end - at)
      modifies this`trace
      ensures Valid()
    {
      var a := Slept(at, pause, why);
      TotalGrows(trace, a);
      assert InTime(a, window.start, window.end) && pause <= window.end - at;
      trace := trace + [a];
    }

    /** Judges one record of the listing once, and settles or pushes it when it can; a busy helper leaves it held. */
    method ReleaseHeldMessage(ghost listing: seq<Record>, ghost i: nat, record: Record, view: View, busy: bool)
      returns (outcome: Outcome, failed: bool, at: int)
      requires Valid() && i < |listing| && listing[i] == record
      requires Known(record) && forall j :: 0 <= j < i ==> listing[j].ref in gone
      modifies this`held, this`now, this`gone, this`stale, this`trace, this`judged
      ensures Valid() && KnowsAll() && old(now) <= at <= now && judged == old(judged) + 1
      ensures outcome == if Pushable(view, record, at) then (if busy then Undecidable else Done)
                         else if Closable(view, record, at) then Done
                         else if view.Target? && view.awaits then Blocked else Undecidable
      ensures outcome.Done? && !failed ==> record.ref in gone
      ensures reliable && !view.Unreadable? ==> !failed
      ensures if Pushable(view, record, at) then PushAdded(old(trace), trace, listing, i, old(stale), stale)
              else if Closable(view, record, at) then Judge(view, record, at).Finish? && trace == old(trace) + [Closed(record, Judge(view, record, at).ending, at)]
              else trace == old(trace)
      ensures TotalPause(trace) == old(TotalPause(trace))
    {
      Interfere();
      at, judged := now, judged + 1;
      var judgment := Judge(view, record, at);
      JudgesExactly(view, record, at);
      if judgment.Wait? {
        return judgment.outcome, view.Unreadable?, at;
      }
      if judgment.Finish? {
        LogClosing(record, judgment.ending);
        failed := Settle(record.ref);
        return Done, failed, at;
      }
      outcome, failed := PushHeldMessage(listing, i, record, view, busy);
    }

    /** Pushes the listed copy and settles the record; a busy helper leaves it held. */
    method PushHeldMessage(ghost listing: seq<Record>, ghost i: nat, record: Record, ghost view: View, busy: bool) returns (outcome: Outcome, failed: bool)
      requires Valid() && i < |listing| && listing[i] == record
      requires Known(record) && Pushable(view, record, now) && forall j :: 0 <= j < i ==> listing[j].ref in gone
      modifies this`held, this`gone, this`stale, this`trace
      ensures Valid() && KnowsAll() && TotalPause(trace) == old(TotalPause(trace))
      ensures outcome == if busy then Undecidable else Done
      ensures outcome.Done? && !failed ==> record.ref in gone
      ensures reliable ==> !failed
      ensures PushAdded(old(trace), trace, listing, i, old(stale), stale)
    {
      LogPush(listing, i, record, view);
      if busy {
        return Undecidable, false;
      }
      failed := Settle(record.ref);
      outcome := Done;
    }

    /** Judges one record until it is finished, pushed, or the window ends. */
    method JudgeHeldMessage(ghost listing: seq<Record>, ghost i: nat, record: Record, pending: seq<Record>)
      returns (outcome: Outcome, failed: bool)
      requires Valid() && i < |listing| && listing[i] == record && pending == listing[i..]
      requires Known(record) && forall j :: 0 <= j < i ==> listing[j].ref in gone
      modifies this
      ensures Valid() && KnowsAll()
      ensures outcome.Done? || outcome.Stop?
      ensures outcome.Done? && !failed ==> record.ref in gone
      ensures reliable && outcome.Done? ==> !failed
      ensures KeepsWindow(old(window), old(waiting), window, waiting, pending)
      ensures outcome.Stop? ==> window.Window? && window.end <= now
      ensures old(judged) < judged
    {
      var backoff := FIRST_WAIT;
      ghost var k := 0;
      var turnEndRecorded := false;
      while true
        invariant Valid() && KnowsAll() && backoff == Backoff(k) && old(judged) <= judged
        invariant KeepsWindow(old(window), old(waiting), window, waiting, pending)
        decreases Remaining(window, now), !turnEndRecorded
      {
        var undecidable;
        outcome, failed, undecidable, turnEndRecorded := JudgeThenWait(listing, i, record, pending, backoff, k, turnEndRecorded);
        if !outcome.Blocked? {
          return;
        }
        if undecidable {
          backoff, k := Least(2 * backoff, MAX_WAIT), k + 1;
        }
      }
    }

    /**
     * One judgment and the wait behind it. Blocked asks for another one: after a wait, or at once when the turn behind an open
     * dialog is found to have ended, which is looked up once a wait.
     */
    method JudgeThenWait(ghost listing: seq<Record>, ghost i: nat, record: Record, pending: seq<Record>, backoff: int, ghost k: nat, turnEndRecorded: bool)
      returns (next: Outcome, failed: bool, undecidable: bool, recorded: bool)
      requires Valid() && i < |listing| && listing[i] == record && pending == listing[i..] && backoff == Backoff(k)
      requires Known(record) && forall j :: 0 <= j < i ==> listing[j].ref in gone
      modifies this
      ensures Valid() && KnowsAll() && !next.Undecidable? && judged == old(judged) + 1
      ensures next.Done? && !failed ==> record.ref in gone
      ensures reliable && next.Done? ==> !failed
      ensures KeepsWindow(old(window), old(waiting), window, waiting, pending)
      ensures next.Stop? ==> window.Window? && window.end <= now
      ensures next.Blocked? ==> Remaining(window, now) <= Remaining(old(window), old(now))
      ensures next.Blocked? && Remaining(window, now) == Remaining(old(window), old(now)) ==> recorded && !turnEndRecorded
    {
      var view: View, busy: bool, at := *, *, 0;
      next, failed, at := ReleaseHeldMessage(listing, i, record, view, busy);
      undecidable, recorded := next.Undecidable?, false;
      if next.Done? {
        return;
      }
      if next.Blocked? {
        var ended: bool := *;
        if !turnEndRecorded && ended {
          recorded := true;
          return;
        }
      }
      var pause := if undecidable then backoff else WATCH_INTERVAL;
      var expiryFailed;
      next, expiryFailed := Await(record, pending, pause, if undecidable then Retrying(k) else Watching);
      failed := if next.Done? then expiryFailed else failed;
    }

    /** Settles the record when its deadline has passed. */
    method SettleIfDue(record: Record) returns (due: bool, failed: bool)
      requires Valid()
      modifies this`held, this`gone, this`stale
      ensures Valid() && KnowsAll() && (due <==> record.deadline <= now)
      ensures due && !failed ==> record.ref in gone
      ensures reliable || !due ==> !failed
    {
      due, failed := record.deadline <= now, false;
      if due {
        failed := Settle(record.ref);
      }
    }

    /** The first wait of a release opens its window. */
    method OpenWindow(pending: seq<Record>)
      requires Valid()
      modifies this`window, this`waiting
      ensures Valid() && window.Window? && KeepsWindow(old(window), old(waiting), window, waiting, pending)
      ensures Remaining(window, now) <= Remaining(old(window), now)
      ensures old(window).Unopened? ==> Remaining(window, now) < Remaining(old(window), now)
    {
      if window.Unopened? {
        var end := HeldReleaseWindowEnd(now, pending);
        window, waiting := Window(now, end), pending;
      }
    }

    /** One wait: Blocked asks for another judgment, Done means the record expired, Stop that the window ended. */
    method Await(record: Record, pending: seq<Record>, want: int, ghost why: Why) returns (next: Outcome, failed: bool)
      requires Valid() && want == Wanted(why)
      modifies this`held, this`now, this`gone, this`stale, this`trace, this`window, this`waiting
      ensures Valid() && KnowsAll() && !next.Undecidable?
      ensures KeepsWindow(old(window), old(waiting), window, waiting, pending)
      ensures next.Done? && !failed ==> record.ref in gone
      ensures reliable ==> !failed
      ensures next.Stop? ==> window.Window? && window.end <= now
      ensures next.Blocked? ==> Remaining(window, now) < Remaining(old(window), old(now))
    {
      Interfere();
      var due;
      due, failed := SettleIfDue(record);
      if due {
        return Done, failed;
      }
      OpenWindow(pending);
      next, failed := SitOut(record, want, why);
    }

    /** A wait in the open window, cut at its end. */
    method SitOut(record: Record, want: int, ghost why: Why) returns (next: Outcome, failed: bool)
      requires Valid() && window.Window? && want == Wanted(why)
      modifies this`held, this`now, this`gone, this`stale, this`trace
      ensures Valid() && KnowsAll() && !next.Undecidable?
      ensures next.Done? && !failed ==> record.ref in gone
      ensures reliable ==> !failed
      ensures next.Stop? ==> window.end <= now
      ensures next.Blocked? ==> Remaining(window, now) < Remaining(window, old(now))
    {
      var pause := Least(want, window.end - now);
      if pause <= 0 {
        return Stop, false;
      }
      Sleep(pause, why);
      var due;
      due, failed := SettleIfDue(record);
      next := if due then Done else if window.end <= now then Stop else Blocked;
    }

    /** A pause inside the open window: the clock advances by at least what was asked. */
    method Sleep(pause: int, ghost why: Why)
      requires Valid() && window.Window? && pause == Least(Wanted(why), window.end - now) && 0 < pause
      modifies this`held, this`now, this`gone, this`stale, this`trace
      ensures Valid() && KnowsAll() && old(now) + pause <= now
    {
      ghost var at := now;
      var slept: int := *;
      now := now + if pause <= slept then slept else pause;
      LogSleep(at, pause, why);
      Interfere();
    }

    /** One pass over one listing: every record not attempted before is judged, until one does not finish. */
    method ReleasePass(listing: seq<Record>, before: set<Ref>) returns (outcome: Outcome, failed: bool, attempted: set<Ref>, progressed: bool)
      requires Valid() && Refs(listing) !! before && before <= gone && forall r :: r in listing ==> Known(r)
      modifies this
      ensures Valid() && KnowsAll() && (outcome.Done? || outcome.Stop?)
      ensures outcome.Done? && !failed ==> attempted == before + Refs(listing) && attempted <= gone
      ensures outcome.Done? && !failed ==> (progressed <==> listing != [])
      ensures listing == [] ==> outcome.Done? && !failed && held == old(held)
      ensures outcome.Stop? ==> window.Window? && window.end <= now
      ensures reliable && outcome.Done? ==> !failed
    {
      attempted, outcome, failed, progressed := before, Done, false, false;
      for i := 0 to |listing|
        invariant Valid() && KnowsAll() && outcome.Done? && !failed && forall r :: r in listing ==> Known(r)
        invariant attempted == before + Refs(listing[..i]) && attempted <= gone
        invariant (progressed <==> i > 0) && (i == 0 ==> held == old(held))
      {
        var record := listing[i];
        RefsAppend(listing[..i], record);
        assert listing[..i + 1] == listing[..i] + [record];
        if record.ref in attempted {
          continue;
        }
        attempted := attempted + {record.ref};
        progressed := true;
        assert forall j :: 0 <= j < i ==> listing[j] in listing[..i];
        outcome, failed := JudgeHeldMessage(listing, i, record, listing[i..]);
        if failed || !outcome.Done? {
          return;
        }
      }
      assert listing[..|listing|] == listing;
    }

    /** Lists, drains the listing, and lists again under the same lock until nothing new is found. */
    method Drain() returns (result: Result, handOff: bool, listed: set<Ref>)
      requires Valid()
      modifies this
      ensures Valid()
      ensures result.Quiet? ==> held == [] && listed <= gone && !handOff
      ensures result.Ended? && handOff ==> exists r :: r in held && r.ref !in listed
      ensures result.Ended? && !handOff && result.relisted ==> Refs(held) <= listed
      ensures result.Ended? ==> window.Window? && window.end <= now
      ensures reliable ==> !result.Broken? && (result.Ended? ==> result.relisted)
    {
      listed, handOff := {}, false;
      var attempted: set<Ref> := {};
      while true
        invariant Valid() && attempted == listed && listed <= gone && listed <= universe && !handOff
        decreases universe - attempted
      {
        Interfere();
        var unreadable: bool := *;
        if unreadable && !reliable {
          return Broken, false, listed;
        }
        var listing := held;
        listed := listed + Refs(listing);
        assert listing != [] ==> listing[0].ref in Refs(listing);
        var outcome, failed, progressed;
        outcome, failed, attempted, progressed := ReleasePass(listing, attempted);
        if outcome.Stop? {
          var relisted;
          relisted, handOff := HeldSinceListed(listed);
          return Ended(failed, relisted), handOff, listed;
        }
        if failed {
          return Broken, false, listed;
        }
        if !progressed {
          return Quiet, false, listed;
        }
      }
    }

    /** Delivers the messages held for the target, oldest first, under the target's exclusive release lock. */
    method ReleaseHeldMessages() returns (result: Result, handOff: bool, listed: set<Ref>)
      requires Valid() && window.Unopened? && trace == []
      modifies this
      ensures forall a :: a in trace ==> Proper(a)
      ensures 0 <= TotalPause(trace) <= 600 * SECOND
      ensures window.Window? ==> forall a, r :: a in trace && r in waiting && window.start < r.deadline ==> WakesBy(a, r.deadline)
      ensures result.Quiet? ==> held == [] && listed <= gone && !handOff
      ensures result.Ended? && handOff ==> exists r :: r in held && r.ref !in listed
      ensures result.Ended? && !handOff && result.relisted ==> Refs(held) <= listed
      ensures result.Ended? ==> window.Window? && window.end <= now
      ensures reliable ==> !result.Broken? && (result.Ended? ==> result.relisted)
    {
      result, handOff, listed := Drain();
      if window.Window? {
        TotalIsNatural(trace, window.start, window.end);
      }
    }

    /** Lists once more under the lock; an unreadable store hands nothing off. */
    method HeldSinceListed(listed: set<Ref>) returns (readable: bool, handOff: bool)
      requires Valid()
      modifies this`held, this`now, this`gone, this`stale
      ensures Valid() && KnowsAll() && old(now) <= now
      ensures readable ==> (handOff <==> exists r :: r in held && r.ref !in listed)
      ensures !readable ==> !handOff && !reliable
    {
      Interfere();
      readable := *;
      if !readable && !reliable {
        return false, false;
      }
      readable := true;
      handOff := false;
      for i := 0 to |held|
        invariant Valid() && !handOff && forall r :: r in held[..i] ==> r.ref in listed
      {
        if held[i].ref !in listed {
          return true, true;
        }
        assert held[..i + 1] == held[..i] + [held[i]];
      }
      assert held[..|held|] == held;
    }
  }

  lemma WithoutKeeps(records: seq<Record>, ref: Ref)
    ensures forall r :: r in Without(records, ref) <==> r in records && r.ref != ref
  {
    if records != [] {
      var n := |records| - 1;
      WithoutKeeps(records[..n], ref);
      assert records == records[..n] + [records[n]];
    }
  }

  function Without(records: seq<Record>, ref: Ref): (rest: seq<Record>)
    ensures Refs(rest) == Refs(records) - {ref}
  {
    if records == [] then []
    else
      var n := |records| - 1;
      RefsAppend(records[..n], records[n]);
      RefsAppend(Without(records[..n], ref), records[n]);
      assert records == records[..n] + [records[n]];
      if records[n].ref == ref then Without(records[..n], ref) else Without(records[..n], ref) + [records[n]]
  }
}
