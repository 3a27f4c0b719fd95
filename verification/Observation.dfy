/** The observation reader: one frozen tool item, its released result, and a latch on the first refusal. */
module Observation {
  import opened Options

  const MAX_FRAMES := 128
  const MAX_TOTAL := 8 * 1024 * 1024
  const MAX_ITEMS := 32
  const CLI_VERSION := "0.153.2"

  datatype Item = Item(
    kind: string, id: string, source: Option<string>, command: string, cwd: string, plugin: bool,
    status: string, exitCode: Option<int>, output: Option<string>, textOnly: bool)

  datatype Turn = Turn(id: string, status: string, itemsView: Option<string>, items: seq<Item>, error: bool)

  datatype Snapshot = Snapshot(threadID: string, cwd: string, cliVersion: string, derived: bool, turns: seq<Turn>)

  /** One decoded, schema-valid frame; Unreadable stands for every decoding, envelope or schema refusal. */
  datatype Frame =
    | Unreadable
    | Response(id: int, snapshot: Snapshot)
    | Notification(name: string, threadID: string, turnID: string, item: Item, at: int)

  /** `read` decodes one closed result; `named` is the identifier form; `size` is an encoded length. */
  datatype Policy = Policy(
    threadID: string, turnID: string, command: string, cwd: string, sources: set<string>,
    read: string -> Option<string>, named: string -> bool, size: string -> nat)

  datatype Frozen = Frozen(itemID: string, source: string)

  datatype State = State(
    frozen: Option<Frozen>, startedAt: Option<int>, completedAt: Option<int>, expected: Option<string>,
    completed: bool, turnCompleted: bool, invalid: bool, frames: nat, total: nat)

  const Fresh := State(None, None, None, None, false, false, false, 0, 0)

  datatype Facts = Facts(frozen: Frozen, toolCompleted: bool, turnCompleted: bool)

  /** The state after a check, which a refusal may already have moved. */
  datatype Step = Step(state: State, ok: bool)

  predicate Silent(item: Item) {
    item.exitCode.None? && (item.output.None? || item.output == Some(""))
  }

  predicate Selected(p: Policy, item: Item) {
    && item.kind == "commandExecution" && item.source.Some? && item.source.value in p.sources
    && item.command == p.command && item.cwd == p.cwd && !item.plugin && p.named(item.id)
  }

  /** The released result, read from the output of a tool that exited with zero. */
  predicate Released(p: Policy, expected: Option<string>, item: Item) {
    && expected.Some? && item.exitCode == Some(0) && item.output.Some?
    && p.size(item.output.value) <= 4096 && p.read(item.output.value) == expected
  }

  function Command(p: Policy, s: State, item: Item, freeze: bool): Step {
    if !Selected(p, item) then Step(s, false)
    else if freeze && !(s.frozen.None? && item.status == "inProgress" && Silent(item)) then Step(s, false)
    else if !freeze && s.frozen != Some(Frozen(item.id, item.source.value)) then Step(s, false)
    else
      var t := s.(frozen := Some(Frozen(item.id, item.source.value)));
      if item.status == "completed" then (if Released(p, t.expected, item) then Step(t.(completed := true), true) else Step(t, false))
      else Step(t, item.status == "inProgress" && !t.completed && Silent(item))
  }

  predicate Distinct(items: seq<Item>) {
    forall i, j :: 0 <= i < j < |items| ==> items[i].id != items[j].id
  }

  function OfKind(items: seq<Item>, kind: string): seq<Item> {
    if items == [] then []
    else OfKind(items[..|items| - 1], kind) + if items[|items| - 1].kind == kind then [items[|items| - 1]] else []
  }

  predicate Harmless(p: Policy, item: Item) {
    && p.named(item.id)
    && item.kind in ["commandExecution", "userMessage", "agentMessage", "reasoning", "plan"]
    && (item.kind == "userMessage" ==> item.textOnly)
  }

  /** Exactly one harmless turn with one user message and one command. */
  predicate WholeTurn(p: Policy, snap: Snapshot) {
    && snap.threadID == p.threadID && snap.cwd == p.cwd && snap.cliVersion == CLI_VERSION && !snap.derived
    && |snap.turns| == 1
    && var turn := snap.turns[0];
    && turn.id == p.turnID && turn.status in ["inProgress", "completed"] && turn.itemsView == Some("full")
    && |turn.items| <= MAX_ITEMS && Distinct(turn.items) && (forall item :: item in turn.items ==> Harmless(p, item))
    && |OfKind(turn.items, "userMessage")| == 1 && |OfKind(turn.items, "commandExecution")| == 1
  }

  function ReadSnapshot(p: Policy, s: State, snap: Snapshot, freeze: bool): Step {
    if !WholeTurn(p, snap) then Step(s, false)
    else
      var turn := snap.turns[0];
      var step := Command(p, s, OfKind(turn.items, "commandExecution")[0], freeze);
      if !step.ok || turn.status != "completed" then step
      else if !step.state.completed || turn.error then Step(step.state, false)
      else Step(step.state.(turnCompleted := true), true)
  }

  function ReadNotification(p: Policy, s: State, n: Frame, freeze: bool): Step
    requires n.Notification?
  {
    if n.threadID != p.threadID || n.turnID != p.turnID || n.item.kind != "commandExecution" then Step(s, false)
    else if n.name == "item/started" then
      if s.startedAt.Some? || n.item.status != "inProgress" then Step(s, false)
      else
        var step := Command(p, s, n.item, freeze);
        if !step.ok then step else Step(step.state.(startedAt := Some(n.at)), true)
    else if n.name == "item/completed" then
      if freeze || s.completedAt.Some? || n.item.status != "completed" then Step(s, false)
      else
        var step := Command(p, s, n.item, false);
        if !step.ok then step
        else
          var t := step.state.(completedAt := Some(n.at));
          Step(t, t.startedAt.None? || t.startedAt.value <= n.at)
    else Step(s, false)
  }

  function Read(p: Policy, s: State, frame: Frame, requestID: Option<int>, freeze: bool): Step {
    match frame
    case Unreadable => Step(s, false)
    case Notification(_, _, _, _, _) => ReadNotification(p, s, frame, freeze)
    case Response(id, snapshot) => if requestID != Some(id) then Step(s, false) else ReadSnapshot(p, s, snapshot, freeze)
  }

  /** What one arriving frame does; a refusal latches. */
  function Accept(p: Policy, s: State, size: nat, frame: Frame, requestID: Option<int>, freeze: bool): Step {
    if s.invalid then Step(s, false) else Latched(ReadInBounds(p, Counted(s, size), frame, requestID, freeze))
  }

  function Counted(s: State, size: nat): State {
    s.(frames := s.frames + 1, total := s.total + size)
  }

  function ReadInBounds(p: Policy, s: State, frame: Frame, requestID: Option<int>, freeze: bool): Step {
    if s.frames > MAX_FRAMES || s.total > MAX_TOTAL then Step(s, false) else Read(p, s, frame, requestID, freeze)
  }

  function Latched(step: Step): Step {
    if step.ok && step.state.frozen.Some? then step else Step(step.state.(invalid := true), false)
  }

  /** The result to release is set once, after the freeze. */
  function SetExpected(p: Policy, s: State, result: string): Step {
    if s.frozen.None? || s.invalid || s.expected.Some? || p.read(result).None? then Step(s, false)
    else Step(s.(expected := p.read(result)), true)
  }

  function FactsOf(s: State): Facts
    requires s.frozen.Some?
  {
    Facts(s.frozen.value, s.completed, s.turnCompleted)
  }

  // ---- runs ----

  datatype Event = Arrive(size: nat, frame: Frame, requestID: Option<int>, freeze: bool) | Release(result: string)

  function Next(p: Policy, s: State, e: Event): Step {
    match e
    case Arrive(size, frame, requestID, freeze) => Accept(p, s, size, frame, requestID, freeze)
    case Release(result) => SetExpected(p, s, result)
  }

  function After(p: Policy, s: State, run: seq<Event>): State
    decreases |run|
  {
    if run == [] then s else After(p, Next(p, s, run[0]).state, run[1..])
  }

  ghost predicate Inv(s: State) {
    && (s.turnCompleted ==> s.completed)
    && (s.completed ==> s.expected.Some?)
    && (s.expected.Some? ==> s.frozen.Some?)
  }

  /** Nothing that was once observed is taken back. */
  ghost predicate Later(s: State, t: State) {
    && (s.frozen.Some? ==> t.frozen == s.frozen)
    && (s.expected.Some? ==> t.expected == s.expected)
    && (s.startedAt.Some? ==> t.startedAt == s.startedAt)
    && (s.completedAt.Some? ==> t.completedAt == s.completedAt)
    && (s.completed ==> t.completed) && (s.turnCompleted ==> t.turnCompleted) && (s.invalid ==> t == s)
  }

  lemma CommandIsLater(p: Policy, s: State, item: Item, freeze: bool)
    requires Inv(s)
    ensures var t := Command(p, s, item, freeze).state; Inv(t) && (s.invalid || Later(s, t))
    ensures Command(p, s, item, freeze).ok ==> Command(p, s, item, freeze).state.frozen.Some?
  {
  }

  lemma NotificationIsLater(p: Policy, s: State, n: Frame, freeze: bool)
    requires Inv(s) && !s.invalid && n.Notification?
    ensures var t := ReadNotification(p, s, n, freeze).state; Inv(t) && Later(s, t)
  {
    CommandIsLater(p, s, n.item, freeze);
    CommandIsLater(p, s, n.item, false);
  }

  lemma SnapshotIsLater(p: Policy, s: State, snap: Snapshot, freeze: bool)
    requires Inv(s) && !s.invalid
    ensures var t := ReadSnapshot(p, s, snap, freeze).state; Inv(t) && Later(s, t)
  {
    if WholeTurn(p, snap) {
      CommandIsLater(p, s, OfKind(snap.turns[0].items, "commandExecution")[0], freeze);
    }
  }

  lemma ReadIsLater(p: Policy, s: State, frame: Frame, requestID: Option<int>, freeze: bool)
    requires Inv(s) && !s.invalid
    ensures var t := Read(p, s, frame, requestID, freeze).state; Inv(t) && Later(s, t)
  {
    if frame.Notification? {
      NotificationIsLater(p, s, frame, freeze);
    } else if frame.Response? {
      SnapshotIsLater(p, s, frame.snapshot, freeze);
    }
  }

  lemma AcceptIsLater(p: Policy, s: State, size: nat, frame: Frame, requestID: Option<int>, freeze: bool)
    requires Inv(s)
    ensures var t := Accept(p, s, size, frame, requestID, freeze).state; Inv(t) && Later(s, t)
  {
    if !s.invalid {
      ReadIsLater(p, Counted(s, size), frame, requestID, freeze);
      LatchedIsLater(s, Counted(s, size), ReadInBounds(p, Counted(s, size), frame, requestID, freeze));
    }
  }

  lemma LatchedIsLater(s: State, t: State, step: Step)
    requires t == s.(frames := t.frames, total := t.total) && Inv(step.state) && Later(t, step.state) && !s.invalid
    ensures Inv(Latched(step).state) && Later(s, Latched(step).state)
  {
  }

  /** Over every run the frozen item and the released result never change, completion is never taken back, and a refusal is final. */
  lemma {:induction false} RunIsLater(p: Policy, s: State, run: seq<Event>)
    requires Inv(s)
    ensures Inv(After(p, s, run)) && Later(s, After(p, s, run))
    decreases |run|
  {
    if run != [] {
      var e := run[0];
      if e.Arrive? {
        AcceptIsLater(p, s, e.size, e.frame, e.requestID, e.freeze);
      }
      RunIsLater(p, Next(p, s, e).state, run[1..]);
    }
  }

  /** Whenever facts are returned, every earlier fact of the run still holds and completion has a released result behind it. */
  lemma FactsAreStable(p: Policy, run: seq<Event>, more: seq<Event>, e: Event)
    requires e.Arrive? && Next(p, After(p, After(p, Fresh, run), more), e).ok && After(p, Fresh, run).frozen.Some?
    ensures var before, after := After(p, Fresh, run), Next(p, After(p, After(p, Fresh, run), more), e).state;
            && after.frozen == before.frozen && !before.invalid
            && (before.completed ==> after.completed) && (before.turnCompleted ==> after.turnCompleted)
            && (after.turnCompleted ==> after.completed) && (after.completed ==> after.expected.Some?)
  {
    var before := After(p, Fresh, run);
    RunIsLater(p, Fresh, run);
    RunIsLater(p, before, more);
    AcceptIsLater(p, After(p, before, more), e.size, e.frame, e.requestID, e.freeze);
  }

  // ---- exactly which frames count, on the fields of what arrives ----

  /** The item is the one command that the policy allows: kind, source, command line, directory and identifier, and no plugin. */
  predicate Allowed(p: Policy, item: Item) {
    && item.kind == "commandExecution" && item.source != None && item.source.value in p.sources
    && item.command == p.command && item.cwd == p.cwd && !item.plugin && p.named(item.id)
  }

  /** The item has no result yet. */
  predicate NoResult(item: Item) {
    item.exitCode == None && item.output in {None, Some("")}
  }

  /** The item delivers this released result: it exited with zero and its bounded output reads as the result. */
  predicate Delivers(p: Policy, expected: Option<string>, item: Item) {
    && expected != None && item.exitCode == Some(0) && item.output != None
    && p.size(item.output.value) <= 4096 && p.read(item.output.value) == expected
  }

  /** The tool counts as completed exactly when its frozen item delivers the released result. */
  lemma CompletesExactlyWhen(p: Policy, s: State, item: Item, freeze: bool)
    requires Inv(s) && !s.completed
    ensures Command(p, s, item, freeze).state.completed <==>
            && !freeze && Allowed(p, item) && item.status == "completed"
            && s.frozen == Some(Frozen(item.id, item.source.value)) && Delivers(p, s.expected, item)
  {
  }

  /** An item freezes exactly when a freeze is asked for, none is frozen, and it is the allowed command, running without a result. */
  lemma FreezesExactlyWhen(p: Policy, s: State, item: Item, freeze: bool)
    requires s.frozen == None
    ensures var step := Command(p, s, item, freeze);
            && (step.state.frozen != None <==> freeze && Allowed(p, item) && item.status == "inProgress" && NoResult(item))
            && (step.state.frozen != None ==> step.state.frozen == Some(Frozen(item.id, item.source.value)))
  {
  }

  /** A command item is taken exactly as a freeze, as progress of the frozen item, or as its completion; it moves nothing else. */
  lemma CommandTakenExactlyWhen(p: Policy, s: State, item: Item, freeze: bool)
    ensures var step := Command(p, s, item, freeze);
            && (step.ok <==>
                  && Allowed(p, item)
                  && (if freeze then s.frozen == None else s.frozen == Some(Frozen(item.id, item.source.value)))
                  && ((item.status == "inProgress" && NoResult(item) && !s.completed)
                      || (!freeze && item.status == "completed" && Delivers(p, s.expected, item))))
            && step.state == s.(frozen := step.state.frozen, completed := step.state.completed)
            && (step.ok ==> step.state.completed == (s.completed || item.status == "completed"))
  {
  }

  /** Item i and no other is of this kind. */
  predicate OnlyAt(items: seq<Item>, kind: string, i: nat) {
    i < |items| && items[i].kind == kind && forall j :: 0 <= j < |items| && j != i ==> items[j].kind != kind
  }

  ghost predicate One(items: seq<Item>, kind: string) {
    exists i :: OnlyAt(items, kind, i)
  }

  ghost predicate NoneOf(items: seq<Item>, kind: string) {
    forall j :: 0 <= j < |items| ==> items[j].kind != kind
  }

  lemma {:induction false} CountsKind(items: seq<Item>, kind: string)
    ensures |OfKind(items, kind)| == 0 <==> NoneOf(items, kind)
    ensures |OfKind(items, kind)| == 1 <==> One(items, kind)
    ensures |OfKind(items, kind)| == 1 ==> OfKind(items, kind)[0] in items && OfKind(items, kind)[0].kind == kind
  {
    if items != [] {
      var n := |items| - 1;
      CountsKind(items[..n], kind);
      assert items == items[..n] + [items[n]];
      if items[n].kind == kind {
        LastOfKind(items, kind);
      } else {
        LastOfOther(items, kind);
      }
    }
  }

  lemma LastOfKind(items: seq<Item>, kind: string)
    requires items != [] && items[|items| - 1].kind == kind
    ensures !NoneOf(items, kind) && (One(items, kind) <==> NoneOf(items[..|items| - 1], kind))
  {
    var n := |items| - 1;
    assert forall j :: 0 <= j < n ==> items[j] == items[..n][j];
    if NoneOf(items[..n], kind) {
      assert OnlyAt(items, kind, n);
    }
  }

  lemma LastOfOther(items: seq<Item>, kind: string)
    requires items != [] && items[|items| - 1].kind != kind
    ensures (NoneOf(items, kind) <==> NoneOf(items[..|items| - 1], kind)) && (One(items, kind) <==> One(items[..|items| - 1], kind))
  {
    var n, init := |items| - 1, items[..|items| - 1];
    assert forall j :: 0 <= j < n ==> items[j] == init[j];
    if i :| OnlyAt(items, kind, i) {
      assert OnlyAt(init, kind, i);
    }
    if i :| OnlyAt(init, kind, i) {
      assert OnlyAt(items, kind, i);
    }
  }

  /** The snapshot shows the one allowed turn of the one thread, in full, with one text prompt and one command among harmless items. */
  ghost predicate ShowsTurn(p: Policy, snap: Snapshot) {
    && snap.threadID == p.threadID && snap.cwd == p.cwd && snap.cliVersion == "0.153.2" && !snap.derived && |snap.turns| == 1
    && var turn := snap.turns[0];
    && turn.id == p.turnID && turn.status in {"inProgress", "completed"} && turn.itemsView == Some("full") && |turn.items| <= 32
    && (forall i, j :: 0 <= i < j < |turn.items| ==> turn.items[i].id != turn.items[j].id)
    && (forall item :: item in turn.items ==>
          && p.named(item.id) && (item.kind == "userMessage" ==> item.textOnly)
          && item.kind in {"commandExecution", "userMessage", "agentMessage", "reasoning", "plan"})
    && One(turn.items, "userMessage") && One(turn.items, "commandExecution")
  }

  lemma WholeIsShown(p: Policy, snap: Snapshot)
    ensures WholeTurn(p, snap) <==> ShowsTurn(p, snap)
  {
    if |snap.turns| == 1 {
      CountsKind(snap.turns[0].items, "userMessage");
      CountsKind(snap.turns[0].items, "commandExecution");
    }
  }

  /** A snapshot counts exactly when it shows the turn, its command is taken, and a completed turn comes without error behind its completed tool. */
  lemma SnapshotTakenExactlyWhen(p: Policy, s: State, snap: Snapshot, freeze: bool)
    requires Inv(s)
    ensures var step := ReadSnapshot(p, s, snap, freeze);
            && (step.ok <==>
                  && ShowsTurn(p, snap)
                  && exists item :: item in snap.turns[0].items && item.kind == "commandExecution" && Command(p, s, item, freeze).ok
                       && (snap.turns[0].status == "completed" ==> !snap.turns[0].error && Command(p, s, item, freeze).state.completed))
            && (step.ok ==> step.state.turnCompleted == (s.turnCompleted || snap.turns[0].status == "completed"))
  {
    WholeIsShown(p, snap);
    if ShowsTurn(p, snap) {
      var items := snap.turns[0].items;
      CountsKind(items, "commandExecution");
      var item := OfKind(items, "commandExecution")[0];
      assert forall other :: other in items && other.kind == "commandExecution" ==> other == item;
    }
  }

  /** A notification counts exactly as the first start, while nothing has a result, or the first completion, not before the start. */
  lemma NotificationTakenExactlyWhen(p: Policy, s: State, n: Frame, freeze: bool)
    requires n.Notification?
    ensures var step := ReadNotification(p, s, n, freeze);
            && (step.ok <==>
                  && n.threadID == p.threadID && n.turnID == p.turnID && n.item.kind == "commandExecution" && Command(p, s, n.item, freeze).ok
                  && ((n.name == "item/started" && s.startedAt == None && n.item.status == "inProgress")
                      || (n.name == "item/completed" && !freeze && s.completedAt == None && n.item.status == "completed"
                          && (s.startedAt != None ==> s.startedAt.value <= n.at))))
            && (step.ok ==>
                  && step.state.startedAt == (if n.name == "item/started" then Some(n.at) else s.startedAt)
                  && step.state.completedAt == (if n.name == "item/completed" then Some(n.at) else s.completedAt)
                  && step.state.turnCompleted == s.turnCompleted)
  {
    assert "item/started" != "item/completed" by {
      assert "item/started"[5] != "item/completed"[5];
    }
    CommandTakenExactlyWhen(p, s, n.item, freeze);
  }

  /** A frame yields facts exactly when nothing was refused before, the budgets hold, it counts as what it is, and an item is frozen. */
  lemma FrameTakenExactlyWhen(p: Policy, s: State, size: nat, frame: Frame, requestID: Option<int>, freeze: bool)
    ensures var step := Accept(p, s, size, frame, requestID, freeze);
            var c := s.(frames := s.frames + 1, total := s.total + size);
            && (step.ok <==>
                  && !s.invalid && s.frames < 128 && s.total + size <= 8388608
                  && match frame
                     case Unreadable => false
                     case Response(id, snap) => requestID == Some(id) && ReadSnapshot(p, c, snap, freeze).ok && step.state.frozen != None
                     case Notification(_, _, _, _, _) => ReadNotification(p, c, frame, freeze).ok && step.state.frozen != None)
            && (!step.ok ==> step.state.invalid)
  {
  }

  /** The expected result is taken exactly once, after the freeze and before any refusal, and only in its closed form. */
  lemma ResultTakenExactlyWhen(p: Policy, s: State, result: string)
    ensures var step := SetExpected(p, s, result);
            && (step.ok <==> s.frozen != None && !s.invalid && s.expected == None && p.read(result) != None)
            && step.state == (if step.ok then s.(expected := p.read(result)) else s)
  {
  }

  // ---- the reader itself ----

  class ObservationReader {
    const policy: Policy
    var frozen: Option<Frozen>
    var startedAt: Option<int>
    var completedAt: Option<int>
    var expected: Option<string>
    var completed: bool
    var turnCompleted: bool
    var invalid: bool
    var frames: nat
    var total: nat

    function Value(): State
      reads this
    {
      State(frozen, startedAt, completedAt, expected, completed, turnCompleted, invalid, frames, total)
    }

    constructor (p: Policy)
      ensures policy == p && Value() == Fresh
    {
      policy := p;
      frozen, startedAt, completedAt, expected := None, None, None, None;
      completed, turnCompleted, invalid, frames, total := false, false, false, 0, 0;
    }

    method CheckCommand(item: Item, freeze: bool) returns (ok: bool)
      modifies this
      ensures Step(Value(), ok) == Command(policy, old(Value()), item, freeze)
    {
      if !Selected(policy, item) {
        return false;
      }
      if freeze {
        if frozen.Some? || item.status != "inProgress" || !Silent(item) {
          return false;
        }
        frozen := Some(Frozen(item.id, item.source.value));
      } else if frozen != Some(Frozen(item.id, item.source.value)) {
        return false;
      }
      if item.status == "completed" {
        if !Released(policy, expected, item) {
          return false;
        }
        completed := true;
        return true;
      }
      ok := item.status == "inProgress" && !completed && Silent(item);
    }

    method CheckSnapshot(snap: Snapshot, freeze: bool) returns (ok: bool)
      modifies this
      ensures Step(Value(), ok) == ReadSnapshot(policy, old(Value()), snap, freeze)
    {
      var whole, commands := ScanTurn(snap);
      if !whole {
        return false;
      }
      var turn := snap.turns[0];
      ok := CheckCommand(commands[0], freeze);
      if !ok || turn.status != "completed" {
        return;
      }
      if !completed || turn.error {
        return false;
      }
      turnCompleted := true;
    }

    /** One pass over the turn's items, collecting the commands and the identifiers seen. */
    method ScanTurn(snap: Snapshot) returns (whole: bool, commands: seq<Item>)
      ensures whole <==> WholeTurn(policy, snap)
      ensures whole ==> commands == OfKind(snap.turns[0].items, "commandExecution")
    {
      commands := [];
      if snap.threadID != policy.threadID || snap.cwd != policy.cwd || snap.cliVersion != CLI_VERSION || snap.derived || |snap.turns| != 1 {
        return false, commands;
      }
      var turn := snap.turns[0];
      if turn.id != policy.turnID || turn.status !in ["inProgress", "completed"] || turn.itemsView != Some("full") || |turn.items| > MAX_ITEMS {
        return false, commands;
      }
      var harmless, users;
      harmless, users, commands := ScanItems(turn.items);
      whole := harmless && users == 1 && |commands| == 1;
    }

    /** The items must be harmless and distinct; their users are counted and their commands collected. */
    method ScanItems(items: seq<Item>) returns (harmless: bool, users: nat, commands: seq<Item>)
      ensures harmless <==> Distinct(items) && forall item :: item in items ==> Harmless(policy, item)
      ensures harmless ==> users == |OfKind(items, "userMessage")| && commands == OfKind(items, "commandExecution")
    {
      var ids: set<string> := {};
      users, commands := 0, [];
      for i := 0 to |items|
        invariant Passed(policy, items[..i], ids)
        invariant commands == OfKind(items[..i], "commandExecution") && users == |OfKind(items[..i], "userMessage")|
      {
        var item := items[i];
        assert items[..i + 1] == items[..i] + [item];
        if !Harmless(policy, item) || item.id in ids {
          NotHarmless(policy, items, i, ids);
          return false, users, commands;
        }
        PassedGrows(policy, items[..i], item, ids);
        OfKindGrows(items[..i], item, "commandExecution");
        OfKindGrows(items[..i], item, "userMessage");
        ids := ids + {item.id};
        if item.kind == "commandExecution" {
          commands := commands + [item];
        } else if item.kind == "userMessage" {
          users := users + 1;
        }
      }
      assert items[..|items|] == items;
      harmless := true;
    }

    method CheckNotification(n: Frame, freeze: bool) returns (ok: bool)
      requires n.Notification?
      modifies this
      ensures Step(Value(), ok) == ReadNotification(policy, old(Value()), n, freeze)
    {
      if n.threadID != policy.threadID || n.turnID != policy.turnID || n.item.kind != "commandExecution" {
        return false;
      }
      if n.name == "item/started" {
        if startedAt.Some? || n.item.status != "inProgress" {
          return false;
        }
        ok := CheckCommand(n.item, freeze);
        if ok {
          startedAt := Some(n.at);
        }
        return;
      }
      if n.name != "item/completed" || freeze || completedAt.Some? || n.item.status != "completed" {
        return false;
      }
      ok := CheckCommand(n.item, false);
      if ok {
        completedAt := Some(n.at);
        ok := startedAt.None? || startedAt.value <= n.at;
      }
    }

    method ReadFrame(frame: Frame, requestID: Option<int>, freeze: bool) returns (ok: bool)
      modifies this
      ensures Step(Value(), ok) == Read(policy, old(Value()), frame, requestID, freeze)
    {
      ok := false;
      if frame.Notification? {
        ok := CheckNotification(frame, freeze);
      } else if frame.Response? && requestID == Some(frame.id) {
        ok := CheckSnapshot(frame.snapshot, freeze);
      }
    }

    /** One arriving frame: the facts so far, or a refusal that is final. */
    method AcceptFrame(size: nat, frame: Frame, requestID: Option<int>, freeze: bool) returns (facts: Option<Facts>)
      modifies this
      ensures Step(Value(), facts.Some?) == Accept(policy, old(Value()), size, frame, requestID, freeze)
      ensures facts.Some? ==> frozen.Some? && facts.value == FactsOf(Value())
      ensures facts.None? ==> invalid
    {
      if invalid {
        return None;
      }
      frames, total := frames + 1, total + size;
      assert Value() == Counted(old(Value()), size);
      var ok := ReadWithin(frame, requestID, freeze);
      facts := Latch(ok);
    }

    /** The facts of an accepted frame, or the closed latch. */
    method Latch(ok: bool) returns (facts: Option<Facts>)
      modifies this
      ensures Step(Value(), facts.Some?) == Latched(Step(old(Value()), ok))
      ensures facts.Some? ==> frozen.Some? && facts.value == FactsOf(Value()) && invalid == old(invalid)
      ensures facts.None? ==> invalid
    {
      if !ok || frozen.None? {
        invalid := true;
        return None;
      }
      facts := Some(FactsOf(Value()));
    }

    method ReadWithin(frame: Frame, requestID: Option<int>, freeze: bool) returns (ok: bool)
      modifies this
      ensures Step(Value(), ok) == ReadInBounds(policy, old(Value()), frame, requestID, freeze)
    {
      ok := false;
      if frames <= MAX_FRAMES && total <= MAX_TOTAL {
        ok := ReadFrame(frame, requestID, freeze);
      }
    }

    method SetExpectedResult(result: string) returns (ok: bool)
      modifies this
      ensures Step(Value(), ok) == SetExpected(policy, old(Value()), result)
    {
      if frozen.None? || invalid || expected.Some? || policy.read(result).None? {
        return false;
      }
      expected := policy.read(result);
      ok := true;
    }
  }

  /** The items seen so far are harmless and distinct, and these are their identifiers. */
  ghost predicate Passed(p: Policy, items: seq<Item>, ids: set<string>) {
    && (forall item :: item in items ==> Harmless(p, item) && item.id in ids)
    && (forall id :: id in ids ==> exists item :: item in items && item.id == id)
    && Distinct(items)
  }

  lemma PassedGrows(p: Policy, items: seq<Item>, item: Item, ids: set<string>)
    requires Passed(p, items, ids) && Harmless(p, item) && item.id !in ids
    ensures Passed(p, items + [item], ids + {item.id})
  {
    forall id | id in ids + {item.id}
      ensures exists x :: x in items + [item] && x.id == id
    {
      if id == item.id {
        assert item in items + [item];
      } else {
        var x :| x in items && x.id == id;
        assert x in items + [item];
      }
    }
  }

  lemma OfKindGrows(items: seq<Item>, item: Item, kind: string)
    ensures OfKind(items + [item], kind) == OfKind(items, kind) + if item.kind == kind then [item] else []
  {
    assert (items + [item])[..|items|] == items;
  }

  lemma NotHarmless(p: Policy, items: seq<Item>, i: nat, ids: set<string>)
    requires i < |items| && Passed(p, items[..i], ids) && (!Harmless(p, items[i]) || items[i].id in ids)
    ensures !(Distinct(items) && forall item :: item in items ==> Harmless(p, item))
  {
    if items[i].id in ids {
      var item :| item in items[..i] && item.id == items[i].id;
      var j :| 0 <= j < i && items[j] == item;
    } else {
      assert items[i] in items;
    }
  }
}
