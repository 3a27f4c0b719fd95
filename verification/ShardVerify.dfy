/** The deterministic test partition, its selector check, and the checker that accepts four shards of evidence. */
module ShardVerify {
  import opened Options
  import opened Regex
  import opened Shard
  import opened ShardExact

  const APP := "github.com/crevissepartners/projmux/internal/app"
  const SHARDS := ["app-0", "app-1", "app-2", "rest"]

  /** The digest of a prefix as a number. */
  type Hash = string -> nat

  /** The one shard that runs a test. */
  function Home(hash: Hash, package: string, name: string): string {
    if package != APP then "rest" else SHARDS[hash(Key(name)) % 3]
  }

  predicate Selected(hash: Hash, shard: string, package: string, name: string) {
    shard == Home(hash, package, name)
  }

  function Chosen(hash: Hash, shard: string, package: string, names: seq<string>): seq<string> {
    if names == [] then []
    else (if Selected(hash, shard, package, names[0]) then [names[0]] else []) + Chosen(hash, shard, package, names[1..])
  }

  // ---- the selector check ----

  /** The inventory entries that the emitted selector matches. */
  ghost function Matched(pattern: string, names: seq<string>): seq<string> {
    if names == [] then []
    else (if ReMatch(pattern, names[0]) == Some(true) then [names[0]] else []) + Matched(pattern, names[1..])
  }

  predicate OneLine(name: string) {
    '\n' !in name
  }

  /** For every inventory with a non-empty cohort the emitted selector picks exactly the cohort. */
  lemma SelectorCheckCannotFail(hash: Hash, shard: string, inventory: seq<string>)
    requires forall n :: n in inventory ==> OneLine(n)
    requires Chosen(hash, shard, APP, inventory) != [] && PatternOf(Chosen(hash, shard, APP, inventory)).Some?
    ensures Matched(PatternOf(Chosen(hash, shard, APP, inventory)).value, inventory) == Chosen(hash, shard, APP, inventory)
  {
    var names := Chosen(hash, shard, APP, inventory);
    forall n | n in inventory
      ensures ReMatch(PatternOf(names).value, n) == Some(Selected(hash, shard, APP, n))
    {
      PatternIsExact(names, n);
      CohortIsClosed(hash, shard, inventory, n);
    }
    SameFilter(hash, shard, PatternOf(names).value, inventory);
  }

  lemma {:induction false} SameFilter(hash: Hash, shard: string, pattern: string, names: seq<string>)
    requires forall n :: n in names ==> ReMatch(pattern, n) == Some(Selected(hash, shard, APP, n))
    ensures Matched(pattern, names) == Chosen(hash, shard, APP, names)
  {
    if names != [] {
      SameFilter(hash, shard, pattern, names[1..]);
    }
  }

  /** Sharing a listed prefix means sharing its digest, so the cohort's patterns select no one else. */
  lemma CohortIsClosed(hash: Hash, shard: string, inventory: seq<string>, n: string)
    requires n in inventory && OneLine(n)
    ensures Selects(Chosen(hash, shard, APP, inventory), n) <==> Selected(hash, shard, APP, n)
  {
    var names := Chosen(hash, shard, APP, inventory);
    ChosenMembers(hash, shard, APP, inventory);
    if Selects(names, n) {
      var m :| m in names && if |m| < PREFIX_WIDTH then n == m || n == m + "\n" else m[..PREFIX_WIDTH] <= n;
      BrokenIsNotOneLine(m);
      assert Key(m) == Key(n);
    }
  }

  lemma BrokenIsNotOneLine(m: string)
    ensures !OneLine(m + "\n")
  {
    assert (m + "\n")[|m|] == '\n';
  }

  lemma {:induction false} ChosenMembers(hash: Hash, shard: string, package: string, names: seq<string>)
    ensures forall n :: n in Chosen(hash, shard, package, names) <==> n in names && Selected(hash, shard, package, n)
  {
    if names != [] {
      ChosenMembers(hash, shard, package, names[1..]);
    }
  }

  // ---- the evidence checker ----

  datatype Manifest = Manifest(
    shard: string, runID: string, runAttempt: int, head: string, packages: seq<string>,
    inventory: map<string, seq<string>>, selected: map<string, seq<string>>, executed: map<string, seq<string>>,
    completed: seq<string>, status: int)

  /** What this checker run knows: its commit, its run and attempt, and which characters make a word. */
  datatype Env = Env(head: string, runID: string, runAttempt: int, word: char -> bool)

  predicate Less(a: string, b: string) {
    b != "" && (a == "" || a[0] < b[0] || (a[0] == b[0] && Less(a[1..], b[1..])))
  }

  predicate StrictlySorted(xs: seq<string>) {
    forall i, j :: 0 <= i < j < |xs| ==> Less(xs[i], xs[j])
  }

  /** xs is the sorted listing of the set s. */
  predicate Lists(xs: seq<string>, s: set<string>) {
    StrictlySorted(xs) && (forall x :: x in xs ==> x in s) && (forall x :: x in s ==> x in xs)
  }

  predicate Distinct(xs: seq<string>) {
    forall i, j :: 0 <= i < j < |xs| ==> xs[i] != xs[j]
  }

  predicate ValidName(word: char -> bool, n: string) {
    exists kind :: kind in ["Test", "Example", "Fuzz"] && kind <= n && forall i :: |kind| <= i < |n| ==> word(n[i])
  }

  predicate ValidExecution(m: Manifest) {
    m.status == 0 && m.selected == m.executed && Lists(m.completed, m.inventory.Keys)
  }

  function Owned(packages: seq<string>, shard: string): set<string> {
    set p | p in packages && (p == APP <==> shard != "rest")
  }

  /** Everything the checker asks of one manifest on its own. */
  predicate Sound(hash: Hash, env: Env, m: Manifest) {
    && ValidExecution(m)
    && m.runID == env.runID && 1 <= m.runAttempt <= env.runAttempt && m.head == env.head
    && m.inventory.Keys == Owned(m.packages, m.shard) && m.selected.Keys == Owned(m.packages, m.shard)
    && forall p :: p in m.inventory ==> SoundPackage(hash, env, m, p)
  }

  predicate SoundPackage(hash: Hash, env: Env, m: Manifest, p: string)
    requires p in m.inventory && p in m.selected
  {
    && StrictlySorted(m.inventory[p]) && (forall n :: n in m.inventory[p] ==> ValidName(env.word, n))
    && m.selected[p] == Chosen(hash, m.shard, p, m.inventory[p])
  }

  function ShardNames(ms: seq<Manifest>): seq<string> {
    seq(|ms|, i requires 0 <= i < |ms| => ms[i].shard)
  }

  predicate Agree(a: Manifest, b: Manifest) {
    a.packages == b.packages && forall p :: p in a.inventory && p in b.inventory ==> a.inventory[p] == b.inventory[p]
  }

  predicate Accepts(hash: Hash, env: Env, ms: seq<Manifest>) {
    && multiset(ShardNames(ms)) == multiset(SHARDS)
    && (forall m :: m in ms ==> APP in m.packages && StrictlySorted(m.packages) && Sound(hash, env, m))
    && forall a, b :: a in ms && b in ms ==> Agree(a, b)
  }

  // ---- the evidence, manifest by manifest ----

  /** The list orders exactly these strings by code points, each once. */
  ghost predicate SortedOf(xs: seq<string>, keys: set<string>) {
    (forall i, j :: 0 <= i < j < |xs| ==> Less(xs[i], xs[j])) && forall x :: x in xs <==> x in keys
  }

  /** The name of a top-level Go test, example or fuzz target. */
  predicate TestName(word: char -> bool, n: string) {
    exists kind :: kind in {"Test", "Example", "Fuzz"} && kind <= n && forall c :: c in n[|kind|..] ==> word(c)
  }

  /** This shard runs this test: by the digest of its first ten characters inside the app package, and with the rest outside. */
  predicate RunsHere(hash: Hash, shard: string, p: string, n: string) {
    if p == "github.com/crevissepartners/projmux/internal/app" then
      shard == ["app-0", "app-1", "app-2"][hash(if |n| < 10 then n else n[..10]) % 3]
    else shard == "rest"
  }

  /** One manifest shows a passed run of this very head and attempt: everything it owns is listed, its own part of it ran, and all of it completed. */
  ghost predicate Passed(hash: Hash, env: Env, m: Manifest) {
    && m.status == 0 && m.head == env.head && m.runID == env.runID && 1 <= m.runAttempt && m.runAttempt <= env.runAttempt
    && SortedOf(m.completed, m.inventory.Keys)
    && (forall p :: p in m.inventory <==> p in m.packages && (p == "github.com/crevissepartners/projmux/internal/app" <==> m.shard != "rest"))
    && m.selected.Keys == m.inventory.Keys && m.executed == m.selected
    && forall p :: p in m.inventory ==>
         && SortedOf(m.inventory[p], set n | n in m.inventory[p])
         && (forall n :: n in m.inventory[p] ==> TestName(env.word, n))
         && SortedOf(m.selected[p], set n | n in m.inventory[p] && RunsHere(hash, m.shard, p, n))
  }

  predicate Present(ms: seq<Manifest>, shard: string) {
    exists m :: m in ms && m.shard == shard
  }

  /** The four shards, each with a passed run, over one sorted package list with one list of names for every package. */
  ghost predicate Evidence(hash: Hash, env: Env, ms: seq<Manifest>) {
    && |ms| == 4 && (forall shard :: shard in {"app-0", "app-1", "app-2", "rest"} ==> Present(ms, shard))
    && (forall m :: m in ms ==> Passed(hash, env, m) && m.packages == ms[0].packages)
    && "github.com/crevissepartners/projmux/internal/app" in ms[0].packages && SortedOf(ms[0].packages, set p | p in ms[0].packages)
    && forall a, b, p :: a in ms && b in ms && p in a.inventory && p in b.inventory ==> a.inventory[p] == b.inventory[p]
  }

  /** The strings agree up to i, where the first one ends or has the smaller character. */
  predicate DiffersAt(a: string, b: string, i: nat) {
    i < |b| && i <= |a| && a[..i] == b[..i] && (i < |a| ==> a[i] < b[i])
  }

  /** The code-point order: a proper prefix comes first, and otherwise the first difference decides. */
  lemma {:induction false} LessDecides(a: string, b: string)
    ensures Less(a, b) <==> exists i :: DiffersAt(a, b, i)
  {
    if a != "" && b != "" && a[0] == b[0] {
      LessDecides(a[1..], b[1..]);
      forall i: nat | DiffersAt(a[1..], b[1..], i)
        ensures DiffersAt(a, b, i + 1)
      {
        assert a[..i + 1] == [a[0]] + a[1..][..i] && b[..i + 1] == [b[0]] + b[1..][..i];
      }
      forall i: nat | DiffersAt(a, b, i) && i > 0
        ensures DiffersAt(a[1..], b[1..], i - 1)
      {
        assert a[1..][..i - 1] == a[..i][1..] && b[1..][..i - 1] == b[..i][1..];
      }
      assert !DiffersAt(a, b, 0);
    } else if b != "" {
      assert DiffersAt(a, b, 0) <==> a == "" || a[0] < b[0];
      forall i: nat | DiffersAt(a, b, i)
        ensures i == 0 || (a != "" && a[0] == b[0])
      {
        SameStart(a, b, i);
      }
    }
  }

  lemma SameStart(a: string, b: string, i: nat)
    requires i <= |a| && i <= |b| && a[..i] == b[..i]
    ensures i > 0 ==> a[0] == b[0]
  {
    assert i > 0 ==> a[..i][0] == a[0] && b[..i][0] == b[0];
  }

  lemma {:induction false} LessIsTransitive(a: string, b: string, c: string)
    requires Less(a, b) && Less(b, c)
    ensures Less(a, c)
  {
    if a != "" && b != "" && c != "" && a[0] == b[0] == c[0] {
      LessIsTransitive(a[1..], b[1..], c[1..]);
    }
  }

  /** A sorted list is determined by its members. */
  lemma {:induction false} SortedIsUnique(xs: seq<string>, ys: seq<string>)
    requires StrictlySorted(xs) && StrictlySorted(ys) && forall x :: x in xs <==> x in ys
    ensures xs == ys
  {
    assert (xs != [] ==> xs[0] in ys) && (ys != [] ==> ys[0] in xs);
    if xs != [] && ys != [] {
      SortedStarts(xs, ys[0]);
      SortedStarts(ys, xs[0]);
      if xs[0] != ys[0] {
        LessIsTransitive(xs[0], ys[0], xs[0]);
        LessIsIrreflexive(xs[0]);
      }
      SortedTail(xs);
      SortedTail(ys);
      SortedIsUnique(xs[1..], ys[1..]);
    }
  }

  lemma SortedStarts(xs: seq<string>, x: string)
    requires StrictlySorted(xs) && x in xs
    ensures xs[0] == x || Less(xs[0], x)
  {
  }

  lemma SortedTail(xs: seq<string>)
    requires StrictlySorted(xs) && xs != []
    ensures StrictlySorted(xs[1..]) && forall x :: x in xs[1..] <==> x in xs && x != xs[0]
  {
    LessIsIrreflexive(xs[0]);
  }

  lemma {:induction false} ChosenIsSorted(hash: Hash, shard: string, p: string, names: seq<string>)
    requires StrictlySorted(names)
    ensures StrictlySorted(Chosen(hash, shard, p, names))
  {
    if names != [] {
      SortedTail(names);
      ChosenIsSorted(hash, shard, p, names[1..]);
      ChosenMembers(hash, shard, p, names[1..]);
      var tail := Chosen(hash, shard, p, names[1..]);
      assert forall n :: n in tail ==> n in names[1..] && Less(names[0], n);
    }
  }

  lemma RunsAtHome(hash: Hash, shard: string, p: string, n: string)
    ensures RunsHere(hash, shard, p, n) <==> Selected(hash, shard, p, n)
  {
    DistinctShards();
  }

  /** The chosen names are the listed ones that run here, in order. */
  lemma ChosenExactly(hash: Hash, shard: string, p: string, names: seq<string>, xs: seq<string>)
    requires StrictlySorted(names)
    ensures xs == Chosen(hash, shard, p, names) <==> SortedOf(xs, set n | n in names && RunsHere(hash, shard, p, n))
  {
    var chosen := Chosen(hash, shard, p, names);
    ChosenIsSorted(hash, shard, p, names);
    ChosenMembers(hash, shard, p, names);
    forall n
      ensures RunsHere(hash, shard, p, n) <==> Selected(hash, shard, p, n)
    {
      RunsAtHome(hash, shard, p, n);
    }
    if SortedOf(xs, set n | n in names && RunsHere(hash, shard, p, n)) {
      SortedIsUnique(xs, chosen);
    }
  }

  lemma TestNameIsValid(word: char -> bool, n: string)
    ensures TestName(word, n) <==> ValidName(word, n)
  {
    if kind :| kind in {"Test", "Example", "Fuzz"} && kind <= n && forall c :: c in n[|kind|..] ==> word(c) {
      assert forall i :: |kind| <= i < |n| ==> n[i] == n[|kind|..][i - |kind|];
      assert kind in ["Test", "Example", "Fuzz"];
    }
    if kind :| kind in ["Test", "Example", "Fuzz"] && kind <= n && forall i :: |kind| <= i < |n| ==> word(n[i]) {
      assert kind in {"Test", "Example", "Fuzz"};
    }
  }

  lemma PackagePasses(hash: Hash, env: Env, m: Manifest, p: string)
    requires p in m.inventory && p in m.selected
    ensures SoundPackage(hash, env, m, p) <==>
              && SortedOf(m.inventory[p], set n | n in m.inventory[p])
              && (forall n :: n in m.inventory[p] ==> TestName(env.word, n))
              && SortedOf(m.selected[p], set n | n in m.inventory[p] && RunsHere(hash, m.shard, p, n))
  {
    forall n
      ensures TestName(env.word, n) <==> ValidName(env.word, n)
    {
      TestNameIsValid(env.word, n);
    }
    if StrictlySorted(m.inventory[p]) {
      ChosenExactly(hash, m.shard, p, m.inventory[p], m.selected[p]);
    }
  }

  lemma PassedIsSound(hash: Hash, env: Env, m: Manifest)
    ensures Passed(hash, env, m) <==> Sound(hash, env, m)
  {
    forall p | p in m.inventory && p in m.selected
      ensures SoundPackage(hash, env, m, p) <==>
                && SortedOf(m.inventory[p], set n | n in m.inventory[p])
                && (forall n :: n in m.inventory[p] ==> TestName(env.word, n))
                && SortedOf(m.selected[p], set n | n in m.inventory[p] && RunsHere(hash, m.shard, p, n))
    {
      PackagePasses(hash, env, m, p);
    }
    OwnsItsInventory(m);
    assert Lists(m.completed, m.inventory.Keys) <==> SortedOf(m.completed, m.inventory.Keys);
  }

  lemma OwnsItsInventory(m: Manifest)
    ensures m.inventory.Keys == Owned(m.packages, m.shard)
       <==> forall p :: p in m.inventory <==> p in m.packages && (p == "github.com/crevissepartners/projmux/internal/app" <==> m.shard != "rest")
  {
  }

  lemma FourShards(ms: seq<Manifest>)
    ensures multiset(ShardNames(ms)) == multiset(SHARDS) <==>
              |ms| == 4 && forall shard :: shard in {"app-0", "app-1", "app-2", "rest"} ==> Present(ms, shard)
  {
    DistinctShards();
    if multiset(ShardNames(ms)) == multiset(SHARDS) {
      assert |multiset(ShardNames(ms))| == |multiset(SHARDS)|;
      forall shard | shard in {"app-0", "app-1", "app-2", "rest"}
        ensures Present(ms, shard)
      {
        var m := ShardIsPresent(ms, shard);
      }
    }
    if |ms| == 4 && forall shard :: shard in {"app-0", "app-1", "app-2", "rest"} ==> Present(ms, shard) {
      PresentShardsFit(ms);
    }
  }

  lemma PresentShardsFit(ms: seq<Manifest>)
    requires |ms| == 4 && forall shard :: shard in {"app-0", "app-1", "app-2", "rest"} ==> Present(ms, shard)
    ensures multiset(ShardNames(ms)) == multiset(SHARDS)
  {
    DistinctShards();
    assert multiset(SHARDS) == multiset{SHARDS[0], SHARDS[1], SHARDS[2], SHARDS[3]};
    forall shard | shard in SHARDS
      ensures shard in multiset(ShardNames(ms))
    {
      assert Present(ms, shard);
      var m :| m in ms && m.shard == shard;
      var i :| 0 <= i < |ms| && ms[i] == m;
      assert ShardNames(ms)[i] == shard;
    }
    AllFit(multiset(ShardNames(ms)), multiset(SHARDS));
  }

  lemma AllFit(have: multiset<string>, want: multiset<string>)
    requires |have| == |want| && (forall x :: x in want ==> want[x] == 1 && x in have)
    ensures have == want
  {
    assert want <= have;
    assert have == want + (have - want);
    assert |have - want| == 0;
  }

  lemma AcceptedIsEvidence(hash: Hash, env: Env, ms: seq<Manifest>)
    requires Accepts(hash, env, ms)
    ensures Evidence(hash, env, ms)
  {
    FourShards(ms);
    AgreeSpelled(ms);
    MembersPass(hash, env, ms);
  }

  lemma EvidenceIsAccepted(hash: Hash, env: Env, ms: seq<Manifest>)
    requires Evidence(hash, env, ms)
    ensures Accepts(hash, env, ms)
  {
    FourShards(ms);
    assert SamePackages(ms);
    AgreeSpelled(ms);
    MembersPass(hash, env, ms);
  }

  /** Acceptance is evidence, spelled out on the manifests. */
  lemma AcceptsIsEvidence(hash: Hash, env: Env, ms: seq<Manifest>)
    ensures Accepts(hash, env, ms) <==> Evidence(hash, env, ms)
  {
    if Accepts(hash, env, ms) {
      AcceptedIsEvidence(hash, env, ms);
    }
    if Evidence(hash, env, ms) {
      EvidenceIsAccepted(hash, env, ms);
    }
  }

  predicate SamePackages(ms: seq<Manifest>)
    requires ms != []
  {
    forall m :: m in ms ==> m.packages == ms[0].packages
  }

  lemma MembersPass(hash: Hash, env: Env, ms: seq<Manifest>)
    requires ms != [] && SamePackages(ms)
    ensures (forall m :: m in ms ==> APP in m.packages && StrictlySorted(m.packages) && Sound(hash, env, m)) <==>
              && (forall m :: m in ms ==> Passed(hash, env, m) && m.packages == ms[0].packages)
              && APP in ms[0].packages && SortedOf(ms[0].packages, set p | p in ms[0].packages)
  {
    assert ms[0] in ms;
    assert SortedOf(ms[0].packages, set p | p in ms[0].packages) <==> StrictlySorted(ms[0].packages);
    forall m | m in ms
      ensures Passed(hash, env, m) <==> Sound(hash, env, m)
    {
      PassedIsSound(hash, env, m);
    }
  }

  lemma AgreeSpelled(ms: seq<Manifest>)
    requires ms != []
    ensures (forall a, b :: a in ms && b in ms ==> Agree(a, b)) <==>
              && SamePackages(ms)
              && forall a, b, p :: a in ms && b in ms && p in a.inventory && p in b.inventory ==> a.inventory[p] == b.inventory[p]
  {
    if forall a, b :: a in ms && b in ms ==> Agree(a, b) {
      forall m | m in ms
        ensures m.packages == ms[0].packages
      {
        assert Agree(m, ms[0]);
      }
      forall a, b, p | a in ms && b in ms && p in a.inventory && p in b.inventory
        ensures a.inventory[p] == b.inventory[p]
      {
        assert Agree(a, b);
      }
    }
  }

  // ---- what acceptance means ----

  function Ran(m: Manifest, p: string): multiset<string> {
    if p in m.executed then multiset(m.executed[p]) else multiset{}
  }

  /** How often the shards together executed each test of a package. */
  function Executions(ms: seq<Manifest>, p: string): multiset<string> {
    if ms == [] then multiset{} else Executions(ms[..|ms| - 1], p) + Ran(ms[|ms| - 1], p)
  }

  predicate Inventoried(ms: seq<Manifest>, p: string, n: string) {
    exists m :: m in ms && p in m.inventory && n in m.inventory[p]
  }

  lemma {:induction false} ChosenCount(hash: Hash, shard: string, p: string, names: seq<string>, n: string)
    ensures multiset(Chosen(hash, shard, p, names))[n] == if Selected(hash, shard, p, n) then multiset(names)[n] else 0
  {
    if names != [] {
      ChosenCount(hash, shard, p, names[1..], n);
      assert names == [names[0]] + names[1..];
      var head := if Selected(hash, shard, p, names[0]) then [names[0]] else [];
      assert multiset(head + Chosen(hash, shard, p, names[1..])) == multiset(head) + multiset(Chosen(hash, shard, p, names[1..]));
    }
  }

  /** A manifest that lists a package exactly when its shard owns it, and executed its own part of the names. */
  predicate Follows(hash: Hash, m: Manifest, p: string, names: seq<string>) {
    && (p in m.executed <==> (p == APP <==> m.shard != "rest"))
    && (p in m.executed ==> m.executed[p] == Chosen(hash, m.shard, p, names))
  }

  lemma RanCount(hash: Hash, m: Manifest, p: string, names: seq<string>, n: string)
    requires Follows(hash, m, p, names)
    ensures Ran(m, p)[n] == if m.shard == Home(hash, p, n) then multiset(names)[n] else 0
  {
    DistinctShards();
    if p in m.executed {
      ChosenCount(hash, m.shard, p, names, n);
    }
  }

  function Once(b: bool): nat {
    if b then 1 else 0
  }

  lemma ShardNamesGrow(rest: seq<Manifest>, m: Manifest, h: string)
    ensures multiset(ShardNames(rest + [m]))[h] == multiset(ShardNames(rest))[h] + Once(m.shard == h)
  {
    assert ShardNames(rest + [m]) == ShardNames(rest) + [m.shard];
  }

  /** A test is executed once for every shard that is its home. */
  lemma {:induction false} ExecutionsCount(hash: Hash, ms: seq<Manifest>, p: string, names: seq<string>, n: string)
    requires forall m :: m in ms ==> Follows(hash, m, p, names)
    ensures Executions(ms, p)[n] == multiset(ShardNames(ms))[Home(hash, p, n)] * multiset(names)[n]
  {
    if ms != [] {
      var rest, m := ms[..|ms| - 1], ms[|ms| - 1];
      assert ms == rest + [m];
      ExecutionsCount(hash, rest, p, names, n);
      ShardNamesGrow(rest, m, Home(hash, p, n));
      RanCount(hash, m, p, names, n);
      OneMore(multiset(ShardNames(rest))[Home(hash, p, n)], multiset(names)[n]);
    }
  }

  lemma OneMore(k: nat, c: nat)
    ensures (k + 1) * c == k * c + c
  {
  }

  lemma HomeIsOneShard(hash: Hash, p: string, n: string)
    ensures multiset(SHARDS)[Home(hash, p, n)] == 1
  {
    var i := hash(Key(n)) % 3;
    assert multiset(SHARDS) == multiset{SHARDS[0], SHARDS[1], SHARDS[2], SHARDS[3]};
    DistinctShards();
  }

  lemma DistinctShards()
    ensures SHARDS[0] == "app-0" && SHARDS[1] == "app-1" && SHARDS[2] == "app-2" && SHARDS[3] == "rest"
    ensures "app-0" != "app-1" && "app-0" != "app-2" && "app-1" != "app-2" && "app-0" != "rest" && "app-1" != "rest" && "app-2" != "rest"
  {
    assert "app-0"[4] != "app-1"[4] && "app-0"[4] != "app-2"[4] && "app-1"[4] != "app-2"[4];
    assert |"rest"| == 4;
  }

  lemma {:induction false} LessIsIrreflexive(a: string)
    ensures !Less(a, a)
  {
    if a != "" {
      LessIsIrreflexive(a[1..]);
    }
  }

  lemma SortedIsDistinct(xs: seq<string>)
    requires StrictlySorted(xs)
    ensures Distinct(xs)
  {
    forall i, j | 0 <= i < j < |xs|
      ensures xs[i] != xs[j]
    {
      LessIsIrreflexive(xs[i]);
    }
  }

  lemma {:induction false} DistinctCount(xs: seq<string>, n: string)
    requires Distinct(xs)
    ensures multiset(xs)[n] == if n in xs then 1 else 0
  {
    if xs != [] {
      assert xs == [xs[0]] + xs[1..];
      DistinctCount(xs[1..], n);
      assert xs[0] !in xs[1..];
    }
  }

  /** Every shard named by the checker has its manifest. */
  lemma ShardIsPresent(ms: seq<Manifest>, shard: string) returns (m: Manifest)
    requires multiset(ShardNames(ms)) == multiset(SHARDS) && shard in SHARDS
    ensures m in ms && m.shard == shard
  {
    assert shard in multiset(ShardNames(ms));
    var i :| 0 <= i < |ms| && ShardNames(ms)[i] == shard;
    m := ms[i];
  }

  lemma OwnerIsPresent(ms: seq<Manifest>, p: string) returns (m: Manifest)
    requires multiset(ShardNames(ms)) == multiset(SHARDS)
    ensures m in ms && (p == APP <==> m.shard != "rest")
  {
    DistinctShards();
    m := ShardIsPresent(ms, if p == APP then SHARDS[0] else SHARDS[3]);
  }

  /** Accepted manifests execute each package along one list of names, distinct and the same in every inventory. */
  lemma AcceptedFollows(hash: Hash, env: Env, ms: seq<Manifest>, p: string) returns (names: seq<string>)
    requires Accepts(hash, env, ms) && ms != [] && p in ms[0].packages
    ensures Distinct(names) && forall m :: m in ms ==> Follows(hash, m, p, names) && (p in m.inventory ==> m.inventory[p] == names)
    ensures exists m :: m in ms && p in m.inventory
  {
    var owner := OwnerIsPresent(ms, p);
    assert Agree(owner, ms[0]) && p in owner.inventory;
    names := owner.inventory[p];
    SortedIsDistinct(names);
    forall m | m in ms
      ensures Follows(hash, m, p, names) && (p in m.inventory ==> m.inventory[p] == names)
    {
      assert Agree(m, ms[0]) && Agree(m, owner) && Sound(hash, env, m);
      assert p in m.inventory ==> SoundPackage(hash, env, m, p);
    }
  }

  lemma {:induction false} NothingRan(ms: seq<Manifest>, p: string)
    requires forall m :: m in ms ==> p !in m.executed
    ensures Executions(ms, p) == multiset{}
  {
    if ms != [] {
      NothingRan(ms[..|ms| - 1], p);
    }
  }

  /** Accepted evidence shows every inventoried test executed exactly once over all shards, and no other test at all. */
  lemma ExecutedExactlyOnce(hash: Hash, env: Env, ms: seq<Manifest>, p: string, n: string)
    requires Accepts(hash, env, ms)
    ensures Executions(ms, p)[n] == if Inventoried(ms, p, n) then 1 else 0
  {
    var any := OwnerIsPresent(ms, p);
    if p in ms[0].packages {
      var names := AcceptedFollows(hash, env, ms, p);
      ExecutionsCount(hash, ms, p, names, n);
      HomeIsOneShard(hash, p, n);
      DistinctCount(names, n);
    } else {
      forall m | m in ms
        ensures p !in m.executed && p !in m.inventory
      {
        assert Agree(m, ms[0]) && Sound(hash, env, m);
      }
      NothingRan(ms, p);
    }
  }

  // ---- the checker itself ----

  function Collected(union: map<string, seq<string>>, p: string): seq<string> {
    if p in union then union[p] else []
  }

  /** The package is sound and agrees with what earlier shards listed. */
  predicate Joins(hash: Hash, env: Env, m: Manifest, baseline: map<string, seq<string>>, p: string)
    requires p in m.inventory && p in m.selected
  {
    SoundPackage(hash, env, m, p) && (p in baseline ==> baseline[p] == m.inventory[p])
  }

  /** One manifest's packages against the baseline so far; returns the grown baseline and union. */
  method Tally(hash: Hash, env: Env, m: Manifest, baseline: map<string, seq<string>>, union: map<string, seq<string>>)
    returns (ok: bool, names: map<string, seq<string>>, lists: map<string, seq<string>>)
    requires m.selected.Keys == m.inventory.Keys && union.Keys == baseline.Keys
    ensures ok <==> forall p :: p in m.inventory ==> Joins(hash, env, m, baseline, p)
    ensures ok ==> names == baseline + m.inventory && lists.Keys == names.Keys
    ensures ok ==> forall p :: p in lists ==> lists[p] == Collected(union, p) + Collected(m.selected, p)
  {
    names, lists, ok := baseline, union, true;
    var todo := m.inventory.Keys;
    TallyStarts(m, baseline, union);
    while todo != {}
      invariant todo <= m.inventory.Keys && ok
      invariant forall p :: p in m.inventory.Keys - todo ==> Joins(hash, env, m, baseline, p)
      invariant Tallied(m, todo, baseline, names, union, lists)
      decreases todo
    {
      var p :| p in todo;
      JoinsSoFar(hash, env, m, todo, p, baseline);
      if !Joins(hash, env, m, names, p) {
        return false, names, lists;
      }
      TallyNext(m, todo, p, baseline, names, union, lists);
      names := names[p := m.inventory[p]];
      lists := lists[p := Collected(lists, p) + m.selected[p]];
      todo := todo - {p};
    }
    TallyEnds(m, baseline, names, union, lists);
  }

  /** All packages but those still to do have joined the baseline and the union. */
  predicate Tallied(m: Manifest, todo: set<string>, baseline: map<string, seq<string>>, names: map<string, seq<string>>,
    union: map<string, seq<string>>, lists: map<string, seq<string>>)
  {
    && names == baseline + (m.inventory - todo) && lists.Keys == names.Keys
    && forall p :: p in lists ==> lists[p] == Collected(union, p) + Collected(m.selected - todo, p)
  }

  lemma TallyEnds(m: Manifest, baseline: map<string, seq<string>>, names: map<string, seq<string>>,
    union: map<string, seq<string>>, lists: map<string, seq<string>>)
    requires Tallied(m, {}, baseline, names, union, lists)
    ensures names == baseline + m.inventory
    ensures forall p :: p in lists ==> lists[p] == Collected(union, p) + Collected(m.selected, p)
  {
    assert m.inventory - {} == m.inventory && m.selected - {} == m.selected;
  }

  lemma TallyStarts(m: Manifest, baseline: map<string, seq<string>>, union: map<string, seq<string>>)
    requires m.selected.Keys == m.inventory.Keys && union.Keys == baseline.Keys
    ensures Tallied(m, m.inventory.Keys, baseline, baseline, union, union)
  {
    assert m.inventory - m.inventory.Keys == map[] && m.selected - m.inventory.Keys == map[];
  }

  /** The packages of this manifest that are done do not decide about one that is not. */
  lemma JoinsSoFar(hash: Hash, env: Env, m: Manifest, todo: set<string>, p: string, baseline: map<string, seq<string>>)
    requires p in todo && p in m.inventory && p in m.selected
    ensures Joins(hash, env, m, baseline + (m.inventory - todo), p) <==> Joins(hash, env, m, baseline, p)
  {
  }

  lemma TallyNext(m: Manifest, todo: set<string>, p: string, baseline: map<string, seq<string>>, names: map<string, seq<string>>,
    union: map<string, seq<string>>, lists: map<string, seq<string>>)
    requires p in todo && todo <= m.inventory.Keys && m.inventory.Keys == m.selected.Keys && union.Keys == baseline.Keys
    requires Tallied(m, todo, baseline, names, union, lists)
    ensures Tallied(m, todo - {p}, baseline, names[p := m.inventory[p]], union, lists[p := Collected(lists, p) + m.selected[p]])
  {
    var next := lists[p := Collected(lists, p) + m.selected[p]];
    BaselineNext(m.inventory, todo, p, baseline);
    forall q | q in next
      ensures next[q] == Collected(union, q) + Collected(m.selected - (todo - {p}), q)
    {
      CollectedNext(m.selected, todo, p, q);
      if q == p {
        assert p !in lists ==> p !in union;
      }
    }
  }

  lemma BaselineNext(listed: map<string, seq<string>>, todo: set<string>, p: string, baseline: map<string, seq<string>>)
    requires p in todo && p in listed
    ensures (baseline + (listed - todo))[p := listed[p]] == baseline + (listed - (todo - {p}))
  {
    assert (listed - todo)[p := listed[p]] == listed - (todo - {p});
  }

  lemma CollectedNext(chosen: map<string, seq<string>>, todo: set<string>, p: string, q: string)
    requires p in todo && p in chosen
    ensures Collected(chosen - todo, p) == []
    ensures Collected(chosen - (todo - {p}), q) == if q == p then chosen[p] else Collected(chosen - todo, q)
  {
  }

  /** The checks on the next manifest; a refusal refuses the evidence. */
  method Take(hash: Hash, env: Env, ms: seq<Manifest>, k: nat, packages: seq<string>,
    baseline: map<string, seq<string>>, union: map<string, seq<string>>)
    returns (ok: bool, names: map<string, seq<string>>, lists: map<string, seq<string>>)
    requires k < |ms| && packages == ms[0].packages
    requires AllSound(hash, env, ms[..k], packages) && Baselined(ms[..k], baseline) && Unioned(ms[..k], baseline, union)
    ensures ok ==> AllSound(hash, env, ms[..k + 1], packages) && Baselined(ms[..k + 1], names) && Unioned(ms[..k + 1], names, lists)
    ensures !ok ==> !Accepts(hash, env, ms)
  {
    var m := ms[k];
    names, lists := baseline, union;
    assert m in ms && ms[0] in ms && ms[..k + 1] == ms[..k] + [m];
    if !Plausible(env, m, packages) {
      if Accepts(hash, env, ms) {
        AcceptedIsPlausible(hash, env, ms, m);
      }
      return false, names, lists;
    }
    ok, names, lists := Tally(hash, env, m, baseline, union);
    if !ok {
      TallyRefuses(hash, env, ms, k, baseline);
      return;
    }
    SoundIsRegular(hash, env, ms[..k], packages);
    TallyBaselines(ms[..k], m, baseline);
    TallyUnions(hash, ms[..k], m, packages, baseline, union, names, lists);
    JoinsAreSound(hash, env, ms[..k], m, packages, baseline);
  }

  /** The checks before a manifest's packages are looked at one by one. */
  predicate Plausible(env: Env, m: Manifest, packages: seq<string>) {
    && ValidExecution(m)
    && m.runID == env.runID && 1 <= m.runAttempt <= env.runAttempt
    && m.head == env.head && m.packages == packages
    && m.inventory.Keys == Owned(packages, m.shard) && m.selected.Keys == Owned(packages, m.shard)
  }

  lemma AcceptedIsPlausible(hash: Hash, env: Env, ms: seq<Manifest>, m: Manifest)
    requires Accepts(hash, env, ms) && m in ms && ms != []
    ensures Plausible(env, m, ms[0].packages)
  {
    assert Agree(m, ms[0]) && Sound(hash, env, m);
  }

  lemma JoinsAreSound(hash: Hash, env: Env, ms: seq<Manifest>, m: Manifest, packages: seq<string>, baseline: map<string, seq<string>>)
    requires AllSound(hash, env, ms, packages) && Plausible(env, m, packages)
    requires forall p :: p in m.inventory ==> Joins(hash, env, m, baseline, p)
    ensures AllSound(hash, env, ms + [m], packages)
  {
    assert Sound(hash, env, m) by {
      assert forall p :: p in m.inventory ==> Joins(hash, env, m, baseline, p) && SoundPackage(hash, env, m, p);
    }
  }

  /** The checks on the set of manifests and on the first one's package list. */
  method Opening(hash: Hash, env: Env, ms: seq<Manifest>) returns (ok: bool)
    ensures ok ==> multiset(ShardNames(ms)) == multiset(SHARDS) && ms != [] && APP in ms[0].packages
    ensures !ok ==> !Accepts(hash, env, ms)
  {
    if multiset(ShardNames(ms)) != multiset(SHARDS) {
      return false;
    }
    ghost var first := ShardIsPresent(ms, SHARDS[0]);
    var packages := ms[0].packages;
    if packages == [] || APP !in packages || !Distinct(packages) {
      SortedIsDistinctUnless(packages);
      assert ms[0] in ms;
      return false;
    }
    ok := true;
  }

  /** The manifests one after the other; the first refusal ends it. */
  method Gather(hash: Hash, env: Env, ms: seq<Manifest>, packages: seq<string>)
    returns (ok: bool, baseline: map<string, seq<string>>, union: map<string, seq<string>>)
    requires ms != [] && packages == ms[0].packages
    ensures ok ==> AllSound(hash, env, ms, packages) && Baselined(ms, baseline) && Unioned(ms, baseline, union)
    ensures !ok ==> !Accepts(hash, env, ms)
  {
    ok, baseline, union := true, map[], map[];
    for k := 0 to |ms|
      invariant ok && AllSound(hash, env, ms[..k], packages) && Baselined(ms[..k], baseline) && Unioned(ms[..k], baseline, union)
    {
      ok, baseline, union := Take(hash, env, ms, k, packages, baseline, union);
      if !ok {
        return;
      }
    }
    assert ms[..|ms|] == ms;
  }

  /** The checker: accepts exactly the four-shard evidence that Accepts describes, so its final union check never decides. */
  method Verify(hash: Hash, env: Env, ms: seq<Manifest>) returns (accepted: bool)
    ensures accepted <==> Evidence(hash, env, ms)
  {
    AcceptsIsEvidence(hash, env, ms);
    var ok := Opening(hash, env, ms);
    if !ok {
      return false;
    }
    var packages, baseline, union := ms[0].packages, map[], map[];
    ok, baseline, union := Gather(hash, env, ms, packages);
    if !ok {
      return false;
    }
    ListingDecides(hash, env, ms, packages, baseline);
    if !Lists(packages, baseline.Keys) {
      return false;
    }
    UnionCovers(hash, ms, packages, baseline, union);
    if exists p :: p in baseline.Keys && multiset(union[p]) != multiset(baseline[p]) {
      return false;
    }
    accepted := true;
  }

  /** After the last manifest only the order of the package list is left to decide. */
  lemma ListingDecides(hash: Hash, env: Env, ms: seq<Manifest>, packages: seq<string>, baseline: map<string, seq<string>>)
    requires multiset(ShardNames(ms)) == multiset(SHARDS) && ms != [] && packages == ms[0].packages && APP in packages
    requires AllSound(hash, env, ms, packages) && Baselined(ms, baseline)
    ensures AllRegular(hash, ms, packages)
    ensures Accepts(hash, env, ms) <==> Lists(packages, baseline.Keys)
  {
    SoundIsRegular(hash, env, ms, packages);
    Covered(hash, ms, packages, baseline);
    BaselineAgrees(ms, packages, baseline);
    ListsCovered(packages, baseline.Keys);
    SortedAccepts(hash, env, ms, packages);
  }

  lemma ListsCovered(xs: seq<string>, keys: set<string>)
    requires forall x :: x in xs <==> x in keys
    ensures Lists(xs, keys) <==> StrictlySorted(xs)
  {
  }

  lemma SortedAccepts(hash: Hash, env: Env, ms: seq<Manifest>, packages: seq<string>)
    requires multiset(ShardNames(ms)) == multiset(SHARDS) && ms != [] && packages == ms[0].packages && APP in packages
    requires AllSound(hash, env, ms, packages) && forall a, b :: a in ms && b in ms ==> Agree(a, b)
    ensures Accepts(hash, env, ms) <==> StrictlySorted(packages)
  {
    assert ms[0] in ms;
  }

  lemma SortedIsDistinctUnless(xs: seq<string>)
    ensures StrictlySorted(xs) ==> Distinct(xs)
  {
    if StrictlySorted(xs) {
      SortedIsDistinct(xs);
    }
  }

  // ---- what the loop knows of the manifests it has passed ----

  predicate AllSound(hash: Hash, env: Env, ms: seq<Manifest>, packages: seq<string>) {
    forall m :: m in ms ==> m.packages == packages && Sound(hash, env, m)
  }

  /** A manifest lists, selects and executes exactly the packages its shard owns, each by the partition. */
  ghost predicate Regular(hash: Hash, m: Manifest, packages: seq<string>) {
    && m.executed.Keys == m.inventory.Keys == Owned(packages, m.shard)
    && forall p :: p in m.inventory ==> m.executed[p] == Chosen(hash, m.shard, p, m.inventory[p])
  }

  ghost predicate AllRegular(hash: Hash, ms: seq<Manifest>, packages: seq<string>) {
    forall m :: m in ms ==> Regular(hash, m, packages)
  }

  lemma SoundIsRegular(hash: Hash, env: Env, ms: seq<Manifest>, packages: seq<string>)
    requires AllSound(hash, env, ms, packages)
    ensures AllRegular(hash, ms, packages)
  {
    forall m | m in ms
      ensures Regular(hash, m, packages)
    {
      assert forall p :: p in m.inventory ==> SoundPackage(hash, env, m, p);
    }
  }

  /** One manifest's lists are the baseline's. */
  predicate Within(m: Manifest, baseline: map<string, seq<string>>) {
    forall p :: p in m.inventory ==> p in baseline && baseline[p] == m.inventory[p]
  }

  ghost predicate Baselined(ms: seq<Manifest>, baseline: map<string, seq<string>>) {
    && (forall m :: m in ms ==> Within(m, baseline))
    && (forall p :: p in baseline ==> exists m :: m in ms && p in m.inventory)
  }

  ghost predicate Unioned(ms: seq<Manifest>, baseline: map<string, seq<string>>, union: map<string, seq<string>>) {
    union.Keys == baseline.Keys && forall p :: p in union ==> multiset(union[p]) == Executions(ms, p)
  }

  lemma TallyRefuses(hash: Hash, env: Env, ms: seq<Manifest>, k: nat, baseline: map<string, seq<string>>)
    requires k < |ms| && Baselined(ms[..k], baseline) && ms[k].selected.Keys == ms[k].inventory.Keys
    requires exists p :: p in ms[k].inventory && !Joins(hash, env, ms[k], baseline, p)
    ensures !Accepts(hash, env, ms)
  {
    var p :| p in ms[k].inventory && !Joins(hash, env, ms[k], baseline, p);
    if SoundPackage(hash, env, ms[k], p) {
      var m :| m in ms[..k] && p in m.inventory;
      assert Within(m, baseline);
      assert m in ms && ms[k] in ms;
      assert !Agree(m, ms[k]);
    } else {
      assert ms[k] in ms;
    }
  }

  lemma TallyBaselines(ms: seq<Manifest>, m: Manifest, baseline: map<string, seq<string>>)
    requires Baselined(ms, baseline)
    requires forall p :: p in m.inventory && p in baseline ==> baseline[p] == m.inventory[p]
    ensures Baselined(ms + [m], baseline + m.inventory)
  {
    forall q | q in ms + [m]
      ensures Within(q, baseline + m.inventory)
    {
      if q in ms {
        WithinGrows(q, m, baseline);
      } else {
        assert q == m;
      }
    }
    forall p | p in baseline + m.inventory
      ensures exists q :: q in ms + [m] && p in q.inventory
    {
      if p in m.inventory {
        assert (ms + [m])[|ms|] == m;
      } else {
        var q :| q in ms && p in q.inventory;
        assert q in ms + [m];
      }
    }
  }

  lemma WithinGrows(q: Manifest, m: Manifest, baseline: map<string, seq<string>>)
    requires Within(q, baseline)
    requires forall p :: p in m.inventory && p in baseline ==> baseline[p] == m.inventory[p]
    ensures Within(q, baseline + m.inventory)
  {
  }

  lemma TallyUnions(hash: Hash, ms: seq<Manifest>, m: Manifest, packages: seq<string>, baseline: map<string, seq<string>>,
    union: map<string, seq<string>>, names: map<string, seq<string>>, lists: map<string, seq<string>>)
    requires AllRegular(hash, ms, packages) && Baselined(ms, baseline) && Unioned(ms, baseline, union)
    requires m.selected == m.executed && m.executed.Keys == m.inventory.Keys
    requires names == baseline + m.inventory && lists.Keys == names.Keys
    requires forall p :: p in lists ==> lists[p] == Collected(union, p) + Collected(m.selected, p)
    ensures Unioned(ms + [m], names, lists)
  {
    assert (ms + [m])[..|ms|] == ms;
    forall p | p in lists
      ensures multiset(lists[p]) == Executions(ms + [m], p)
    {
      CollectedRan(m, p);
      if p !in union {
        forall q | q in ms
          ensures p !in q.executed
        {
          assert Regular(hash, q, packages) && Within(q, baseline);
        }
        NothingRan(ms, p);
      }
    }
  }

  lemma CollectedRan(m: Manifest, p: string)
    requires m.selected == m.executed
    ensures multiset(Collected(m.selected, p)) == Ran(m, p)
  {
  }

  lemma Covered(hash: Hash, ms: seq<Manifest>, packages: seq<string>, baseline: map<string, seq<string>>)
    requires AllRegular(hash, ms, packages) && Baselined(ms, baseline) && multiset(ShardNames(ms)) == multiset(SHARDS)
    ensures forall p :: p in packages <==> p in baseline
  {
    forall p
      ensures p in packages <==> p in baseline
    {
      if p in packages {
        var owner := OwnerIsPresent(ms, p);
        assert Regular(hash, owner, packages) && Within(owner, baseline);
      }
      if p in baseline {
        var m :| m in ms && p in m.inventory;
        assert Regular(hash, m, packages);
      }
    }
  }

  lemma BaselineAgrees(ms: seq<Manifest>, packages: seq<string>, baseline: map<string, seq<string>>)
    requires Baselined(ms, baseline) && forall m :: m in ms ==> m.packages == packages
    ensures forall a, b :: a in ms && b in ms ==> Agree(a, b)
  {
    forall a, b | a in ms && b in ms
      ensures Agree(a, b)
    {
      assert Within(a, baseline) && Within(b, baseline);
    }
  }

  /** The lists gathered from all shards always hold exactly the baseline's names. */
  lemma UnionCovers(hash: Hash, ms: seq<Manifest>, packages: seq<string>, baseline: map<string, seq<string>>, union: map<string, seq<string>>)
    requires AllRegular(hash, ms, packages) && Baselined(ms, baseline) && Unioned(ms, baseline, union)
    requires multiset(ShardNames(ms)) == multiset(SHARDS)
    ensures forall p :: p in baseline ==> multiset(union[p]) == multiset(baseline[p])
  {
    Covered(hash, ms, packages, baseline);
    forall p | p in baseline
      ensures multiset(union[p]) == multiset(baseline[p])
    {
      forall m | m in ms
        ensures Follows(hash, m, p, baseline[p])
      {
        assert Regular(hash, m, packages) && Within(m, baseline);
      }
      SameCounts(hash, ms, p, baseline[p]);
    }
  }

  lemma SameCounts(hash: Hash, ms: seq<Manifest>, p: string, names: seq<string>)
    requires multiset(ShardNames(ms)) == multiset(SHARDS) && forall m :: m in ms ==> Follows(hash, m, p, names)
    ensures Executions(ms, p) == multiset(names)
  {
    forall n
      ensures Executions(ms, p)[n] == multiset(names)[n]
    {
      ExecutionsCount(hash, ms, p, names, n);
      HomeIsOneShard(hash, p, n);
    }
  }
}
