/** The printed selector, read back as a regular expression, selects exactly the hash cohort. */
module ShardExact {
  import opened Options
  import opened Regex
  import opened Shard

  // ---- what the printed text reads back as ----

  function Shape(t: Tree, path: string): Regex
    decreases PREFIX_WIDTH - |path|, 1, 0
  {
    GroupShape(MarkShapes(t, path) + BranchShapes(t, path, Sorted(Children(t, path))))
  }

  function GroupShape(shapes: seq<Regex>): Regex {
    if |shapes| == 1 then shapes[0] else Cat(Alternatives(shapes), Empty)
  }

  function MarkShapes(t: Tree, path: string): seq<Regex> {
    if path in t.marks then [MarkShape(t.marks[path])] else []
  }

  function MarkShape(mark: string): Regex {
    if mark == "$" then Cat(End, Empty) else Empty
  }

  function BranchShapes(t: Tree, path: string, cs: seq<char>): seq<Regex>
    decreases PREFIX_WIDTH - |path|, 0, |cs|
  {
    if cs == [] || |path| >= PREFIX_WIDTH then []
    else [Cat(Lit(cs[0]), Shape(t, path + [cs[0]]))] + BranchShapes(t, path, cs[1..])
  }

  function Alternatives(shapes: seq<Regex>): Regex {
    if shapes == [] then Empty else if |shapes| == 1 then shapes[0] else Or(shapes[0], Alternatives(shapes[1..]))
  }

  /** In any context that closes it, the text reads as this expression. */
  ghost predicate ReadsAs(text: string, shape: Regex) {
    forall rest :: Closes(rest) ==> ParseSequence(text + rest) == Some(Parsed(shape, rest))
  }

  ghost predicate AllReadAs(parts: seq<string>, shapes: seq<Regex>) {
    |parts| == |shapes| && forall i :: 0 <= i < |parts| ==> ReadsAs(parts[i], shapes[i])
  }

  lemma MarkReads(mark: string)
    requires mark == "$" || mark == ""
    ensures ReadsAs(mark, MarkShape(mark))
  {
    forall rest | Closes(rest)
      ensures ParseSequence(mark + rest) == Some(Parsed(MarkShape(mark), rest))
    {
      var t := mark + rest;
      if mark == "" {
        assert t == rest;
      } else {
        assert t[0] == '$' && t[1..] == rest;
        assert ParseItem(t) == Some(Parsed(End, rest));
      }
    }
  }

  lemma EscapedItem(c: char, rest: string)
    ensures !Closes(Escape(c) + rest) && ParseItem(Escape(c) + rest) == Some(Parsed(Lit(c), rest))
  {
    var t := Escape(c) + rest;
    if IsSpecial(c) {
      assert t[0] == '\\' && t[1] == c && t[2..] == rest;
    } else {
      assert t[0] == c && t[1..] == rest;
    }
  }

  lemma LiteralReads(c: char, text: string, shape: Regex)
    requires ReadsAs(text, shape)
    ensures ReadsAs(Escape(c) + text, Cat(Lit(c), shape))
  {
    forall rest | Closes(rest)
      ensures ParseSequence(Escape(c) + text + rest) == Some(Parsed(Cat(Lit(c), shape), rest))
    {
      assert Escape(c) + text + rest == Escape(c) + (text + rest);
      EscapedItem(c, text + rest);
    }
  }

  lemma {:induction false} JoinReads(parts: seq<string>, shapes: seq<Regex>, rest: string)
    requires AllReadAs(parts, shapes) && rest != "" && rest[0] == ')'
    ensures ParseAlternatives(Join(parts) + rest) == Some(Parsed(Alternatives(shapes), rest))
  {
    if parts == [] {
      assert Join(parts) + rest == rest;
    } else if |parts| == 1 {
      OneReads(parts[0], shapes[0], rest);
    } else {
      JoinReads(parts[1..], shapes[1..], rest);
      BarReads(parts[0], shapes[0], Join(parts[1..]) + rest, Alternatives(shapes[1..]), rest);
      JoinSplits(parts, rest);
    }
  }

  lemma JoinSplits(parts: seq<string>, rest: string)
    requires |parts| > 1
    ensures Join(parts) + rest == parts[0] + ("|" + (Join(parts[1..]) + rest))
  {
  }

  lemma OneReads(text: string, shape: Regex, rest: string)
    requires ReadsAs(text, shape) && rest != "" && rest[0] == ')'
    ensures ParseAlternatives(text + rest) == Some(Parsed(shape, rest))
  {
    assert ParseSequence(text + rest) == Some(Parsed(shape, rest));
  }

  lemma BarReads(text: string, shape: Regex, more: string, others: Regex, rest: string)
    requires ReadsAs(text, shape) && ParseAlternatives(more) == Some(Parsed(others, rest))
    ensures ParseAlternatives(text + ("|" + more)) == Some(Parsed(Or(shape, others), rest))
  {
    assert ParseSequence(text + ("|" + more)) == Some(Parsed(shape, "|" + more));
    assert ("|" + more)[1..] == more;
  }

  lemma GroupReads(parts: seq<string>, shapes: seq<Regex>)
    requires AllReadAs(parts, shapes)
    ensures ReadsAs(Group(parts), GroupShape(shapes))
  {
    if |parts| != 1 {
      forall rest | Closes(rest)
        ensures ParseSequence(Group(parts) + rest) == Some(Parsed(GroupShape(shapes), rest))
      {
        GroupParses(parts, shapes, rest);
      }
    }
  }

  lemma GroupParses(parts: seq<string>, shapes: seq<Regex>, rest: string)
    requires AllReadAs(parts, shapes) && |parts| != 1 && Closes(rest)
    ensures ParseSequence(Group(parts) + rest) == Some(Parsed(GroupShape(shapes), rest))
  {
    var body := Join(parts) + (")" + rest);
    JoinReads(parts, shapes, ")" + rest);
    assert Group(parts) + rest == "(?:" + body;
    GroupItem(body, Alternatives(shapes), rest);
    assert ParseSequence(rest) == Some(Parsed(Empty, rest));
  }

  lemma GroupItem(body: string, shape: Regex, rest: string)
    requires ParseAlternatives(body) == Some(Parsed(shape, ")" + rest))
    ensures !Closes("(?:" + body) && ParseItem("(?:" + body) == Some(Parsed(shape, rest))
  {
    var t := "(?:" + body;
    assert t[0] == '(' && t[1] == '?' && t[2] == ':' && t[3..] == body;
    assert (")" + rest)[1..] == rest;
  }

  /** Printing a node and parsing the text back gives its shape, in every closing context. */
  lemma {:induction false} EmitReads(t: Tree, path: string)
    requires WellFormed(t)
    ensures ReadsAs(Emit(t, path), Shape(t, path))
    decreases PREFIX_WIDTH - |path|, 1, 0
  {
    var cs := Sorted(Children(t, path));
    BranchesRead(t, path, cs);
    MarksRead(t, path);
    ReadsJoin(MarkPart(t, path), MarkShapes(t, path), EmitBranches(t, path, cs), BranchShapes(t, path, cs));
    GroupReads(MarkPart(t, path) + EmitBranches(t, path, cs), MarkShapes(t, path) + BranchShapes(t, path, cs));
  }

  lemma MarksRead(t: Tree, path: string)
    requires WellFormed(t)
    ensures AllReadAs(MarkPart(t, path), MarkShapes(t, path))
  {
    if path in t.marks {
      MarkReads(t.marks[path]);
    }
  }

  lemma ReadsJoin(p: seq<string>, x: seq<Regex>, q: seq<string>, y: seq<Regex>)
    requires AllReadAs(p, x) && AllReadAs(q, y)
    ensures AllReadAs(p + q, x + y)
  {
  }

  lemma {:induction false} BranchesRead(t: Tree, path: string, cs: seq<char>)
    requires WellFormed(t)
    ensures AllReadAs(EmitBranches(t, path, cs), BranchShapes(t, path, cs))
    decreases PREFIX_WIDTH - |path|, 0, |cs|
  {
    if cs != [] && |path| < PREFIX_WIDTH {
      var child := path + [cs[0]];
      EmitReads(t, child);
      LiteralReads(cs[0], Emit(t, child), Shape(t, child));
      BranchesRead(t, path, cs[1..]);
      ReadsJoin([Escape(cs[0]) + Emit(t, child)], [Cat(Lit(cs[0]), Shape(t, child))], EmitBranches(t, path, cs[1..]), BranchShapes(t, path, cs[1..]));
    }
  }

  // ---- what the shape matches ----

  /** Some mark at or below path fits s. */
  ghost predicate Listed(t: Tree, path: string, s: string) {
    exists m :: m in t.marks && path <= m && Fits(m, t.marks[m], s)
  }

  predicate Fits(m: string, mark: string, s: string) {
    m <= s && (mark == "$" ==> AtEnd(s, |m|))
  }

  lemma {:induction false} FindsSome(shapes: seq<Regex>, s: string, i: nat)
    requires shapes != []
    ensures Finds(Alternatives(shapes), s, i) <==> exists k :: 0 <= k < |shapes| && Finds(shapes[k], s, i)
  {
    if |shapes| > 1 {
      FindsEither(shapes[0], Alternatives(shapes[1..]), s, i);
      FindsSome(shapes[1..], s, i);
      assert forall k :: 0 < k < |shapes| ==> shapes[k] == shapes[1..][k - 1];
    }
  }

  lemma FindsAny(shapes: seq<Regex>, s: string, i: nat)
    requires shapes != []
    ensures Finds(GroupShape(shapes), s, i) <==> AnyFinds(shapes, s, i)
  {
    FindsSome(shapes, s, i);
    FindsGroup(Alternatives(shapes), s, i);
  }

  ghost predicate AnyFinds(shapes: seq<Regex>, s: string, i: nat) {
    exists k :: 0 <= k < |shapes| && Finds(shapes[k], s, i)
  }

  lemma AnyFindsJoin(x: seq<Regex>, y: seq<Regex>, s: string, i: nat)
    ensures AnyFinds(x + y, s, i) <==> AnyFinds(x, s, i) || AnyFinds(y, s, i)
  {
    assert forall k :: 0 <= k < |x| ==> (x + y)[k] == x[k];
    assert forall k :: 0 <= k < |y| ==> (x + y)[|x| + k] == y[k];
  }

  /** From a node that s already follows, the shape finds a match exactly when a mark below fits. */
  lemma {:induction false} ShapeFinds(t: Tree, path: string, s: string)
    requires WellFormed(t) && Live(t) && path in t.nodes && path <= s
    ensures Finds(Shape(t, path), s, |path|) <==> Listed(t, path, s)
    decreases PREFIX_WIDTH - |path|, 1, 0
  {
    var cs := Sorted(Children(t, path));
    ChildrenAreNodes(t, path);
    BranchesFind(t, path, s, cs);
    LiveHasPart(t, path);
    FindsAny(MarkShapes(t, path) + BranchShapes(t, path, cs), s, |path|);
    AnyFindsJoin(MarkShapes(t, path), BranchShapes(t, path, cs), s, |path|);
    MarkFinds(t, path, s);
    ListedSplits(t, path, s);
  }

  lemma MarkFinds(t: Tree, path: string, s: string)
    requires WellFormed(t) && path <= s
    ensures AnyFinds(MarkShapes(t, path), s, |path|) <==> path in t.marks && Fits(path, t.marks[path], s)
  {
    FindsEnd(s, |path|);
    if path in t.marks {
      assert MarkShapes(t, path)[0] == MarkShape(t.marks[path]);
    }
  }

  lemma ChildrenAreNodes(t: Tree, path: string)
    ensures forall c :: c in Children(t, path) <==> path + [c] in t.nodes
  {
    forall c
      ensures c in Children(t, path) <==> path + [c] in t.nodes
    {
      if c in Children(t, path) {
        var p :| p in t.nodes && |p| == |path| + 1 && p[..|path|] == path && p[|path|] == c;
        assert p == path + [c];
      }
      if path + [c] in t.nodes {
        assert (path + [c])[..|path|] == path && (path + [c])[|path|] == c;
      }
    }
  }

  /** Some child below path in cs is followed by s into a fitting mark. */
  ghost predicate ListedBelow(t: Tree, path: string, cs: seq<char>, s: string) {
    exists c :: c in cs && Listed(t, path + [c], s)
  }

  lemma {:induction false} BranchesFind(t: Tree, path: string, s: string, cs: seq<char>)
    requires WellFormed(t) && Live(t) && path <= s
    requires forall c :: c in cs ==> path + [c] in t.nodes
    ensures AnyFinds(BranchShapes(t, path, cs), s, |path|) <==> ListedBelow(t, path, cs, s)
    decreases PREFIX_WIDTH - |path|, 0, |cs|
  {
    if cs != [] {
      var c, child := cs[0], path + [cs[0]];
      assert c in cs && child in t.nodes;
      BranchesFind(t, path, s, cs[1..]);
      ChildFinds(t, path, c, s);
      BranchesStep(t, path, cs, s);
    }
  }

  lemma {:induction false} ChildFinds(t: Tree, path: string, c: char, s: string)
    requires WellFormed(t) && Live(t) && path <= s && path + [c] in t.nodes
    ensures AnyFinds([Cat(Lit(c), Shape(t, path + [c]))], s, |path|) <==> Listed(t, path + [c], s)
    decreases PREFIX_WIDTH - |path|, 0, 0
  {
    if path + [c] <= s {
      ShapeFinds(t, path + [c], s);
    }
    BranchFinds(t, path, c, s);
  }

  lemma BranchesStep(t: Tree, path: string, cs: seq<char>, s: string)
    requires cs != [] && |path| < PREFIX_WIDTH
    requires AnyFinds([Cat(Lit(cs[0]), Shape(t, path + [cs[0]]))], s, |path|) <==> Listed(t, path + [cs[0]], s)
    requires AnyFinds(BranchShapes(t, path, cs[1..]), s, |path|) <==> ListedBelow(t, path, cs[1..], s)
    ensures AnyFinds(BranchShapes(t, path, cs), s, |path|) <==> ListedBelow(t, path, cs, s)
  {
    AnyFindsJoin([Cat(Lit(cs[0]), Shape(t, path + [cs[0]]))], BranchShapes(t, path, cs[1..]), s, |path|);
    BelowSplits(t, path, cs, s);
  }

  lemma BranchFinds(t: Tree, path: string, c: char, s: string)
    requires path <= s
    requires path + [c] <= s ==> (Finds(Shape(t, path + [c]), s, |path| + 1) <==> Listed(t, path + [c], s))
    ensures AnyFinds([Cat(Lit(c), Shape(t, path + [c]))], s, |path|) <==> Listed(t, path + [c], s)
  {
    var branch := Cat(Lit(c), Shape(t, path + [c]));
    assert [branch][0] == branch;
    FindsLiteral(c, Shape(t, path + [c]), s, |path|);
    FollowsOne(path, c, s);
    ListedFollows(t, path + [c], s);
  }

  lemma BelowSplits(t: Tree, path: string, cs: seq<char>, s: string)
    requires cs != []
    ensures ListedBelow(t, path, cs, s) <==> Listed(t, path + [cs[0]], s) || ListedBelow(t, path, cs[1..], s)
  {
    assert cs == [cs[0]] + cs[1..];
  }

  lemma FollowsOne(path: string, c: char, s: string)
    requires path <= s
    ensures path + [c] <= s <==> |path| < |s| && s[|path|] == c
  {
  }

  lemma ListedFollows(t: Tree, path: string, s: string)
    ensures Listed(t, path, s) ==> path <= s
  {
  }

  lemma LiveHasPart(t: Tree, path: string)
    requires WellFormed(t) && Live(t) && path in t.nodes
    ensures path in t.marks || (|path| < PREFIX_WIDTH && Children(t, path) != {})
  {
    var m :| m in t.marks && path <= m;
    if m != path {
      ChildrenAreNodes(t, path);
      assert m[..|path| + 1] == path + [m[|path|]];
      assert m[|path|] in Children(t, path);
    }
  }

  /** A fitting mark is the node's own or lies below a child. */
  lemma ListedSplits(t: Tree, path: string, s: string)
    requires WellFormed(t) && path in t.nodes && path <= s
    ensures Listed(t, path, s) <==>
            || (path in t.marks && Fits(path, t.marks[path], s))
            || ListedBelow(t, path, Sorted(Children(t, path)), s)
  {
    var cs := Sorted(Children(t, path));
    ChildrenAreNodes(t, path);
    if Listed(t, path, s) {
      var m :| m in t.marks && path <= m && Fits(m, t.marks[m], s);
      if m != path {
        var c := m[|path|];
        assert m[..|path| + 1] == path + [c];
        assert c in cs && Listed(t, path + [c], s);
      }
    }
    if ListedBelow(t, path, cs, s) {
      var c :| c in cs && Listed(t, path + [c], s);
      var m :| m in t.marks && path + [c] <= m && Fits(m, t.marks[m], s);
      assert path <= m;
    }
  }

  // ---- the tree of a name list ----

  ghost predicate Selects(names: seq<string>, s: string) {
    exists n :: n in names && if |n| < PREFIX_WIDTH then s == n || s == n + "\n" else n[..PREFIX_WIDTH] <= s
  }

  lemma {:induction false} TreeIsWellFormed(names: seq<string>)
    ensures WellFormed(TreeOf(names))
  {
    if names != [] {
      TreeIsWellFormed(names[..|names| - 1]);
      GrownIsWellFormed(TreeOf(names[..|names| - 1]), names[|names| - 1]);
    }
  }

  lemma {:induction false} TreeMarks(names: seq<string>)
    ensures forall p :: p in TreeOf(names).marks <==> exists n :: n in names && Key(n) == p
  {
    if names != [] {
      var rest, name := names[..|names| - 1], names[|names| - 1];
      TreeMarks(rest);
      assert names == rest + [name];
      forall p
        ensures p in TreeOf(names).marks <==> exists n :: n in names && Key(n) == p
      {
        assert p in TreeOf(names).marks <==> p in TreeOf(rest).marks || p == Key(name);
      }
    }
  }

  lemma {:induction false} TreeIsLive(names: seq<string>)
    requires names != []
    ensures Live(TreeOf(names))
  {
    var rest := names[..|names| - 1];
    if rest == [] {
      assert TreeOf(rest).nodes == {""};
    } else {
      TreeIsLive(rest);
    }
    GrownIsLive(TreeOf(rest), names[|names| - 1]);
  }

  lemma GrownIsWellFormed(t: Tree, name: string)
    requires WellFormed(t)
    ensures WellFormed(Grown(t, name))
  {
    var key := Key(name);
    assert Mark(key) == Mark(name);
    assert forall i :: 0 <= i <= |key| ==> key[..i] in Prefixes(key);
  }

  lemma GrownIsLive(t: Tree, name: string)
    requires forall p :: p in t.nodes ==> p == "" || exists m :: m in t.marks && p <= m
    ensures Live(Grown(t, name))
  {
    var key, g := Key(name), Grown(t, name);
    forall p | p in g.nodes
      ensures exists m :: m in g.marks && p <= m
    {
      if p == "" || p in Prefixes(key) {
        assert key in g.marks && p <= key;
      } else {
        var m :| m in t.marks && p <= m;
        assert m in g.marks;
      }
    }
  }

  lemma ListedIsSelected(names: seq<string>, s: string)
    ensures Listed(TreeOf(names), "", s) <==> Selects(names, s)
  {
    var t := TreeOf(names);
    TreeMarks(names);
    TreeIsWellFormed(names);
    if Listed(t, "", s) {
      var m :| m in t.marks && "" <= m && Fits(m, t.marks[m], s);
      var n :| n in names && Key(n) == m;
      FitsName(n, s);
    }
    if Selects(names, s) {
      var n :| n in names && if |n| < PREFIX_WIDTH then s == n || s == n + "\n" else n[..PREFIX_WIDTH] <= s;
      FitsName(n, s);
      assert Key(n) in t.marks && t.marks[Key(n)] == Mark(n);
    }
  }

  lemma FitsName(n: string, s: string)
    ensures Mark(Key(n)) == Mark(n)
    ensures Fits(Key(n), Mark(n), s) <==> if |n| < PREFIX_WIDTH then s == n || s == n + "\n" else n[..PREFIX_WIDTH] <= s
  {
    if |n| < PREFIX_WIDTH && n <= s && AtEnd(s, |n|) && |s| > |n| {
      assert s == n + "\n";
    }
  }

  /** For every text the emitted selector matches exactly the listed short names and ten-character prefixes. */
  lemma PatternIsExact(names: seq<string>, s: string)
    requires names != [] && PatternOf(names).Some?
    ensures ReMatch(PatternOf(names).value, s) == Some(Selects(names, s))
  {
    var t := TreeOf(names);
    TreeIsWellFormed(names);
    TreeIsLive(names);
    PatternReads(names, s);
    ShapeFinds(t, "", s);
    ListedIsSelected(names, s);
  }

  lemma PatternReads(names: seq<string>, s: string)
    requires PatternOf(names).Some?
    ensures ReMatch(PatternOf(names).value, s) == Some(Finds(Shape(TreeOf(names), ""), s, 0))
  {
    var t := TreeOf(names);
    TreeIsWellFormed(names);
    EmitReads(t, "");
    var text := Emit(t, "");
    assert PatternOf(names).value[1..] == text == text + "";
    assert ParseSequence(text + "") == Some(Parsed(Shape(t, ""), ""));
  }

  lemma {:induction false} AsciiBytes(s: string)
    requires forall c :: c in s ==> c as int < 128
    ensures Utf8Length(s) == |s|
  {
    if s != "" {
      assert s[0] in s && forall c :: c in s[1..] ==> c in s;
      AsciiBytes(s[1..]);
    }
  }

  /** An ASCII selector is refused exactly when it is longer than 4096 characters. */
  lemma RefusedExactlyWhen(names: seq<string>)
    requires forall c :: c in "^" + Emit(TreeOf(names), "") ==> c as int < 128
    ensures PatternOf(names).None? <==> |"^" + Emit(TreeOf(names), "")| > 4096
  {
    AsciiBytes("^" + Emit(TreeOf(names), ""));
  }

  /** The empty list is the one exception: its selector is an empty group, which matches every text. */
  lemma PatternIsExactExactlyWhen(names: seq<string>)
    requires PatternOf(names).Some?
    ensures (forall s :: ReMatch(PatternOf(names).value, s) == Some(Selects(names, s))) <==> names != []
  {
    if names != [] {
      forall s
        ensures ReMatch(PatternOf(names).value, s) == Some(Selects(names, s))
      {
        PatternIsExact(names, s);
      }
    } else {
      EmptyMatches("");
      assert !Selects([], "");
    }
  }

  lemma EmptyMatches(s: string)
    requires PatternOf([]).Some?
    ensures ReMatch(PatternOf([]).value, s) == Some(true)
  {
    var t := TreeOf([]);
    assert Children(t, "") == {};
    assert MarkShapes(t, "") + BranchShapes(t, "", []) == [];
    assert Shape(t, "") == Cat(Empty, Empty);
    PatternReads([], s);
    FindsGroup(Empty, s, 0);
    FindsEnd(s, 0);
  }
}
