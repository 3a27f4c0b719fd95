/** The app-shard selector: a prefix tree built in place, printed as one regular expression. */
module Shard {
  import opened Options
  import opened Regex

  const PREFIX_WIDTH := 10
  const MAX_SELECTOR_BYTES := 4096

  function Key(name: string): string {
    if |name| < PREFIX_WIDTH then name else name[..PREFIX_WIDTH]
  }

  function Mark(name: string): string {
    if |name| < PREFIX_WIDTH then "$" else ""
  }

  function Prefixes(key: string): set<string> {
    set i | 0 <= i <= |key| :: key[..i]
  }

  /** The nested dictionaries as paths: every path is a node, some nodes carry a mark. */
  datatype Tree = Tree(nodes: set<string>, marks: map<string, string>)

  function Grown(t: Tree, name: string): Tree {
    Tree(t.nodes + Prefixes(Key(name)), t.marks[Key(name) := Mark(name)])
  }

  function TreeOf(names: seq<string>): Tree {
    if names == [] then Tree({""}, map[]) else Grown(TreeOf(names[..|names| - 1]), names[|names| - 1])
  }

  ghost predicate WellFormed(t: Tree) {
    && "" in t.nodes
    && (forall p :: p in t.nodes ==> |p| <= PREFIX_WIDTH)
    && (forall p, i :: p in t.marks && 0 <= i <= |p| ==> p[..i] in t.nodes)
    && (forall p :: p in t.marks ==> |p| <= PREFIX_WIDTH && t.marks[p] == Mark(p))
  }

  /** Every node lies on the way to some mark. */
  ghost predicate Live(t: Tree) {
    forall p :: p in t.nodes ==> exists m :: m in t.marks && p <= m
  }

  // ---- printing ----

  function Children(t: Tree, path: string): set<char> {
    set p | p in t.nodes && |p| == |path| + 1 && p[..|path|] == path :: p[|path|]
  }

  function Sorted(s: set<char>): (cs: seq<char>)
    ensures forall c :: c in cs <==> c in s
    ensures forall i, j :: 0 <= i < j < |cs| ==> cs[i] < cs[j]
    decreases |s|
  {
    if s == {} then []
    else
      HasLeast(s);
      var c :| c in s && forall d :: d in s ==> c <= d;
      [c] + Sorted(s - {c})
  }

  lemma LesserIsLeast(s: set<char>, c: char, e: char)
    requires c in s && e in s && forall d :: d in s - {c} ==> e <= d
    ensures exists least :: least in s && forall d :: d in s ==> least <= d
  {
    var least := if c < e then c else e;
    forall d | d in s
      ensures least <= d
    {
      assert d == c || d in s - {c};
    }
  }

  lemma {:induction false} HasLeast(s: set<char>)
    requires s != {}
    ensures exists c :: c in s && forall d :: d in s ==> c <= d
    decreases |s|
  {
    var c :| c in s;
    if s - {c} != {} {
      HasLeast(s - {c});
      var e :| e in s - {c} && forall d :: d in s - {c} ==> e <= d;
      LesserIsLeast(s, c, e);
    } else {
      forall d | d in s
        ensures d == c
      {
        assert d !in s - {c};
      }
    }
  }

  function Join(parts: seq<string>): string {
    if parts == [] then "" else if |parts| == 1 then parts[0] else parts[0] + "|" + Join(parts[1..])
  }

  /** A single alternative stands alone, any other number is grouped. */
  function Group(parts: seq<string>): string {
    if |parts| == 1 then parts[0] else "(?:" + Join(parts) + ")"
  }

  function MarkPart(t: Tree, path: string): seq<string> {
    if path in t.marks then [t.marks[path]] else []
  }

  /** One node as text: its mark, then its children by character. */
  function Emit(t: Tree, path: string): string
    decreases PREFIX_WIDTH - |path|, 1, 0
  {
    Group(MarkPart(t, path) + EmitBranches(t, path, Sorted(Children(t, path))))
  }

  function EmitBranches(t: Tree, path: string, cs: seq<char>): (parts: seq<string>)
    ensures |parts| <= |cs|
    decreases PREFIX_WIDTH - |path|, 0, |cs|
  {
    if cs == [] || |path| >= PREFIX_WIDTH then []
    else [Escape(cs[0]) + Emit(t, path + [cs[0]])] + EmitBranches(t, path, cs[1..])
  }

  function Utf8Length(s: string): nat {
    if s == "" then 0
    else
      var c := s[0] as int;
      (if c < 0x80 then 1 else if c < 0x800 then 2 else if c < 0x10000 then 3 else 4) + Utf8Length(s[1..])
  }

  /** The selector, or None when it is over its argument budget. */
  function PatternOf(names: seq<string>): Option<string> {
    var pattern := "^" + Emit(TreeOf(names), "");
    if Utf8Length(pattern) > MAX_SELECTOR_BYTES then None else Some(pattern)
  }

  // ---- building in place ----

  class SelectorTree {
    var nodes: set<string>
    var marks: map<string, string>

    function Value(): Tree
      reads this
    {
      Tree(nodes, marks)
    }

    constructor ()
      ensures Value() == TreeOf([])
    {
      nodes, marks := {""}, map[];
    }

    /** Walks the first ten characters, adding the nodes that are missing, and marks the last. */
    method Insert(name: string)
      requires "" in nodes
      modifies this
      ensures Value() == Grown(old(Value()), name)
    {
      var key := if |name| < PREFIX_WIDTH then name else name[..PREFIX_WIDTH];
      var node := "";
      assert node[..0] == node && node[..0] in Prefixes(node);
      for i := 0 to |key|
        invariant node == key[..i] && nodes == old(nodes) + Prefixes(node) && marks == old(marks)
      {
        PrefixesGrow(node, key[i]);
        node := node + [key[i]];
        nodes := nodes + {node};
      }
      assert node == Key(name);
      marks := marks[node := if |name| < PREFIX_WIDTH then "$" else ""];
    }
  }

  method AppPattern(names: seq<string>) returns (pattern: Option<string>)
    ensures pattern == PatternOf(names)
  {
    var tree := new SelectorTree();
    for i := 0 to |names|
      invariant tree.Value() == TreeOf(names[..i]) && "" in tree.nodes
    {
      tree.Insert(names[i]);
      assert names[..i + 1][..i] == names[..i];
    }
    assert names[..|names|] == names;
    var text := "^" + Emit(tree.Value(), "");
    pattern := if Utf8Length(text) > MAX_SELECTOR_BYTES then None else Some(text);
  }

  lemma PrefixesGrow(key: string, c: char)
    ensures Prefixes(key + [c]) == Prefixes(key) + {key + [c]}
  {
    var longer := key + [c];
    assert forall i :: 0 <= i <= |key| ==> longer[..i] == key[..i];
    assert longer[..|longer|] == longer;
    forall p | p in Prefixes(key)
      ensures p in Prefixes(longer)
    {
      var i :| 0 <= i <= |key| && p == key[..i];
      assert p == longer[..i];
    }
    assert longer == longer[..|key| + 1];
    assert longer in Prefixes(longer);
  }
}
