/** The fragment of Python's regular expressions that selectors use: its text syntax and its matching. */
module Regex {
  import opened Options

  datatype Regex = Empty | Lit(c: char) | End | Cat(first: Regex, rest: Regex) | Or(left: Regex, right: Regex)

  /** The characters that re.escape prefixes with a backslash. */
  const SPECIAL := "()[]{}?*+-|^$\\.&~# \t\n\r\U{b}\U{c}"

  predicate IsSpecial(c: char) {
    c in SPECIAL
  }

  function Escape(c: char): string {
    if IsSpecial(c) then ['\\', c] else [c]
  }

  // ---- parsing ----

  datatype Parsed = Parsed(regex: Regex, rest: string)

  /** Where a sequence of items stops. */
  predicate Closes(t: string) {
    t == "" || t[0] == '|' || t[0] == ')'
  }

  function ParseAlternatives(t: string): (p: Option<Parsed>)
    ensures p.Some? ==> |p.value.rest| <= |t|
    decreases |t|, 2
  {
    var first := ParseSequence(t);
    if first.None? then None
    else if first.value.rest != "" && first.value.rest[0] == '|' then
      var others := ParseAlternatives(first.value.rest[1..]);
      if others.None? then None else Some(Parsed(Or(first.value.regex, others.value.regex), others.value.rest))
    else first
  }

  function ParseSequence(t: string): (p: Option<Parsed>)
    ensures p.Some? ==> |p.value.rest| <= |t|
    decreases |t|, 1
  {
    if Closes(t) then Some(Parsed(Empty, t))
    else
      var item := ParseItem(t);
      if item.None? then None
      else
        var others := ParseSequence(item.value.rest);
        if others.None? then None else Some(Parsed(Cat(item.value.regex, others.value.regex), others.value.rest))
  }

  /** One group, end anchor, escaped character or plain character; every other special character is outside the fragment. */
  function ParseItem(t: string): (p: Option<Parsed>)
    requires !Closes(t)
    ensures p.Some? ==> |p.value.rest| < |t|
    decreases |t|, 0
  {
    if t[0] == '(' then
      if |t| < 3 || t[1] != '?' || t[2] != ':' then None
      else
        var body := ParseAlternatives(t[3..]);
        if body.None? || body.value.rest == "" || body.value.rest[0] != ')' then None
        else Some(Parsed(body.value.regex, body.value.rest[1..]))
    else if t[0] == '$' then Some(Parsed(End, t[1..]))
    else if t[0] == '\\' then if |t| < 2 || !IsSpecial(t[1]) then None else Some(Parsed(Lit(t[1]), t[2..]))
    else if IsSpecial(t[0]) then None
    else Some(Parsed(Lit(t[0]), t[1..]))
  }

  // ---- matching ----

  /** r matches s from position i up to position j; the end anchor also holds before one final newline. */
  ghost predicate Spans(r: Regex, s: string, i: nat, j: nat) {
    match r
    case Empty => i == j
    case Lit(c) => i < |s| && s[i] == c && j == i + 1
    case End => i == j && AtEnd(s, i)
    case Cat(a, b) => exists k: nat :: Spans(a, s, i, k) && Spans(b, s, k, j)
    case Or(a, b) => Spans(a, s, i, j) || Spans(b, s, i, j)
  }

  predicate AtEnd(s: string, i: nat) {
    i == |s| || (i + 1 == |s| && s[i] == '\n')
  }

  ghost predicate Finds(r: Regex, s: string, i: nat) {
    exists j: nat :: Spans(r, s, i, j)
  }

  /** re.match on a pattern anchored by a caret: None when the pattern is outside the fragment. */
  ghost function ReMatch(pattern: string, s: string): Option<bool> {
    if pattern == "" || pattern[0] != '^' then None
    else
      var p := ParseAlternatives(pattern[1..]);
      if p.None? || p.value.rest != "" then None else Some(Finds(p.value.regex, s, 0))
  }

  lemma CatSpans(a: Regex, b: Regex, s: string, i: nat, j: nat) returns (k: nat)
    requires Spans(Cat(a, b), s, i, j)
    ensures Spans(a, s, i, k) && Spans(b, s, k, j)
  {
    var r := Cat(a, b);
    match r
    case Cat(x, y) => k :| Spans(x, s, i, k) && Spans(y, s, k, j);
  }

  lemma FindsLiteral(c: char, r: Regex, s: string, i: nat)
    ensures Finds(Cat(Lit(c), r), s, i) <==> i < |s| && s[i] == c && Finds(r, s, i + 1)
  {
    if Finds(Cat(Lit(c), r), s, i) {
      var j: nat :| Spans(Cat(Lit(c), r), s, i, j);
      var k := CatSpans(Lit(c), r, s, i, j);
      assert k == i + 1;
    }
    if i < |s| && s[i] == c && Finds(r, s, i + 1) {
      var j: nat :| Spans(r, s, i + 1, j);
      assert Spans(Lit(c), s, i, i + 1);
      assert Spans(Cat(Lit(c), r), s, i, j);
    }
  }

  lemma FindsGroup(r: Regex, s: string, i: nat)
    ensures Finds(Cat(r, Empty), s, i) <==> Finds(r, s, i)
  {
    if Finds(Cat(r, Empty), s, i) {
      var j: nat :| Spans(Cat(r, Empty), s, i, j);
      var k := CatSpans(r, Empty, s, i, j);
    }
    if Finds(r, s, i) {
      var j: nat :| Spans(r, s, i, j);
      assert Spans(Empty, s, j, j);
      assert Spans(Cat(r, Empty), s, i, j);
    }
  }

  lemma FindsEither(a: Regex, b: Regex, s: string, i: nat)
    ensures Finds(Or(a, b), s, i) <==> Finds(a, s, i) || Finds(b, s, i)
  {
    if Finds(Or(a, b), s, i) {
      var j: nat :| Spans(Or(a, b), s, i, j);
      assert Spans(a, s, i, j) || Spans(b, s, i, j);
    }
    if Finds(a, s, i) {
      var j: nat :| Spans(a, s, i, j);
      assert Spans(Or(a, b), s, i, j);
    }
    if Finds(b, s, i) {
      var j: nat :| Spans(b, s, i, j);
      assert Spans(Or(a, b), s, i, j);
    }
  }

  lemma FindsEnd(s: string, i: nat)
    ensures Finds(Cat(End, Empty), s, i) <==> AtEnd(s, i)
    ensures Finds(Empty, s, i)
  {
    FindsGroup(End, s, i);
    if AtEnd(s, i) {
      assert Spans(End, s, i, i);
    }
    assert Spans(Empty, s, i, i);
  }
}
