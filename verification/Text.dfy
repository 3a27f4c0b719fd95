/** String helpers shared by the models of the Go code. */
module Text {

  /** The code points that Go's strings.TrimSpace removes. */
  predicate IsSpace(c: char) {
    || '\U{9}' <= c <= '\U{D}' || c == ' ' || c == '\U{85}' || c == '\U{A0}' || c == '\U{1680}'
    || '\U{2000}' <= c <= '\U{200A}' || c == '\U{2028}' || c == '\U{2029}' || c == '\U{202F}'
    || c == '\U{205F}' || c == '\U{3000}'
  }

  function TrimSpace(s: string): string
    decreases |s|
  {
    if s == [] then s
    else if IsSpace(s[0]) then TrimSpace(s[1..])
    else if IsSpace(s[|s| - 1]) then TrimSpace(s[..|s| - 1])
    else s
  }

  predicate AllSpace(s: string) {
    forall c :: c in s ==> IsSpace(c)
  }

  /** The core of a text: white space before and behind it, and none at its own ends. */
  predicate IsCore(s: string, head: string, core: string, tail: string) {
    && s == head + core + tail && AllSpace(head) && AllSpace(tail)
    && (core != "" ==> !IsSpace(core[0]) && !IsSpace(core[|core| - 1]))
  }

  lemma SpaceBefore(c: char, s: string, head: string, core: string, tail: string)
    requires IsSpace(c) && IsCore(s, head, core, tail)
    ensures IsCore([c] + s, [c] + head, core, tail)
  {
    assert [c] + (head + core + tail) == [c] + head + core + tail;
  }

  lemma SpaceBehind(c: char, s: string, head: string, core: string, tail: string)
    requires IsSpace(c) && IsCore(s, head, core, tail)
    ensures IsCore(s + [c], head, core, tail + [c])
  {
    assert head + core + tail + [c] == head + core + (tail + [c]);
  }

  /** Trimming cuts white space off both ends, all of it and nothing else. */
  lemma {:induction false} TrimmedIsCore(s: string) returns (head: string, tail: string)
    ensures IsCore(s, head, TrimSpace(s), tail)
    decreases |s|
  {
    head, tail := "", "";
    if s != [] && IsSpace(s[0]) {
      head, tail := TrimmedIsCore(s[1..]);
      SpaceBefore(s[0], s[1..], head, TrimSpace(s[1..]), tail);
      assert s == [s[0]] + s[1..];
      head := [s[0]] + head;
    } else if s != [] && IsSpace(s[|s| - 1]) {
      var c := s[|s| - 1];
      head, tail := TrimmedIsCore(s[..|s| - 1]);
      SpaceBehind(c, s[..|s| - 1], head, TrimSpace(s[..|s| - 1]), tail);
      assert s == s[..|s| - 1] + [c];
      tail := tail + [c];
    }
  }

  predicate Blank(s: string) {
    TrimSpace(s) == ""
  }
}
