/** The strings behind Outbox.Ref: distinct parts and attempts never share a message reference. */
module PartRefs {

  function Digit(d: nat): char
    requires d < 10
  {
    ['0', '1', '2', '3', '4', '5', '6', '7', '8', '9'][d]
  }

  function Decimal(n: nat): string {
    if n < 10 then [Digit(n)] else Decimal(n / 10) + [Digit(n % 10)]
  }

  function Head(id: string, legacy: bool): string {
    "message-" + id + (if legacy then "-" else "-compact-")
  }

  function PartRef(id: string, legacy: bool, part: nat, attempt: nat): string {
    Head(id, legacy) + (Decimal(part + 1) + Retry(attempt))
  }

  function Retry(attempt: nat): string {
    if attempt == 0 then "" else "-retry-" + Decimal(attempt)
  }

  predicate IsDigit(c: char) {
    '0' <= c <= '9'
  }

  predicate Digits(s: string) {
    forall i :: 0 <= i < |s| ==> IsDigit(s[i])
  }

  lemma {:induction false} DecimalIsDigits(n: nat)
    ensures Digits(Decimal(n)) && Decimal(n) != ""
  {
    if n >= 10 {
      DecimalIsDigits(n / 10);
    }
  }

  lemma DigitIsInjective(c: nat, d: nat)
    requires c < 10 && d < 10 && Digit(c) == Digit(d)
    ensures c == d
  {
  }

  lemma ShortIsDigit(n: nat)
    ensures n < 10 <==> |Decimal(n)| == 1
  {
    if n >= 10 {
      DecimalIsDigits(n / 10);
    }
  }

  lemma {:induction false} DecimalIsInjective(m: nat, n: nat)
    requires Decimal(m) == Decimal(n)
    ensures m == n
  {
    ShortIsDigit(m);
    ShortIsDigit(n);
    if m < 10 {
      DigitIsInjective(m, n);
    } else {
      LastDigit(Decimal(m / 10), m % 10, Decimal(n / 10), n % 10);
      DecimalIsInjective(m / 10, n / 10);
    }
  }

  lemma LastDigit(a: string, c: nat, b: string, d: nat)
    requires c < 10 && d < 10 && a + [Digit(c)] == b + [Digit(d)]
    ensures a == b && c == d
  {
    var s := a + [Digit(c)];
    assert a == s[..|s| - 1] == b;
    assert s[|s| - 1] == Digit(c) == Digit(d);
    DigitIsInjective(c, d);
  }

  /** How many digits a string starts with. */
  function Lead(s: string): (n: nat)
    ensures n <= |s|
  {
    if s == "" || !IsDigit(s[0]) then 0 else 1 + Lead(s[1..])
  }

  lemma {:induction false} LeadCounts(a: string, x: string)
    requires Digits(a) && (x != "" ==> !IsDigit(x[0]))
    ensures Lead(a + x) == |a|
  {
    if a == "" {
      assert a + x == x;
    } else {
      assert (a + x)[1..] == a[1..] + x;
      LeadCounts(a[1..], x);
    }
  }

  /** A number and what follows it can be told apart when what follows does not start with a digit. */
  lemma SplitsUniquely(a: string, x: string, b: string, y: string)
    requires Digits(a) && Digits(b) && a + x == b + y
    requires (x != "" ==> !IsDigit(x[0])) && (y != "" ==> !IsDigit(y[0]))
    ensures a == b && x == y
  {
    LeadCounts(a, x);
    LeadCounts(b, y);
    assert a == (a + x)[..|a|] && x == (a + x)[|a|..];
    assert b == (b + y)[..|b|] && y == (b + y)[|b|..];
  }

  lemma SameTail(head: string, a: string, b: string)
    requires head + a == head + b
    ensures a == b
  {
    assert a == (head + a)[|head|..] == (head + b)[|head|..] == b;
  }

  /** Two dispatch attempts of one result share a reference only when they are the same attempt of the same part. */
  lemma PartRefIsInjective(id: string, legacy: bool, part: nat, attempt: nat, part': nat, attempt': nat)
    ensures PartRef(id, legacy, part, attempt) == PartRef(id, legacy, part', attempt') <==> part == part' && attempt == attempt'
  {
    if PartRef(id, legacy, part, attempt) == PartRef(id, legacy, part', attempt') {
      SameTail(Head(id, legacy), Decimal(part + 1) + Retry(attempt), Decimal(part' + 1) + Retry(attempt'));
      DecimalIsDigits(part + 1);
      DecimalIsDigits(part' + 1);
      SplitsUniquely(Decimal(part + 1), Retry(attempt), Decimal(part' + 1), Retry(attempt'));
      DecimalIsInjective(part + 1, part' + 1);
      RetryIsInjective(attempt, attempt');
    }
  }

  lemma RetryIsInjective(m: nat, n: nat)
    requires Retry(m) == Retry(n)
    ensures m == n
  {
    DecimalIsDigits(m);
    DecimalIsDigits(n);
    if m != 0 && n != 0 {
      assert Decimal(m) == Retry(m)[7..] && Decimal(n) == Retry(n)[7..];
      DecimalIsInjective(m, n);
    }
  }
}
