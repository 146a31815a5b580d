/** Decimal rendering of integers, as strconv.Itoa and the %d verb write them. */
module Decimal {
  import opened Basics

  predicate IsDigit(c: char) { '0' <= c <= '9' }

  function Digits(n: nat): (s: string)
    ensures s != "" && forall i :: 0 <= i < |s| ==> IsDigit(s[i])
  {
    if n < 10 then [('0' as int + n) as char] else Digits(n / 10) + [('0' as int + n % 10) as char]
  }

  function Itoa(n: int): string {
    if n < 0 then "-" + Digits(-n) else Digits(n)
  }

  function Value(s: string): nat
    requires forall i :: 0 <= i < |s| ==> IsDigit(s[i])
  {
    if s == "" then 0
    else
      var last := s[|s| - 1];
      assert IsDigit(last);
      10 * Value(s[..|s| - 1]) + (last as int - '0' as int)
  }

  function Atoi(s: string): Option<int> {
    if s != "" && s[0] == '-' then
      var d := s[1..];
      if d != "" && forall i :: 0 <= i < |d| ==> IsDigit(d[i]) then Some(-(Value(d) as int)) else None
    else if s != "" && forall i :: 0 <= i < |s| ==> IsDigit(s[i]) then Some(Value(s))
    else None
  }

  lemma {:induction false} ValueOfDigits(n: nat)
    ensures Value(Digits(n)) == n
  {
    if n >= 10 {
      ValueOfDigits(n / 10);
      var s := Digits(n);
      assert s[..|s| - 1] == Digits(n / 10);
    } else {
      var s := Digits(n);
      assert s[..|s| - 1] == "";
    }
  }

  /** Reading back what was written. */
  lemma ItoaRoundTrip(n: int)
    ensures Atoi(Itoa(n)) == Some(n)
  {
    if n < 0 {
      ValueOfDigits(-n);
      assert Itoa(n)[1..] == Digits(-n);
    } else {
      ValueOfDigits(n);
    }
  }

  /** A text is cut at its first dash in one way only. */
  lemma {:induction false} FirstDash(a: string, b: string, c: string, d: string)
    requires '-' !in a && '-' !in c && a + ("-" + b) == c + ("-" + d)
    ensures a == c && b == d
    decreases |a|
  {
    var left, right := a + ("-" + b), c + ("-" + d);
    assert left[0] == if a == "" then '-' else a[0];
    assert right[0] == if c == "" then '-' else c[0];
    if a == "" {
      assert b == left[1..] && d == right[1..];
    } else {
      assert left[1..] == a[1..] + ("-" + b) && right[1..] == c[1..] + ("-" + d);
      FirstDash(a[1..], b, c[1..], d);
      assert a == [a[0]] + a[1..] && c == [c[0]] + c[1..];
    }
  }

  lemma NoDashInDigits(n: nat)
    ensures '-' !in Digits(n)
  {}

  lemma ItoaInjective(a: int, b: int)
    requires Itoa(a) == Itoa(b)
    ensures a == b
  {
    ItoaRoundTrip(a);
    ItoaRoundTrip(b);
  }

  /** The number without its sign, and whether it had one. */
  function Magnitude(a: int): string {
    if a < 0 then Digits(-a) else Digits(a)
  }

  lemma SignShows(a: int, rest: string)
    ensures (Itoa(a) + rest)[0] == '-' <==> a < 0
    ensures (Itoa(a) + rest)[if a < 0 then 1 else 0..] == Magnitude(a) + rest
    ensures '-' !in Magnitude(a)
  {
    NoDashInDigits(if a < 0 then -a else a);
  }

  lemma MagnitudeInjective(a: int, b: int)
    requires Magnitude(a) == Magnitude(b) && (a < 0 <==> b < 0)
    ensures a == b
  {
    assert Itoa(a) == Itoa(b);
    ItoaInjective(a, b);
  }

  /** Two dash-separated numbers are told apart whatever their signs. */
  lemma DashedPairInjective(a: int, b: int, c: int, d: int)
    requires Itoa(a) + ("-" + Itoa(b)) == Itoa(c) + ("-" + Itoa(d))
    ensures a == c && b == d
  {
    SignShows(a, "-" + Itoa(b));
    SignShows(c, "-" + Itoa(d));
    FirstDash(Magnitude(a), Itoa(b), Magnitude(c), Itoa(d));
    MagnitudeInjective(a, c);
    ItoaInjective(b, d);
  }
}
