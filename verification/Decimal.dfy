/**
 Decimal text: what printf writes for %0kd and %f, and what strtod reads of it.
 */
module Decimal {

  predicate Digit(c: char) { '0' <= c <= '9' }

  function ToChar(d: nat): char
    requires d < 10
  {
    '0' + d as char
  }

  function DigitValue(c: char): nat {
    if Digit(c) then (c as int) - ('0' as int) else 0
  }

  ghost predicate Digits(s: string) { forall k :: 0 <= k < |s| ==> Digit(s[k]) }

  /** The number that a string of digits spells. */
  function Value(s: string): nat {
    if s == "" then 0 else 10 * Value(s[..|s| - 1]) + DigitValue(s[|s| - 1])
  }

  /** n in decimal, with zeros in front up to k characters. */
  function Padded(n: nat, k: nat): string
    decreases n, k
  {
    if n < 10 && k <= 1 then [ToChar(n)]
    else Padded(n / 10, if k == 0 then 0 else k - 1) + [ToChar(n % 10)]
  }

  function Pow10(k: nat): nat
    ensures Pow10(k) > 0
  {
    if k == 0 then 1 else 10 * Pow10(k - 1)
  }

  lemma {:induction false} PaddedReads(n: nat, k: nat)
    ensures Digits(Padded(n, k)) && Value(Padded(n, k)) == n && Padded(n, k) != ""
    decreases n, k
  {
    if n < 10 && k <= 1 {
      assert Padded(n, k)[..0] == "";
    } else {
      var m := if k == 0 then 0 else k - 1;
      PaddedReads(n / 10, m);
      assert Padded(n, k)[..|Padded(n, k)| - 1] == Padded(n / 10, m);
    }
  }

  /** A number of at most k digits takes exactly k characters. */
  lemma {:induction false} PaddedLength(n: nat, k: nat)
    requires k >= 1
    ensures n < Pow10(k) ==> |Padded(n, k)| == k
    ensures n >= Pow10(k) ==> |Padded(n, k)| > k
    decreases k
  {
    if k > 1 {
      PaddedLength(n / 10, k - 1);
    } else if n >= 10 {
      PaddedReads(n / 10, 0);
    }
  }

  lemma ValueOneMore(a: string, c: char)
    ensures Value(a + [c]) == 10 * Value(a) + DigitValue(c)
  {
    assert (a + [c])[..|a|] == a;
  }

  /** Two more digits. */
  lemma ValueTwoMore(a: string, b: string)
    requires |b| == 2
    ensures Value(a + b) == 100 * Value(a) + Value(b)
  {
    ValueOneMore(a, b[0]);
    ValueOneMore(a + [b[0]], b[1]);
    ValueOneMore([b[0]], b[1]);
    ValueOneMore([], b[0]);
    assert a + b == a + [b[0]] + [b[1]] && b == [b[0]] + [b[1]] && [] + [b[0]] == [b[0]];
  }

  /** The number of digits that a text starts with. */
  function Span(s: string): (n: nat)
    ensures n <= |s| && Digits(s[..n]) && (n < |s| ==> !Digit(s[n]))
  {
    if s == "" || !Digit(s[0]) then 0 else SpanStep(s, 1 + Span(s[1..]))
  }

  function SpanStep(s: string, n: nat): (r: nat)
    requires s != "" && Digit(s[0]) && 1 <= n <= |s| && Digits(s[1..][..n - 1])
    ensures r == n && Digits(s[..n])
  {
    assert s[..n] == [s[0]] + s[1..][..n - 1];
    n
  }

  /** n as k digits after the point. */
  function Fraction(n: nat, k: nat): real {
    if k == 0 then n as real else Fraction(n, k - 1) / 10.0
  }

  lemma FractionFour(n: nat)
    ensures Fraction(n, 4) == n as real / 10000.0
  {
    assert Fraction(n, 1) == Fraction(n, 0) / 10.0 == n as real / 10.0;
    assert Fraction(n, 2) == Fraction(n, 1) / 10.0;
    assert Fraction(n, 3) == Fraction(n, 2) / 10.0;
  }

  lemma FractionSix(n: nat)
    ensures Fraction(n, 6) == n as real / 1000000.0
  {
    FractionFour(n);
    assert Fraction(n, 5) == Fraction(n, 4) / 10.0;
    assert Fraction(n, 6) == Fraction(n, 5) / 10.0;
  }

  /** The decimal number without sign that a text starts with. */
  function Unsigned(s: string): real {
    var i := Span(s);
    var whole := Value(s[..i]) as real;
    if i < |s| && s[i] == '.' then
      var rest := s[i + 1..];
      var j := Span(rest);
      whole + Fraction(Value(rest[..j]), j)
    else whole
  }

  /** strtod, for decimal numbers without exponent. */
  function Read(s: string): real {
    if s != "" && s[0] == '-' then -Unsigned(s[1..]) else Unsigned(s)
  }

  lemma SpanIs(a: string, c: char, b: string)
    requires Digits(a) && !Digit(c)
    ensures Span(a + [c] + b) == |a|
    decreases |a|
  {
    var s := a + [c] + b;
    if a != "" {
      SpanIs(a[1..], c, b);
      assert s[1..] == a[1..] + [c] + b;
    }
  }

  lemma SpanAll(a: string)
    requires Digits(a)
    ensures Span(a) == |a|
  {
  }

  /** Reading "whole.fraction". */
  lemma ReadFixed(a: string, b: string)
    requires a != "" && Digits(a) && Digits(b)
    ensures var s := a + "." + b; s[0] != '-' && Read(s) == Unsigned(s) == Value(a) as real + Fraction(Value(b), |b|)
  {
    var s := a + "." + b;
    SpanIs(a, '.', b);
    SpanAll(b);
    assert s[..|a|] == a && s[|a|] == '.' && s[|a| + 1..] == b && s[0] == a[0];
    assert b[..|b|] == b;
  }

  function Abs(x: real): real { if x < 0.0 then -x else x }

  /** The nearest number of millionths. */
  function Millionths(x: real): nat
    requires x >= 0.0
  {
    (x * 1000000.0 + 0.5).Floor
  }

  /** What %f writes: six decimals. */
  function Fixed(x: real): string {
    if x < 0.0 then ['-'] + Plain(Millionths(-x)) else Plain(Millionths(x))
  }

  function Plain(n: nat): string { Padded(n / 1000000, 1) + "." + Padded(n % 1000000, 6) }

  lemma Parts(n: nat)
    ensures (n / 1000000) as real + (n % 1000000) as real / 1000000.0 == n as real / 1000000.0
  {
    assert n as real == (n / 1000000) as real * 1000000.0 + (n % 1000000) as real;
  }

  lemma PlainReads(n: nat)
    ensures var s := Plain(n); s != "" && s[0] != '-' && Read(s) == Unsigned(s) == n as real / 1000000.0
  {
    PaddedReads(n / 1000000, 1);
    PaddedReads(n % 1000000, 6);
    assert Pow10(6) == 1000000;
    PaddedLength(n % 1000000, 6);
    ReadFixed(Padded(n / 1000000, 1), Padded(n % 1000000, 6));
    FractionSix(n % 1000000);
    Parts(n);
  }

  lemma MillionthsNear(x: real)
    requires x >= 0.0
    ensures -0.0000005 <= Millionths(x) as real / 1000000.0 - x <= 0.0000005
  {
  }

  /** What %f writes is read back within half a millionth. */
  lemma FixedReads(x: real)
    ensures -0.0000005 <= Read(Fixed(x)) - x <= 0.0000005
  {
    PlainReads(Millionths(Abs(x)));
    MillionthsNear(Abs(x));
  }
}
