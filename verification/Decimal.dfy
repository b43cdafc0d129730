/**
 Decimal digits: the numbers digit strings denote, how %d prints one, and Go's
 wrapping accumulation of digits.
 */
module Decimals {

  predicate IsDigit(c: char) {
    '0' <= c <= '9'
  }

  predicate NoDigits(s: string) {
    forall i :: 0 <= i < |s| ==> !IsDigit(s[i])
  }

  predicate OnlyDigits(s: string) {
    forall i :: 0 <= i < |s| ==> IsDigit(s[i])
  }

  predicate AllDigits(s: string) {
    s != [] && OnlyDigits(s)
  }

  function Digit(c: char): (d: nat)
    requires IsDigit(c)
    ensures d < 10
  {
    c as int - '0' as int
  }

  function Pow10(n: nat): (p: nat)
    ensures p >= 1
  {
    if n == 0 then 1 else 10 * Pow10(n - 1)
  }

  /** The number a digit string denotes. */
  function Value(s: string): nat
    requires OnlyDigits(s)
  {
    if s == [] then 0 else Digit(s[0]) * Pow10(|s| - 1) + Value(s[1..])
  }

  lemma {:induction false} ValueBound(s: string)
    requires OnlyDigits(s)
    ensures Value(s) < Pow10(|s|)
  {
    if s == [] {
    } else {
      ValueBound(s[1..]);
      DigitTimes(Digit(s[0]), 9, Pow10(|s| - 1));
    }
  }

  lemma DigitTimes(d: nat, e: nat, p: nat)
    requires d <= e
    ensures d * p <= e * p
  {
  }

  lemma LeadingDigit(d: nat, e: nat, p: nat, x: nat, y: nat)
    requires d < e && x < p
    ensures d * p + x < e * p + y
  {
    DigitTimes(d + 1, e, p);
  }

  lemma {:induction false} PowMonotone(m: nat, n: nat)
    requires m <= n
    ensures Pow10(m) <= Pow10(n)
    decreases n
  {
    if m < n { PowMonotone(m, n - 1); }
  }

  /** One more digit at the end. */
  lemma {:induction false} ValueSnoc(s: string, c: char)
    requires OnlyDigits(s) && IsDigit(c)
    ensures OnlyDigits(s + [c]) && Value(s + [c]) == 10 * Value(s) + Digit(c)
  {
    var t := s + [c];
    if s == [] {
      assert t[1..] == [] && Pow10(0) == 1;
    } else {
      assert t[1..] == s[1..] + [c];
      ValueSnoc(s[1..], c);
      Regroup(Digit(s[0]), Pow10(|s| - 1));
    }
  }

  lemma Regroup(d: nat, p: nat)
    ensures d * (10 * p) == 10 * (d * p)
  {
  }

  /** What %d prints. */
  function Show(n: nat): (s: string)
    ensures AllDigits(s)
  {
    var c := '0' + (n % 10) as char;
    if n < 10 then [c] else Show(n / 10) + [c]
  }

  function ShowInt(n: int): string {
    if n < 0 then "-" + Show(-n) else Show(n)
  }

  lemma {:induction false} ShowValue(n: nat)
    ensures Value(Show(n)) == n
  {
    var c := '0' + (n % 10) as char;
    if n < 10 {
      ValueSnoc("", c);
      assert "" + [c] == [c];
    } else {
      ShowValue(n / 10);
      ValueSnoc(Show(n / 10), c);
    }
  }

  lemma ShowIntTells(m: int, n: int)
    requires ShowInt(m) == ShowInt(n)
    ensures m == n
  {
    assert m < 0 ==> ShowInt(m)[0] == '-' && ShowInt(m)[1..] == Show(-m);
    assert n < 0 ==> ShowInt(n)[0] == '-' && ShowInt(n)[1..] == Show(-n);
    if m < 0 { ShowValue(-m); } else { ShowValue(m); }
    if n < 0 { ShowValue(-n); } else { ShowValue(n); }
  }

  /** The ten digits, by their values. */
  lemma DigitTable(c: char, n: nat)
    ensures IsDigit(c) <==> c in "0123456789"
    ensures IsDigit(c) ==> "0123456789"[Digit(c)] == c
    ensures Show(n) == (if n < 10 then "" else Show(n / 10)) + ["0123456789"[n % 10]]
  {
    TenDigits(n % 10);
    if IsDigit(c) { TenDigits(Digit(c)); }
    if c in "0123456789" {
      var i :| 0 <= i < |"0123456789"| && "0123456789"[i] == c;
      TenDigits(i);
    }
  }

  lemma TenDigits(i: nat)
    requires i < 10
    ensures "0123456789"[i] == '0' + i as char && Digit('0' + i as char) == i
  {
  }

  /** Two's-complement 64-bit wrap-around, as Go's int does it. */
  function Wrap(n: int): (r: int)
    ensures -0x8000_0000_0000_0000 <= r < 0x8000_0000_0000_0000
  {
    (n + 0x8000_0000_0000_0000) % 0x1_0000_0000_0000_0000 - 0x8000_0000_0000_0000
  }

  function Accumulate(s: string, n: int): int
    requires OnlyDigits(s)
  {
    if s == [] then n else Accumulate(s[1..], Wrap(n * 10 + Digit(s[0])))
  }

  /** The running value never wraps when the number fits. */
  lemma {:induction false} AccumulateExact(s: string, n: nat)
    requires OnlyDigits(s) && n * Pow10(|s|) + Value(s) < 0x8000_0000_0000_0000
    ensures Accumulate(s, n) == n * Pow10(|s|) + Value(s)
  {
    if s == [] {
    } else {
      var p, d := Pow10(|s| - 1), Digit(s[0]);
      var m := n * 10 + d;
      Shift(n, d, p);
      WrapFits(m);
      AccumulateExact(s[1..], m);
    }
  }

  /** The counter reads a number right exactly when it fits 64 bits. */
  lemma AccumulateExactIff(s: string)
    requires OnlyDigits(s)
    ensures Accumulate(s, 0) == Value(s) <==> Value(s) < 0x8000_0000_0000_0000
  {
    if Value(s) < 0x8000_0000_0000_0000 {
      AccumulateExact(s, 0);
    } else {
      AccumulateFits(s, 0);
    }
  }

  lemma {:induction false} AccumulateFits(s: string, n: int)
    requires OnlyDigits(s) && n < 0x8000_0000_0000_0000
    ensures Accumulate(s, n) < 0x8000_0000_0000_0000
    decreases |s|
  {
    if s == [] {
    } else {
      AccumulateFits(s[1..], Wrap(n * 10 + Digit(s[0])));
    }
  }

  lemma Shift(n: nat, d: nat, p: nat)
    requires p >= 1
    ensures (n * 10 + d) * p == n * (10 * p) + d * p
    ensures n * 10 + d <= (n * 10 + d) * p
  {
    DigitTimes(1, p, n * 10 + d);
  }

  lemma WrapFits(m: nat)
    requires m < 0x8000_0000_0000_0000
    ensures Wrap(m) == m
  {
  }
}
