/** The number formats of printf used by the tracer, with their inverse and their lengths. */
module Numerals {
  import opened CTypes

  predicate IsBase(base: int) {
    base == 10 || base == 16
  }

  function Digit(d: int): char
    requires 0 <= d < 16
  {
    if d < 10 then '0' + (d as char) else 'a' + ((d - 10) as char)
  }

  function DigitValue(c: char): nat {
    if '0' <= c <= '9' then (c - '0') as nat
    else if 'a' <= c <= 'f' then (c - 'a') as nat + 10
    else 0
  }

  /** `%lu` (base 10) and `%lx` (base 16) of a non-negative number. */
  function Numeral(n: nat, base: int): (r: string)
    requires IsBase(base)
    ensures r != []
    decreases n
  {
    if n < base then [Digit(n)] else Numeral(n / base, base) + [Digit(n % base)]
  }

  /** The number a digit string denotes. */
  function Value(s: string, base: int): nat
    requires IsBase(base)
  {
    if s == [] then 0 else Value(s[..|s| - 1], base) * base + DigitValue(s[|s| - 1])
  }

  function Pow(base: nat, k: nat): nat
    decreases k
  {
    if k == 0 then 1 else base * Pow(base, k - 1)
  }

  function Abs(n: int): nat {
    if n < 0 then -n else n
  }

  /** `%d` and `%ld`. */
  function Dec(n: int): (r: string)
  {
    if n < 0 then "-" + Numeral(-n, 10) else Numeral(n, 10)
  }

  /** `%p` as glibc prints it. */
  function Pointer(p: U64): string {
    if p == 0 then "(nil)" else "0x" + Numeral(p, 16)
  }

  predicate AllDigits(s: string, base: int)
    requires IsBase(base)
  {
    forall i | 0 <= i < |s| :: '0' <= s[i] <= '9' || (base == 16 && 'a' <= s[i] <= 'f')
  }

  lemma DivMod(n: nat, base: int)
    requires IsBase(base)
    ensures n / base * base + n % base == n && 0 <= n % base < base
  {
  }

  lemma DigitRoundTrip(d: int)
    requires 0 <= d < 16
    ensures DigitValue(Digit(d)) == d
  {
  }

  lemma ValueSnoc(s: string, c: char, base: int)
    requires IsBase(base)
    ensures Value(s + [c], base) == Value(s, base) * base + DigitValue(c)
  {
    assert (s + [c])[..|s|] == s;
  }

  /** The digits in their order, and the places of their codes. */
  lemma DigitTable(d: int)
    requires 0 <= d < 16
    ensures Digit(d) == "0123456789abcdef"[d] && DigitValue("0123456789abcdef"[d]) == d
    ensures Digit(d) as int == if d < 10 then 48 + d else 87 + d
  {
  }

  lemma DigitValues(c: char)
    ensures '0' <= c <= '9' ==> DigitValue(c) == c as int - '0' as int && Digit(DigitValue(c)) == c
    ensures 'a' <= c <= 'f' ==> DigitValue(c) == c as int - 'a' as int + 10 && Digit(DigitValue(c)) == c
  {
  }

  lemma {:induction false} NumeralDigits(n: nat, base: int)
    requires IsBase(base)
    ensures AllDigits(Numeral(n, base), base)
    decreases n
  {
    if n >= base { NumeralDigits(n / base, base); }
  }

  lemma {:induction false} NumeralRoundTrip(n: nat, base: int)
    requires IsBase(base)
    ensures Value(Numeral(n, base), base) == n
    decreases n
  {
    var high := if n < base then [] else Numeral(n / base, base);
    assert Numeral(n, base) == high + [Digit(n % base)];
    ValueSnoc(high, Digit(n % base), base);
    DivMod(n, base);
    DigitRoundTrip(n % base);
    if n >= base { NumeralRoundTrip(n / base, base); }
  }

  /** No leading zeros: a k-digit budget is enough exactly for the numbers below base^k. */
  lemma {:induction false} NumeralLength(n: nat, base: int, k: nat)
    requires IsBase(base) && 0 < k
    ensures |Numeral(n, base)| <= k <==> n < Pow(base, k)
    decreases k
  {
    if n < base {
      PowPositive(base, k - 1);
      assert base <= base * Pow(base, k - 1);
    } else if k == 1 {
      assert Pow(base, 1) == base * Pow(base, 0);
    } else {
      NumeralLength(n / base, base, k - 1);
      var p := Pow(base, k - 1);
      assert n / base < p <==> n < base * p by {
        if base == 10 { assert n / 10 < p <==> n < 10 * p; } else { assert n / 16 < p <==> n < 16 * p; }
      }
    }
  }

  lemma {:induction false} PowPositive(base: nat, k: nat)
    requires 0 < base
    ensures 0 < Pow(base, k)
    decreases k
  {
    if k > 0 { PowPositive(base, k - 1); }
  }

  lemma Powers()
    ensures Pow(10, 9) == 1_000_000_000 && Pow(10, 10) == 10_000_000_000
    ensures Pow(10, 19) == 10_000_000_000_000_000_000 && Pow(10, 20) == 100_000_000_000_000_000_000
    ensures Pow(16, 16) == 0x1_0000_0000_0000_0000
  {
    assert Pow(16, 8) == 0x1_0000_0000;
    assert Pow(16, 12) == 0x1_0000_0000_0000;
  }

  lemma NumeralInjective(m: nat, n: nat, base: int)
    requires IsBase(base) && Numeral(m, base) == Numeral(n, base)
    ensures m == n
  {
    NumeralRoundTrip(m, base);
    NumeralRoundTrip(n, base);
  }

  /** Positional notation: each digit weighs base to the number of digits behind it. */
  function Weighted(s: string, base: int): nat
    requires IsBase(base)
  {
    if s == [] then 0 else DigitValue(s[0]) * Pow(base, |s| - 1) + Weighted(s[1..], base)
  }

  lemma {:induction false} WeightedSnoc(s: string, c: char, base: int)
    requires IsBase(base)
    ensures Weighted(s + [c], base) == Weighted(s, base) * base + DigitValue(c)
  {
    if s == [] {
      assert ([] + [c])[1..] == [];
      assert Pow(base, 0) == 1;
    } else {
      assert (s + [c])[1..] == s[1..] + [c];
      WeightedSnoc(s[1..], c, base);
      ShiftWeight(DigitValue(s[0]), Pow(base, |s| - 1), Weighted(s[1..], base), base);
    }
  }

  lemma ShiftWeight(d: nat, p: nat, w: nat, base: int)
    requires IsBase(base)
    ensures d * (base * p) + w * base == (d * p + w) * base
  {
    if base == 10 {
      assert d * (10 * p) == (d * p) * 10;
    } else {
      assert d * (16 * p) == (d * p) * 16;
    }
  }

  /** The value of a digit string is that of positional notation. */
  lemma {:induction false} ValueIsWeighted(s: string, base: int)
    requires IsBase(base)
    ensures Value(s, base) == Weighted(s, base)
  {
    if s != [] {
      var n := |s| - 1;
      ValueIsWeighted(s[..n], base);
      WeightedSnoc(s[..n], s[n], base);
      assert s == s[..n] + [s[n]];
    }
  }

  /** text writes n in its base: digits of that base, no zero in front, and the value of n. */
  predicate Writes(text: string, n: nat, base: int)
    requires IsBase(base)
  {
    text != "" && AllDigits(text, base) && (text[0] == '0' ==> text == "0") && Value(text, base) == n
  }

  lemma {:induction false} NumeralWrites(n: nat, base: int)
    requires IsBase(base)
    ensures Writes(Numeral(n, base), n, base) && (Numeral(n, base)[0] == '0' ==> n == 0)
    decreases n
  {
    NumeralDigits(n, base);
    NumeralRoundTrip(n, base);
    if n >= base {
      NumeralWrites(n / base, base);
      assert Numeral(n, base)[0] == Numeral(n / base, base)[0];
    }
  }

  lemma {:induction false} LeadingDigitCounts(text: string, base: int)
    requires IsBase(base) && text != "" && AllDigits(text, base) && text[0] != '0'
    ensures 0 < Value(text, base)
  {
    var n := |text| - 1;
    if n > 0 { LeadingDigitCounts(text[..n], base); }
  }

  /** There is one way to write a number: what `%lu` and `%lx` print is determined by its value. */
  lemma {:induction false} WritesOnlyNumeral(text: string, n: nat, base: int)
    requires IsBase(base) && Writes(text, n, base)
    ensures text == Numeral(n, base)
    decreases |text|
  {
    var k := |text| - 1;
    var v, d := Value(text[..k], base), DigitValue(text[k]);
    DigitValues(text[k]);
    assert n == v * base + d && 0 <= d < base;
    if k > 0 {
      LeadingDigitCounts(text[..k], base);
      assert n / base == v && n % base == d;
      WritesOnlyNumeral(text[..k], v, base);
      assert text == text[..k] + [text[k]];
    }
  }

  /** A digit string of k digits denotes a number below base^k. */
  lemma {:induction false} ValueBound(s: string, base: int)
    requires IsBase(base) && AllDigits(s, base)
    ensures Value(s, base) < Pow(base, |s|)
    decreases |s|
  {
    if s != [] {
      var init := s[..|s| - 1];
      ValueBound(init, base);
      var v, p := Value(init, base), Pow(base, |init|);
      assert v + 1 <= p;
      assert (v + 1) * base <= p * base;
    }
  }

  function DecValue(s: string): int {
    if s != [] && s[0] == '-' then 0 - Value(s[1..], 10) else Value(s, 10)
  }

  lemma DecRoundTrip(n: int)
    ensures DecValue(Dec(n)) == n
  {
    if n < 0 {
      NumeralRoundTrip(-n, 10);
      assert Dec(n)[1..] == Numeral(-n, 10);
    } else {
      NumeralRoundTrip(n, 10);
      NumeralDigits(n, 10);
    }
  }

  lemma PointerInjective(p: U64, q: U64)
    requires Pointer(p) == Pointer(q)
    ensures p == q
  {
    assert p != 0 ==> Pointer(p)[0] == '0' && Pointer(p)[2..] == Numeral(p, 16);
    assert q != 0 ==> Pointer(q)[0] == '0' && Pointer(q)[2..] == Numeral(q, 16);
    if p != 0 && q != 0 { NumeralInjective(p, q, 16); }
  }

  /** The widths of the 32-bit and 64-bit conversions. */
  lemma Widths(i: I32, t: I64, u: U64)
    ensures |Dec(i)| <= 11 && |Dec(t)| <= 20
    ensures |Numeral(u, 10)| <= 20 && |Numeral(u, 16)| <= 16 && |Pointer(u)| <= 18
  {
    Powers();
    NumeralLength(Abs(i), 10, 10);
    NumeralLength(Abs(t), 10, 19);
    NumeralLength(u, 10, 20);
    NumeralLength(u, 16, 16);
  }

  /** No number format prints a double quote, a space, a newline or a NUL. */
  lemma NumeralPlain(n: nat, base: int)
    requires IsBase(base)
    ensures Plain(Numeral(n, base))
  {
    NumeralDigits(n, base);
  }

  lemma DecPlain(n: int)
    ensures Plain(Dec(n))
  {
    NumeralPlain(Abs(n), 10);
  }

  lemma PointerPlain(p: U64)
    ensures Plain(Pointer(p))
  {
    NumeralPlain(p, 16);
  }

  predicate Plain(s: string) {
    '"' !in s && ' ' !in s && '\n' !in s && NUL !in s
  }
}
