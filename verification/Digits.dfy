/** Numbers as digit strings, most significant digit first. The decoders use it for
    the nibbles of a packed row and the bits of a byte: v >> (w * (n - 1 - k)) masked
    to w bits is digit k of v in base 2^w. */
module Digits {

  function Pow(base: nat, n: nat): (p: nat)
    requires base > 0
    ensures p > 0
  {
    if n == 0 then 1 else
      var p := Pow(base, n - 1);
      assert base * p > 0;
      base * p
  }

  /** The number with the given digits; also defined when digits are out of range. */
  function Value(base: nat, digits: seq<int>): int {
    if digits == [] then 0 else Value(base, digits[..|digits| - 1]) * base + digits[|digits| - 1]
  }

  /** The last n digits of v. */
  function Expand(base: nat, n: nat, v: nat): (digits: seq<int>)
    requires base > 0
    ensures |digits| == n
    decreases n, v
  {
    if n == 0 then [] else Expand(base, n - 1, v / base) + [v % base]
  }

  ghost predicate AreDigits(base: nat, digits: seq<int>) {
    forall k :: 0 <= k < |digits| ==> 0 <= digits[k] < base
  }

  // Products, a fact at a time.

  lemma MulAssoc(a: int, b: int, c: int)
    ensures a * (b * c) == (a * b) * c
  {
  }

  lemma MulPlus(a: int, b: int, c: int)
    ensures a * (b + c) == a * b + a * c && (b + c) * a == b * a + c * a
  {
  }

  lemma MulLe(a: nat, b: int, c: int)
    requires b <= c
    ensures a * b <= a * c && b * a <= c * a
  {
  }

  lemma DivParts(v: int, base: nat)
    requires base > 0
    ensures v == base * (v / base) + v % base && 0 <= v % base < base
  {
  }

  /** Quotient and remainder are unique. */
  lemma PartsAreUnique(base: nat, q: int, d: nat, e: int, r: nat)
    requires d < base && r < base && base * q + d == base * e + r
    ensures q == e && d == r
  {
    MulPlus(base, q, e - q);
    if q < e {
      MulLe(base, 1, e - q);
    } else if e < q {
      MulLe(base, e - q, -1);
    }
  }

  lemma DivMod(base: nat, q: nat, d: nat)
    requires d < base
    ensures (q * base + d) / base == q && (q * base + d) % base == d
  {
    var v := q * base + d;
    DivParts(v, base);
    PartsAreUnique(base, q, d, v / base, v % base);
  }

  lemma {:induction false} ValueBound(base: nat, digits: seq<int>)
    requires base > 0 && AreDigits(base, digits)
    ensures 0 <= Value(base, digits) < Pow(base, |digits|)
  {
    if digits != [] {
      var init := digits[..|digits| - 1];
      ValueBound(base, init);
      var v := Value(base, init);
      MulLe(base, v + 1, Pow(base, |init|));
      MulPlus(base, v, 1);
      MulLe(base, 0, v);
    }
  }

  /** Reading back the digits a number was built from. */
  lemma {:induction false} ExpandValue(base: nat, digits: seq<int>)
    requires base > 0 && AreDigits(base, digits)
    ensures Value(base, digits) >= 0 && Expand(base, |digits|, Value(base, digits)) == digits
  {
    ValueBound(base, digits);
    if digits != [] {
      var init := digits[..|digits| - 1];
      ExpandValue(base, init);
      DivMod(base, Value(base, init), digits[|digits| - 1]);
    }
  }

  lemma {:induction false} ExpandDigits(base: nat, n: nat, v: nat)
    requires base > 0
    ensures AreDigits(base, Expand(base, n, v))
  {
    if n > 0 { ExpandDigits(base, n - 1, v / base); }
  }

  /** Dividing twice, in the parts of both divisions. */
  lemma NestedParts(a: nat, b: nat, r: nat, s: nat, t: nat)
    requires r < a && t < b
    ensures a * (b * s + t) + r == s * (a * b) + (a * t + r) && a * t + r < a * b
  {
    MulPlus(a, b * s, t);
    MulAssoc(a, b, s);
    MulLe(a, t + 1, b);
    MulPlus(a, t, 1);
  }

  lemma DivDiv(v: nat, a: nat, b: nat)
    requires a > 0 && b > 0
    ensures a * b > 0 && v / a / b == v / (a * b)
  {
    DivParts(v, a);
    DivParts(v / a, b);
    TwiceDivided(v, a, b, v / a, v % a, v / a / b, v / a % b);
  }

  lemma TwiceDivided(v: nat, a: nat, b: nat, q: nat, r: nat, s: nat, t: nat)
    requires r < a && t < b && v == a * q + r && q == b * s + t
    ensures a * b > 0 && v / (a * b) == s
  {
    NestedParts(a, b, r, s, t);
    var m, d := a * b, a * t + r;
    MulLe(a, 0, t);
    DivMod(m, s, d);
  }

  lemma PowStep(base: nat, n: nat)
    requires base > 0
    ensures Pow(base, 0) == 1 && Pow(base, n + 1) == base * Pow(base, n)
  {
  }

  lemma ExpandStep(base: nat, n: nat, v: nat)
    requires base > 0
    ensures Expand(base, n + 1, v) == Expand(base, n, v / base) + [v % base]
  {
  }

  /** A digit by shifting: digit k of n is what remains above the n - 1 - k below. */
  lemma {:induction false} ExpandAt(base: nat, n: nat, v: nat, k: nat)
    requires base > 0 && k < n
    ensures Expand(base, n, v)[k] == v / Pow(base, n - 1 - k) % base
  {
    hide Pow, Expand;
    ExpandStep(base, n - 1, v);
    if k < n - 1 {
      var p := Pow(base, n - 2 - k);
      PowStep(base, n - 2 - k);
      ExpandAt(base, n - 1, v / base, k);
      DivDiv(v, base, p);
    } else {
      PowStep(base, 0);
      ModOf(v, base);
      DivOne(v);
    }
  }

  lemma DivOne(v: nat)
    ensures v / 1 == v
  {
  }

  /** Building a number digit by digit from the top. */
  lemma ValueStep(base: nat, digits: seq<int>, k: nat)
    requires base > 0 && k < |digits|
    ensures Value(base, digits[..k + 1]) * Pow(base, |digits| - 1 - k)
         == Value(base, digits[..k]) * Pow(base, |digits| - k) + digits[k] * Pow(base, |digits| - 1 - k)
  {
    var p, v := Pow(base, |digits| - 1 - k), Value(base, digits[..k]);
    assert digits[..k + 1][..k] == digits[..k];
    MulPlus(p, v * base, digits[k]);
    MulAssoc(v, base, p);
  }

  /** Digitwise a - offset + b, with no regard to range. */
  function Shifted(a: seq<int>, offset: int, b: seq<int>): (c: seq<int>)
    requires |a| == |b|
    ensures |c| == |a|
  {
    seq(|a|, k requires 0 <= k < |a| => a[k] - offset + b[k])
  }

  function Ones(n: nat): (o: seq<int>)
    ensures |o| == n
  {
    seq(n, _ => 1)
  }

  lemma ShiftArithmetic(base: int, va: int, offset: int, vo: int, vb: int)
    ensures (va - offset * vo + vb) * base == va * base - offset * (vo * base) + vb * base
  {
    MulPlus(base, va - offset * vo, vb);
    MulPlus(base, va, -(offset * vo));
    MulAssoc(offset, vo, base);
    MulAssoc(-offset, vo, base);
  }

  /** Adding numbers adds their digits. */
  lemma {:induction false} ValueShifted(base: nat, a: seq<int>, offset: int, b: seq<int>)
    requires |a| == |b|
    ensures Value(base, Shifted(a, offset, b)) == Value(base, a) - offset * Value(base, Ones(|a|)) + Value(base, b)
  {
    if a != [] {
      var n := |a| - 1;
      ValueShifted(base, a[..n], offset, b[..n]);
      assert Shifted(a, offset, b)[..n] == Shifted(a[..n], offset, b[..n]);
      assert Ones(|a|)[..n] == Ones(n);
      var vo := Value(base, Ones(n));
      ShiftArithmetic(base, Value(base, a[..n]), offset, vo, Value(base, b[..n]));
      MulPlus(offset, vo * base, 1);
    }
  }

  lemma ModOf(v: int, m: nat)
    requires m > 0
    ensures 0 <= v % m && (0 <= v < m ==> v % m == v)
  {
    if 0 <= v < m { DivMod(m, 0, v); }
  }

  /** Keeping the last n digits of a number built from n values gives those values
      back exactly when they are digits. */
  lemma KeptDigits(base: nat, values: seq<int>)
    requires base > 0
    ensures Value(base, values) % Pow(base, |values|) >= 0
    ensures AreDigits(base, values) <==>
            Expand(base, |values|, Value(base, values) % Pow(base, |values|)) == values
  {
    ModOf(Value(base, values), Pow(base, |values|));
    ExpandDigits(base, |values|, Value(base, values) % Pow(base, |values|));
    if AreDigits(base, values) {
      ValueBound(base, values);
      ExpandValue(base, values);
    }
  }

  /** One step of spreading the base-`from` digits of v over the digits of base `to`. */
  lemma SpreadStep(from: nat, to: nat, n: nat, v: nat, k: nat)
    requires from > 0 && to > 0 && k < n
    ensures Value(to, Expand(from, n, v)[..k]) * Pow(to, n - k) + v / Pow(from, n - 1 - k) % from * Pow(to, n - 1 - k)
         == Value(to, Expand(from, n, v)[..k + 1]) * Pow(to, n - 1 - k)
  {
    ExpandAt(from, n, v, k);
    ValueStep(to, Expand(from, n, v), k);
  }
}
