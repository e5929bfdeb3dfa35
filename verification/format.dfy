/**
  Number formatting as the page uses it: `String(n)` of a non-negative integer
  and `Number.prototype.toFixed(f)` (section 21.1.3.3 of ECMA-262), applied to
  exact values.
 */
module Format {
  import opened Strings

  function Pow10(k: nat): (r: nat)
    ensures r >= 1
  {
    if k == 0 then 1 else 10 * Pow10(k - 1)
  }

  function DigitChar(d: nat): (c: char)
    requires d < 10
    ensures IsDigit(c)
  {
    ('0' as int + d) as char
  }

  function DigitValue(c: char): (d: nat)
    requires IsDigit(c)
    ensures d < 10 && DigitChar(d) == c
  {
    c as int - '0' as int
  }

  predicate AllDigits(s: string)
  {
    forall i :: 0 <= i < |s| ==> IsDigit(s[i])
  }

  /** A numeral without superfluous leading zeros. */
  predicate Canonical(s: string)
  {
    |s| >= 1 && AllDigits(s) && (|s| == 1 || s[0] != '0')
  }

  /** The decimal numeral of `n`, as `String(n)` writes a non-negative integer. */
  function NatToString(n: nat): (s: string)
    ensures Canonical(s)
  {
    if n < 10 then [DigitChar(n)] else NatToString(n / 10) + [DigitChar(n % 10)]
  }

  /** The value of a numeral; leading zeros add nothing. */
  function ParseNat(s: string): nat
    requires AllDigits(s)
  {
    if |s| == 0 then 0 else 10 * ParseNat(s[..|s| - 1]) + DigitValue(s[|s| - 1])
  }

  lemma {:induction false} ParseNatToString(n: nat)
    ensures ParseNat(NatToString(n)) == n
  {
    if n >= 10 {
      var s := NatToString(n);
      assert s[..|s| - 1] == NatToString(n / 10);
      ParseNatToString(n / 10);
    }
  }

  /** Two numbers with the same numeral are equal. */
  lemma NatToStringInjective(m: nat, n: nat)
    requires NatToString(m) == NatToString(n)
    ensures m == n
  {
    ParseNatToString(m);
    ParseNatToString(n);
  }

  /** Parsing a concatenation: the left part is shifted by the right part's length. */
  lemma {:induction false} ParseNatAppend(a: string, b: string)
    requires AllDigits(a) && AllDigits(b)
    ensures AllDigits(a + b)
    ensures ParseNat(a + b) == ParseNat(a) * Pow10(|b|) + ParseNat(b)
  {
    if |b| == 0 {
      assert a + b == a;
    } else {
      var ab, b' := a + b, b[..|b| - 1];
      assert ab[..|ab| - 1] == a + b';
      ParseNatAppend(a, b');
      var d := DigitValue(b[|b| - 1]);
      assert ab[|ab| - 1] == b[|b| - 1];
      assert ParseNat(ab) == 10 * ParseNat(a + b') + d;
      assert ParseNat(b) == 10 * ParseNat(b') + d;
      Distribute(ParseNat(a), Pow10(|b'|), ParseNat(b'), d);
    }
  }

  lemma Distribute(p: int, t: int, q: int, d: int)
    ensures 10 * (p * t + q) + d == p * (10 * t) + (10 * q + d)
  {
  }

  function Zeros(k: nat): (s: string)
    ensures |s| == k && AllDigits(s)
    ensures forall i :: 0 <= i < k ==> s[i] == '0'
  {
    if k == 0 then "" else Zeros(k - 1) + "0"
  }

  lemma {:induction false} ParseZeros(k: nat)
    ensures ParseNat(Zeros(k)) == 0
  {
    if k > 0 {
      var z := Zeros(k - 1);
      ParseZeros(k - 1);
      ParseNatAppend(z, "0");
      assert ParseNat("0") == 0;
    }
  }

  /** Appending a zero multiplies by ten: the numeral of `n * 10^k` is the
      numeral of `n` followed by `k` zeros. */
  lemma {:induction false} NatToStringShift(n: nat, k: nat)
    requires n >= 1
    ensures NatToString(n * Pow10(k)) == NatToString(n) + Zeros(k)
  {
    if k > 0 {
      NatToStringShift(n, k - 1);
      var m := n * Pow10(k - 1);
      assert n * Pow10(k) == m * 10 by {
        Regroup(n, Pow10(k - 1));
      }
      TimesTen(m);
      assert NatToString(n) + Zeros(k - 1) + "0" == NatToString(n) + Zeros(k);
    }
  }

  lemma Regroup(n: int, t: int)
    ensures n * (10 * t) == (n * t) * 10
  {
  }

  /** Multiplying by ten appends a zero digit. */
  lemma TimesTen(m: nat)
    requires m >= 1
    ensures NatToString(m * 10) == NatToString(m) + "0"
  {
    assert (m * 10) / 10 == m && (m * 10) % 10 == 0;
  }

  /** The integer closest to `y`, the larger one on a tie. */
  function Round(y: real): (n: int)
    ensures y - 0.5 < n as real <= y + 0.5
  {
    (y + 0.5).Floor
  }

  /** The integer `n` for which `n / 10^f - x` is closest to zero, the larger one on a tie. */
  function RoundScaled(x: real, f: nat): (n: int)
    ensures x >= 0.0 ==> n >= 0
  {
    Round(x * Pow10(f) as real)
  }

  /** A numeral zero-padded on the left to at least `f + 1` digits. */
  function Padded(m: string, f: nat): string
  {
    if |m| <= f then Zeros(f + 1 - |m|) + m else m
  }

  /** A numeral zero-padded to at least `f + 1` digits, with a point before
      the last `f` of them. */
  function Pointed(m: string, f: nat): string
  {
    if f == 0 then m else InsertPoint(Padded(m, f), f)
  }

  /** A point written before the last `f` characters of `digits`. */
  function InsertPoint(digits: string, f: nat): string
    requires |digits| >= f
  {
    digits[..|digits| - f] + "." + digits[|digits| - f..]
  }

  /** `toFixed(f)` of a non-negative value: the pointed numeral of the rounded value. */
  function Unsigned(x: real, f: nat): string
    requires x >= 0.0
  {
    Pointed(NatToString(RoundScaled(x, f)), f)
  }

  /** `x.toFixed(f)`. A negative value is the sign followed by the digits of its
      magnitude, so a value that rounds to zero from below keeps its sign. */
  function ToFixed(x: real, f: nat): string
  {
    Signed(x < 0.0, Unsigned(Magnitude(x), f))
  }

  function Magnitude(x: real): real
  {
    if x < 0.0 then -x else x
  }

  /** `u` with a leading minus sign when `negative` holds. */
  function Signed(negative: bool, u: string): string
  {
    if negative then "-" + u else u
  }

  function WithoutSign(s: string): string
  {
    if |s| > 0 && s[0] == '-' then s[1..] else s
  }

  /** An unsigned `toFixed(f)` string: a canonical integer part and, when
      `f > 0`, a point followed by exactly `f` digits. */
  predicate PointedLayout(u: string, f: nat)
  {
    if f == 0 then Canonical(u)
    else
      && |u| >= f + 2
      && u[|u| - f - 1] == '.'
      && Canonical(u[..|u| - f - 1])
      && AllDigits(u[|u| - f..])
  }

  /** The shape of a `toFixed(f)` string: an optional sign, then the layout above. */
  predicate FixedLayout(s: string, f: nat)
  {
    PointedLayout(WithoutSign(s), f)
  }

  /** The digits of a pointed numeral with the point taken out. */
  function DropPoint(u: string, f: nat): (d: string)
    requires PointedLayout(u, f)
    ensures AllDigits(d)
  {
    if f == 0 then u else u[..|u| - f - 1] + u[|u| - f..]
  }

  /** The number a `FixedLayout` string denotes, times `10^f`. */
  function ScaledValue(s: string, f: nat): int
    requires FixedLayout(s, f)
  {
    var magnitude: int := ParseNat(DropPoint(WithoutSign(s), f));
    if |s| > 0 && s[0] == '-' then -magnitude else magnitude
  }

  /** Writing a point between a canonical integer part `a` and `f` fraction
      digits `b` gives the layout, and the digits keep their value. */
  lemma PointParts(a: string, b: string, f: nat)
    requires f > 0 && |b| == f && Canonical(a) && AllDigits(b)
    ensures var s := a + "." + b;
      && s[0] != '-'
      && FixedLayout(s, f)
      && ScaledValue(s, f) == ParseNat(a + b)
  {
    var s := a + "." + b;
    PointPartsLayout(a, b, f);
    PointDrop(s, a, b, f);
  }

  lemma PointPartsLayout(a: string, b: string, f: nat)
    requires f > 0 && |b| == f && Canonical(a) && AllDigits(b)
    ensures var s := a + "." + b;
      s[0] != '-' && WithoutSign(s) == s && PointedLayout(s, f)
  {
    var s := a + "." + b;
    assert |s| - f - 1 == |a| && |s| - f == |a| + 1;
    assert s[0] == a[0] && IsDigit(a[0]);
    assert s[|a|] == '.';
    assert s[..|a|] == a;
    assert s[|a| + 1..] == b;
  }

  lemma PointDrop(s: string, a: string, b: string, f: nat)
    requires f > 0 && |b| == f && s == a + "." + b && PointedLayout(s, f)
    ensures DropPoint(s, f) == a + b
  {
    assert |s| - f - 1 == |a| && |s| - f == |a| + 1;
    PointDigits(a, b);
  }

  /** Taking the point back out of `a + "." + b` leaves `a + b`. */
  lemma PointDigits(a: string, b: string)
    ensures var s := a + "." + b;
      s[..|a|] + s[|a| + 1..] == a + b
  {
    var s := a + "." + b;
    assert s[..|a|] == a;
    assert s[|a| + 1..] == b;
  }

  /** The zero padding of `Unsigned` leaves the value alone and a single "0"
      before the point. */
  lemma PaddedNumeral(m: string, f: nat)
    requires f > 0 && Canonical(m)
    ensures var padded := Padded(m, f);
      && |padded| >= f + 1 && AllDigits(padded)
      && Canonical(padded[..|padded| - f])
      && ParseNat(padded) == ParseNat(m)
  {
    if |m| <= f {
      var z := Zeros(f + 1 - |m|);
      ParseZeros(f + 1 - |m|);
      PadShort(z, m, f);
    } else {
      PadLong(m, f);
    }
  }

  /** Leading zeros up to `f + 1` digits: one "0" before the last `f`. */
  lemma PadShort(z: string, m: string, f: nat)
    requires Canonical(m) && |m| <= f
    requires |z| == f + 1 - |m| && AllDigits(z) && z[0] == '0' && ParseNat(z) == 0
    ensures var padded := z + m;
      && |padded| == f + 1 && AllDigits(padded)
      && Canonical(padded[..1])
      && ParseNat(padded) == ParseNat(m)
  {
    ParseNatAppend(z, m);
    assert (z + m)[..1] == [z[0]];
  }

  /** A numeral longer than `f` needs no padding, and what stands before its
      last `f` digits is itself canonical. */
  lemma PadLong(m: string, f: nat)
    requires Canonical(m) && |m| > f > 0
    ensures Canonical(m[..|m| - f])
  {
    var a := m[..|m| - f];
    assert a[0] == m[0];
    forall i | 0 <= i < |a|
      ensures IsDigit(a[i])
    {
      assert a[i] == m[i];
    }
  }

  lemma PointedNumeral(m: string, f: nat)
    requires Canonical(m)
    ensures var s := Pointed(m, f);
      && |s| > 0 && s[0] != '-'
      && FixedLayout(s, f)
      && ScaledValue(s, f) == ParseNat(m)
  {
    if f > 0 {
      FracNumeral(m, f);
    } else {
      WholeNumeral(m);
    }
  }

  lemma FracNumeral(m: string, f: nat)
    requires Canonical(m) && f > 0
    ensures var s := Pointed(m, f);
      && |s| > 0 && s[0] != '-'
      && FixedLayout(s, f)
      && ScaledValue(s, f) == ParseNat(m)
  {
    PaddedNumeral(m, f);
    SplitPoint(Padded(m, f), f);
  }

  /** Putting the point before the last `f` digits of a padded numeral gives
      the layout, and the digits keep their value. */
  lemma SplitPoint(padded: string, f: nat)
    requires f > 0 && |padded| >= f + 1 && AllDigits(padded)
    requires Canonical(padded[..|padded| - f])
    ensures var s := InsertPoint(padded, f);
      && |s| > 0 && s[0] != '-'
      && FixedLayout(s, f)
      && ScaledValue(s, f) == ParseNat(padded)
  {
    var k := |padded| - f;
    var a, b := padded[..k], padded[k..];
    DigitsSuffix(padded, k);
    PointParts(a, b, f);
    Rejoin(padded, k);
  }

  lemma DigitsSuffix(s: string, k: nat)
    requires k <= |s| && AllDigits(s)
    ensures AllDigits(s[k..])
  {
    forall i | 0 <= i < |s| - k
      ensures IsDigit(s[k..][i])
    {
      assert s[k..][i] == s[k + i];
    }
  }

  lemma Rejoin(s: string, k: nat)
    requires k <= |s|
    ensures s[..k] + s[k..] == s
  {
  }

  lemma WholeNumeral(m: string)
    requires Canonical(m)
    ensures var s := Pointed(m, 0);
      && |s| > 0 && s[0] != '-'
      && FixedLayout(s, 0)
      && ScaledValue(s, 0) == ParseNat(m)
  {
    assert m[0] != '-';
    assert WithoutSign(m) == m;
  }

  lemma UnsignedLayout(x: real, f: nat)
    requires x >= 0.0
    ensures var s := Unsigned(x, f);
      && |s| > 0 && s[0] != '-'
      && FixedLayout(s, f)
      && ScaledValue(s, f) == RoundScaled(x, f)
  {
    var n := RoundScaled(x, f);
    ParseNatToString(n);
    PointedNumeral(NatToString(n), f);
  }

  /** `toFixed` is read back by `ScaledValue` as the signed, rounded value:
      the string has the layout above and denotes the nearest multiple of
      `10^-f` (ties away from zero). */
  lemma ToFixedRoundTrip(x: real, f: nat)
    ensures var s := ToFixed(x, f);
      && FixedLayout(s, f)
      && (|s| > 0 && s[0] == '-' <==> x < 0.0)
      && ScaledValue(s, f) == if x < 0.0 then -RoundScaled(-x, f) else RoundScaled(x, f)
  {
    var m := Magnitude(x);
    UnsignedLayout(m, f);
    SignedLayout(x < 0.0, Unsigned(m, f), f);
  }

  /** A sign in front of an unsigned layout keeps the layout and negates the value. */
  lemma SignedLayout(negative: bool, u: string, f: nat)
    requires |u| > 0 && u[0] != '-' && FixedLayout(u, f)
    ensures var s := Signed(negative, u);
      && FixedLayout(s, f)
      && (|s| > 0 && s[0] == '-' <==> negative)
      && ScaledValue(s, f) == if negative then -ScaledValue(u, f) else ScaledValue(u, f)
  {
    assert WithoutSign(u) == u;
    if negative {
      assert WithoutSign("-" + u) == u;
    }
  }

  /** A whole number gets `f` zero decimals: `(85).toFixed(1)` is "85.0". */
  lemma ToFixedWhole(k: nat, f: nat)
    ensures ToFixed(k as real, f) == NatToString(k) + (if f == 0 then "" else "." + Zeros(f))
  {
    var n := k * Pow10(f);
    assert ToFixed(k as real, f) == Pointed(NatToString(n), f) by {
      RoundWhole(k, f);
    }
    if f == 0 {
      assert Pointed(NatToString(n), f) == NatToString(k) + "";
    } else if k == 0 {
      ZeroWhole(f);
    } else {
      ShiftedWhole(k, f);
    }
  }

  lemma ZeroWhole(f: nat)
    requires f > 0
    ensures Pointed(NatToString(0 * Pow10(f)), f) == NatToString(0) + ("." + Zeros(f))
  {
    assert NatToString(0 * Pow10(f)) == "0" == NatToString(0);
    PointedZero(f);
  }

  lemma ShiftedWhole(k: nat, f: nat)
    requires f > 0 && k > 0
    ensures Pointed(NatToString(k * Pow10(f)), f) == NatToString(k) + ("." + Zeros(f))
  {
    NatToStringShift(k, f);
    PointedShift(NatToString(k), f);
  }

  lemma RoundWhole(k: nat, f: nat)
    ensures RoundScaled(k as real, f) == k * Pow10(f)
  {
    assert (k as real) * (Pow10(f) as real) == (k * Pow10(f)) as real;
  }

  lemma PointedZero(f: nat)
    requires f > 0
    ensures Pointed("0", f) == "0" + ("." + Zeros(f))
  {
    var padded := Padded("0", f);
    assert padded == Zeros(f) + "0";
    assert Pointed("0", f) == padded[..1] + "." + padded[1..];
    assert padded[..1] == "0";
    assert padded[1..] == Zeros(f);
  }

  lemma PointedShift(s: string, f: nat)
    requires f > 0 && |s| >= 1
    ensures Pointed(s + Zeros(f), f) == s + ("." + Zeros(f))
  {
    var m := s + Zeros(f);
    assert Padded(m, f) == m;
    assert m[..|m| - f] == s && m[|m| - f..] == Zeros(f);
  }
}
