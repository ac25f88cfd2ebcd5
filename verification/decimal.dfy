/** Decimal text and exact reals: the part of Python's `float()`,
    `'{:.2f}'.format` and `int(float)` that the review plan relies on.
    Binary floating point is not modelled: values are exact reals, and the
    rounding done by `'{:.2f}'` is a parameter of type `Rounding` that is only
    known to round to a nearby hundredth, monotonically, leaving hundredths
    alone. */
module Decimal {
  import opened Wrappers
  import opened Text

  function Pow10(k: nat): (p: nat)
    ensures p >= 1
  {
    if k == 0 then 1 else 10 * Pow10(k - 1)
  }

  /** What a left-to-right reading of a decimal numeral has seen so far:
      the value read, the place value of the next fraction digit, whether a
      '.' and whether any digit has been read. */
  datatype Numeral = Numeral(value: real, place: real, seenDot: bool, seenDigit: bool)
  {
    /** The numeral with digit `d` appended. */
    function Push(d: nat): Numeral {
      if seenDot then Numeral(value + d as real * place, place / 10.0, true, true)
      else Numeral(value * 10.0 + d as real, place, false, true)
    }
  }

  const Start := Numeral(0.0, 0.1, false, false)

  /** `float()`'s reading of `s[i..hi]` as an unsigned decimal, continuing
      from `acc`: digits with at most one '.', at least one digit overall. */
  function Scan(s: string, i: nat, hi: nat, acc: Numeral): (r: Option<real>)
    requires i <= hi <= |s|
    ensures r.Some? ==> acc.seenDigit || exists k | i <= k < hi :: IsDigit(s[k])
    decreases hi - i
  {
    if i == hi then (if acc.seenDigit then Some(acc.value) else None)
    else if IsDigit(s[i]) then Scan(s, i + 1, hi, acc.Push(DigitValue(s[i])))
    else if s[i] == '.' && !acc.seenDot then Scan(s, i + 1, hi, acc.(seenDot := true))
    else None
  }

  /** `float(s)` on decimal notation: surrounding whitespace, an optional
      sign, then digits with at most one '.'.  `None` is Python's ValueError. */
  function ParseFloat(s: string): (r: Option<real>)
    ensures r.Some? ==> exists k | 0 <= k < |s| :: IsDigit(s[k])
  {
    var a := TextStart(s, 0);
    var b := TextEnd(s, a, |s|);
    if a < b && (s[a] == '+' || s[a] == '-') then
      match Scan(s, a + 1, b, Start)
      case None => None
      case Some(v) => Some(if s[a] == '-' then -v else v)
    else Scan(s, a, b, Start)
  }

  /** Every character of `s[i..j]` is a digit. */
  predicate DigitsBetween(s: string, i: nat, j: nat)
    requires i <= j <= |s|
  {
    forall k | i <= k < j :: IsDigit(s[k])
  }

  /** The reading state after the digits `s[i..j]` were read from `acc`. */
  function AfterDigits(s: string, i: nat, j: nat, acc: Numeral): Numeral
    requires i <= j <= |s| && DigitsBetween(s, i, j)
  {
    assert forall k | 0 <= k < j - i :: s[i..j][k] == s[i + k];
    Numeral(acc.value * Pow10(j - i) as real + DigitsValue(s[i..j]) as real,
            acc.place, acc.seenDot, acc.seenDigit || i < j)
  }

  /** Reading a run of digits before any '.' shifts them into the value. */
  lemma {:induction false} ScanWhole(s: string, i: nat, j: nat, hi: nat, acc: Numeral)
    requires i <= j <= hi <= |s|
    requires DigitsBetween(s, i, j) && !acc.seenDot
    ensures Scan(s, i, hi, acc) == Scan(s, j, hi, AfterDigits(s, i, j, acc))
    decreases j - i
  {
    if i == j {
      assert s[i..j] == [];
      assert Pow10(0) == 1;
      assert AfterDigits(s, i, j, acc) == acc;
    } else {
      ScanWhole(s, i, j - 1, hi, acc);
      var before := AfterDigits(s, i, j - 1, acc);
      assert Scan(s, j - 1, hi, before) == Scan(s, j, hi, before.Push(DigitValue(s[j - 1])));
      AfterOneMoreDigit(s, i, j, acc);
    }
  }

  /** One more digit read before any '.' is one more digit shifted in. */
  lemma AfterOneMoreDigit(s: string, i: nat, j: nat, acc: Numeral)
    requires i < j <= |s| && DigitsBetween(s, i, j) && !acc.seenDot
    ensures AfterDigits(s, i, j - 1, acc).Push(DigitValue(s[j - 1])) == AfterDigits(s, i, j, acc)
  {
    assert s[i..j][..j - i - 1] == s[i..j - 1];
    assert s[j - 1] == s[i..j][j - i - 1];
    assert Pow10(j - i) == 10 * Pow10(j - 1 - i);
  }

  /** A '.' and two final digits add that many hundredths. */
  lemma ScanTwoDecimals(s: string, j: nat, w: real)
    requires j + 3 == |s| && s[j] == '.' && IsDigit(s[j + 1]) && IsDigit(s[j + 2])
    ensures Scan(s, j, |s|, Numeral(w, 0.1, false, true))
         == Some(w + (DigitValue(s[j + 1]) * 10 + DigitValue(s[j + 2])) as real / 100.0)
  {
    var a0 := Numeral(w, 0.1, true, true);
    var a1 := a0.Push(DigitValue(s[j + 1]));
    var a2 := a1.Push(DigitValue(s[j + 2]));
    assert Scan(s, j, |s|, Numeral(w, 0.1, false, true)) == Scan(s, j + 1, |s|, a0);
    assert Scan(s, j + 1, |s|, a0) == Scan(s, j + 2, |s|, a1);
    assert Scan(s, j + 2, |s|, a1) == Scan(s, j + 3, |s|, a2);
  }

  /** What is known of the rounding behind `'{:.2f}'`: `round2(x)` is a
      number of hundredths within half a hundredth of `x`, it is monotone,
      and it is exact on numbers that already are hundredths. */
  ghost predicate IsHundredthsRounding(round2: real -> int) {
    && (forall x: real :: -0.005 <= round2(x) as real / 100.0 - x <= 0.005)
    && (forall x: real, y: real :: x <= y ==> round2(x) <= round2(y))
    && (forall k: int :: round2(Hundredths(k)) == k)
  }

  /** The real number `k / 100`. */
  function Hundredths(k: int): real {
    k as real / 100.0
  }

  /** Rounding half up, one rounding that has those properties. */
  function HalfUp(x: real): int {
    (x * 100.0 + 0.5).Floor
  }

  type Rounding = f: real -> int | IsHundredthsRounding(f) witness HalfUp

  function Abs(x: real): real {
    if x < 0.0 then -x else x
  }

  /** Number of hundredths in the magnitude printed for `x`. */
  function Magnitude(x: real, round2: Rounding): (m: nat)
    ensures -0.005 <= m as real / 100.0 - Abs(x) <= 0.005
  {
    var h := round2(Abs(x));
    assert round2(Hundredths(0)) == 0;
    assert h >= 0;
    h
  }

  /** `'{:.2f}'.format(x)`: the sign of `x`, the whole part of the rounded
      magnitude, a '.', and exactly two fraction digits. */
  function FormatFixed2(x: real, round2: Rounding): (s: string)
    ensures IsFixed2Text(s)
    ensures ',' !in s
  {
    Fixed2Text(x < 0.0, Magnitude(x, round2))
  }

  /** A sign, then `m` hundredths written with exactly two fraction digits. */
  function Fixed2Text(negative: bool, m: nat): (s: string)
    ensures IsFixed2Text(s)
    ensures ',' !in s
  {
    var u := Unsigned2Text(m);
    var s := (if negative then "-" else "") + u;
    assert negative ==> s[1..] == u;
    s
  }

  /** `m` hundredths as unsigned text: the whole part, '.', two digits. */
  function Unsigned2Text(m: nat): (u: string)
    ensures |u| >= 4 && IsDigit(u[0])
    ensures AllDigits(u[..|u| - 3]) && u[|u| - 3] == '.' && AllDigits(u[|u| - 2..])
  {
    var d := NatToDigits(m / 100);
    var u := d + "." + TwoDigits(m % 100);
    assert u[0] == d[0];
    assert u[..|u| - 3] == d;
    u
  }

  function TwoDigits(n: nat): (s: string)
    requires n < 100
    ensures |s| == 2 && AllDigits(s) && DigitsValue(s) == n
  {
    var s := [DigitChar(n / 10), DigitChar(n % 10)];
    assert s[..1] == [DigitChar(n / 10)];
    assert s[..1][..0] == [];
    assert DigitsValue(s[..1]) == n / 10;
    s
  }

  /** An optional '-', at least one digit, a '.', and two digits. */
  predicate IsFixed2Text(s: string) {
    var body := if |s| > 0 && s[0] == '-' then s[1..] else s;
    && |body| >= 4
    && AllDigits(body[..|body| - 3])
    && body[|body| - 3] == '.'
    && AllDigits(body[|body| - 2..])
  }

  /** The number that `FormatFixed2(x, round2)` spells. */
  function Rounded2(x: real, round2: Rounding): real {
    SignedHundredths(x < 0.0, Magnitude(x, round2))
  }

  /** The number `Fixed2Text(negative, m)` spells. */
  function SignedHundredths(negative: bool, m: nat): real {
    if negative then -(m as real / 100.0) else m as real / 100.0
  }

  /** Unsigned two-decimal text, read from position `i` to the end, is
      the number of hundredths it was printed from. */
  lemma ScanUnsigned2Text(s: string, i: nat, m: nat)
    requires i <= |s| && s[i..] == Unsigned2Text(m)
    ensures Scan(s, i, |s|, Start) == Some(m as real / 100.0)
  {
    var j := i + |NatToDigits(m / 100)|;
    ScanWholePart(s, i, m);
    ScanFractionPart(s, j, m);
  }

  /** The whole part of unsigned two-decimal text is read as `m / 100`. */
  lemma ScanWholePart(s: string, i: nat, m: nat)
    requires i <= |s| && s[i..] == Unsigned2Text(m)
    ensures var j := i + |NatToDigits(m / 100)|;
            && j + 3 == |s|
            && Scan(s, i, |s|, Start) == Scan(s, j, |s|, Numeral((m / 100) as real, 0.1, false, true))
  {
    var d := NatToDigits(m / 100);
    var j := i + |d|;
    assert s[i..j] == d;
    assert AfterDigits(s, i, j, Start) == Numeral((m / 100) as real, 0.1, false, true) by {
      assert forall k | i <= k < j :: s[k] == d[k - i];
    }
    ScanWhole(s, i, j, |s|, Start);
  }

  /** The '.' and two fraction digits after the whole part complete the
      value to `m / 100`. */
  lemma ScanFractionPart(s: string, j: nat, m: nat)
    requires j + 3 == |s| && s[j..] == "." + TwoDigits(m % 100)
    ensures Scan(s, j, |s|, Numeral((m / 100) as real, 0.1, false, true)) == Some(m as real / 100.0)
  {
    var f := TwoDigits(m % 100);
    var w := (m / 100) as real;
    assert s[j] == '.' && s[j + 1] == f[0] && s[j + 2] == f[1];
    ScanTwoDecimals(s, j, w);
    assert DigitValue(s[j + 1]) * 10 + DigitValue(s[j + 2]) == m % 100 by {
      assert f[..1] == [f[0]];
      assert DigitsValue(f) == DigitValue(f[0]) * 10 + DigitValue(f[1]);
    }
    assert w + (m % 100) as real / 100.0 == m as real / 100.0 by {
      assert (m / 100) * 100 + m % 100 == m;
    }
  }

  /** Reading digits and dots onto a non-negative value gives a
      non-negative value. */
  lemma {:induction false} ScanNonNegative(s: string, i: nat, hi: nat, acc: Numeral)
    requires i <= hi <= |s|
    requires acc.value >= 0.0 && acc.place > 0.0
    ensures Scan(s, i, hi, acc).Some? ==> Scan(s, i, hi, acc).value >= 0.0
    decreases hi - i
  {
    if i < hi {
      if IsDigit(s[i]) {
        var d := DigitValue(s[i]);
        assert d as real * acc.place >= 0.0;
        ScanNonNegative(s, i + 1, hi, acc.Push(d));
      } else if s[i] == '.' && !acc.seenDot {
        ScanNonNegative(s, i + 1, hi, acc.(seenDot := true));
      }
    }
  }

  /** A text made of digits and dots only, read by `float()`, is never
      negative: there is no room for a sign. */
  lemma ParseFloatOfNumerals(s: string)
    requires |s| >= 1 && forall k | 0 <= k < |s| :: IsDigit(s[k]) || s[k] == '.'
    ensures ParseFloat(s).Some? ==> ParseFloat(s).value >= 0.0
  {
    assert TextStart(s, 0) == 0;
    ScanNonNegative(s, 0, TextEnd(s, 0, |s|), Start);
  }

  /** A run of digits is read as the whole number it spells. */
  lemma ParseFloatOfDigits(n: nat)
    ensures ParseFloat(NatToDigits(n)) == Some(n as real)
  {
    var s := NatToDigits(n);
    assert TextStart(s, 0) == 0;
    assert s[0..|s|] == s;
    assert DigitsBetween(s, 0, |s|);
    ScanWhole(s, 0, |s|, |s|, Start);
  }

  /** Any run of digits, leading zeros included, is read as the whole
      number it spells. */
  lemma ParseFloatOfDigitRun(s: string)
    requires |s| >= 1 && AllDigits(s)
    ensures ParseFloat(s) == Some(DigitsValue(s) as real)
  {
    assert TextStart(s, 0) == 0;
    assert s[0..|s|] == s;
    assert DigitsBetween(s, 0, |s|);
    ScanWhole(s, 0, |s|, |s|, Start);
  }

  /** Reading stops with no number at a second '.'. */
  lemma {:induction false} ScanDotAfterDot(s: string, i: nat, q: nat, hi: nat, acc: Numeral)
    requires i <= q < hi <= |s| && s[q] == '.' && acc.seenDot
    ensures Scan(s, i, hi, acc) == None
    decreases q - i
  {
    if i < q && IsDigit(s[i]) {
      ScanDotAfterDot(s, i + 1, q, hi, acc.Push(DigitValue(s[i])));
    }
  }

  /** A numeral with two '.' is not a number. */
  lemma {:induction false} ScanTwoDots(s: string, i: nat, p: nat, q: nat, hi: nat, acc: Numeral)
    requires i <= p < q < hi <= |s| && s[p] == '.' && s[q] == '.'
    ensures Scan(s, i, hi, acc) == None
    decreases p - i
  {
    if acc.seenDot {
      ScanDotAfterDot(s, i, p, hi, acc);
    } else if i < p && IsDigit(s[i]) {
      ScanTwoDots(s, i + 1, p, q, hi, acc.Push(DigitValue(s[i])));
    } else if s[i] == '.' {
      ScanDotAfterDot(s, i + 1, q, hi, acc.(seenDot := true));
    }
  }

  /** `float()` rejects unsigned text with two '.', such as "1.2.3". */
  lemma ParseFloatTwoDots(s: string, p: nat, q: nat)
    requires |s| >= 1 && (IsDigit(s[0]) || s[0] == '.') && (IsDigit(s[|s| - 1]) || s[|s| - 1] == '.')
    requires p < q < |s| && s[p] == '.' && s[q] == '.'
    ensures ParseFloat(s) == None
  {
    assert TextStart(s, 0) == 0;
    ScanTwoDots(s, 0, p, q, |s|, Start);
  }

  /** Text with no surrounding whitespace, starting with a digit or with
      '-', is read as its unsigned part, negated after a '-'. */
  lemma ParseFloatSigned(s: string, negative: bool, v: real)
    requires |s| > 1 && IsDigit(s[|s| - 1])
    requires if negative then s[0] == '-' else IsDigit(s[0])
    requires Scan(s, if negative then 1 else 0, |s|, Start) == Some(v)
    ensures ParseFloat(s) == Some(if negative then -v else v)
  {
    assert TextStart(s, 0) == 0;
  }

  /** Text that is a '-' (or nothing) in front of the unsigned text of
      `m` hundredths reads back as the signed number. */
  lemma ParseSignedUnsigned2Text(s: string, negative: bool, m: nat)
    requires |s| > 1
    requires if negative then s[0] == '-' && s[1..] == Unsigned2Text(m) else s == Unsigned2Text(m)
    ensures ParseFloat(s) == Some(SignedHundredths(negative, m))
  {
    var u := Unsigned2Text(m);
    var i := if negative then 1 else 0;
    assert s[i..] == u;
    assert s[|s| - 1] == u[|u| - 1];
    ScanUnsigned2Text(s, i, m);
    var v := m as real / 100.0;
    assert SignedHundredths(negative, m) == if negative then -v else v;
    ParseFloatSigned(s, negative, v);
  }

  /** The text printed for a signed number of hundredths reads back as it. */
  lemma ParseFixed2Text(negative: bool, m: nat)
    ensures ParseFloat(Fixed2Text(negative, m)) == Some(SignedHundredths(negative, m))
  {
    var s := Fixed2Text(negative, m);
    assert negative ==> s[1..] == Unsigned2Text(m);
    ParseSignedUnsigned2Text(s, negative, m);
  }

  /** Reading back the two-decimal text gives the rounded number. */
  lemma ParseFormatFixed2(x: real, round2: Rounding)
    ensures ParseFloat(FormatFixed2(x, round2)) == Some(Rounded2(x, round2))
  {
    ParseFixed2Text(x < 0.0, Magnitude(x, round2));
  }

  /** The printed number is within half a hundredth of `x`. */
  lemma Rounded2Close(x: real, round2: Rounding)
    ensures -0.005 <= Rounded2(x, round2) - x <= 0.005
  {
  }

  /** Printing preserves order. */
  lemma Rounded2Monotone(x: real, y: real, round2: Rounding)
    requires x <= y
    ensures Rounded2(x, round2) <= Rounded2(y, round2)
  {
    if 0.0 <= x {
      assert round2(Abs(x)) <= round2(Abs(y));
    } else if y < 0.0 {
      assert round2(Abs(y)) <= round2(Abs(x));
    }
  }

  /** A number that already has two decimals is printed unchanged. */
  lemma Rounded2Exact(k: int, round2: Rounding)
    ensures Rounded2(Hundredths(k), round2) == Hundredths(k)
  {
    var x := Hundredths(k);
    if x < 0.0 {
      assert Abs(x) == Hundredths(-k);
      assert round2(Hundredths(-k)) == -k;
    } else {
      assert round2(Hundredths(k)) == k;
    }
  }

  /** A number between two hundredths prints between them. */
  lemma Rounded2Between(x: real, lo: int, hi: int, round2: Rounding)
    requires Hundredths(lo) <= x <= Hundredths(hi)
    ensures Hundredths(lo) <= Rounded2(x, round2) <= Hundredths(hi)
  {
    Rounded2Monotone(Hundredths(lo), x, round2);
    Rounded2Monotone(x, Hundredths(hi), round2);
    Rounded2Exact(lo, round2);
    Rounded2Exact(hi, round2);
  }

  /** `int(x)` for a float: truncation toward zero. */
  function Trunc(x: real): (n: int)
    ensures 0.0 <= x ==> n as real <= x < n as real + 1.0
    ensures x < 0.0 ==> n as real - 1.0 < x <= n as real
  {
    if x >= 0.0 then x.Floor else -((-x).Floor)
  }
}
