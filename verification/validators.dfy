/** The field validators of apps/user/validators.py: the mainland mobile
    number pattern of `PhoneValidator` and the upload limit of
    `FileSizeValidator`, whose limit is a byte count or a text such as
    "2MB". */
module UserValidators {
  import opened Wrappers
  import opened Text
  import Decimal

  /** The three-character prefixes `PhoneValidator.regex` accepts, read
      as written: the classes `[5,7]`, `[0-3,5-9]` and `[0,3,5-8]` hold a
      literal ',' as well. */
  predicate WrittenPrefix(s: string)
    requires |s| >= 3
  {
    s[0] == '1' &&
    (  (s[1] == '3' && IsDigit(s[2]))
    || (s[1] == '4' && (s[2] == '5' || s[2] == ',' || s[2] == '7'))
    || (s[1] == '5' && ('0' <= s[2] <= '3' || s[2] == ',' || '5' <= s[2] <= '9'))
    || (s[1] == '7' && (s[2] == '0' || s[2] == ',' || s[2] == '3' || '5' <= s[2] <= '8'))
    || (s[1] == '8' && IsDigit(s[2]))
    || (s[1] == '6' && s[2] == '6')
    || (s[1] == '9' && (s[2] == '8' || s[2] == '9'))
    || (s[1] == '4' && s[2] == '7'))
  }

  /** The whole-string match of `PhoneValidator.regex`: an accepted prefix
      and then exactly eight digits.  An accepted number is eleven
      characters starting with '1', and every one of them is a digit except
      possibly a ',' third. */
  function IsPhone(s: string): (b: bool)
    ensures b ==> |s| == 11 && s[0] == '1' && '3' <= s[1] <= '9'
    ensures b ==> forall i | 0 <= i < 11 && i != 2 :: IsDigit(s[i])
    ensures b ==> IsDigit(s[2]) || s[2] == ','
  {
    |s| == 11 && WrittenPrefix(s) && forall i | 3 <= i < 11 :: IsDigit(s[i])
  }

  /** The prefixes the pattern evidently means: its classes without the
      commas. */
  predicate IntendedPrefix(s: string)
    requires |s| >= 3
  {
    WrittenPrefix(s) && s[2] != ','
  }

  /** The corrected pattern: eleven digits with an intended prefix. */
  predicate IsPhoneIntended(s: string) {
    |s| == 11 && IntendedPrefix(s) && forall i | 3 <= i < 11 :: IsDigit(s[i])
  }

  /** The prefixes the pattern lists, one by one. */
  const ListedPrefixes: set<string> :=
    {"130", "131", "132", "133", "134", "135", "136", "137", "138", "139",
     "145", "147",
     "150", "151", "152", "153", "155", "156", "157", "158", "159",
     "170", "173", "175", "176", "177", "178",
     "180", "181", "182", "183", "184", "185", "186", "187", "188", "189",
     "166", "198", "199"}

  /** The as-written pattern accepts a ',' as the third character. */
  lemma PhoneCommaAccepted()
    ensures IsPhone("14,12345678") && IsPhone("15,12345678") && IsPhone("17,12345678")
    ensures !IsPhoneIntended("14,12345678")
  {
  }

  /** Every number the corrected pattern accepts is eleven digits, and its
      first three are one of the listed prefixes. */
  lemma {:induction false} PhoneIntendedListed(s: string)
    requires IsPhoneIntended(s)
    ensures AllDigits(s) && s[..3] in ListedPrefixes
  {
    var p := s[..3];
    assert p == [s[0], s[1], s[2]];
  }

  /** The corrected pattern accepts exactly the listed prefixes followed by
      eight digits. */
  lemma {:induction false} PhoneListedIntended(s: string)
    requires |s| == 11 && s[..3] in ListedPrefixes && forall i | 3 <= i < 11 :: IsDigit(s[i])
    ensures IsPhoneIntended(s)
  {
    var p := s[..3];
    assert p[0] == s[0] && p[1] == s[1] && p[2] == s[2];
  }

  /** On all-digit text both patterns agree. */
  lemma PhoneDigitsAgree(s: string)
    requires AllDigits(s)
    ensures IsPhone(s) <==> IsPhoneIntended(s)
  {
    if |s| >= 3 {
      assert IsDigit(s[2]);
    }
  }

  /** Prefixes the list leaves out, such as 140, 154 and 171, are refused. */
  lemma PhoneUnlistedRefused(s: string)
    requires |s| >= 3 && s[0] == '1'
    requires (s[1] == '4' && s[2] == '0') || (s[1] == '5' && s[2] == '4') || (s[1] == '7' && s[2] == '1')
    ensures !IsPhone(s) && !IsPhoneIntended(s)
  {
  }

  /** `FileSizeValidator.unit_muti_map`. */
  const KiB: nat := 1024
  const MiB: nat := 1048576

  /** The multiplier of a unit whose first letter is `c`, after
      upper-casing: "KB" or "MB". */
  function UnitOf(c: char): (m: Option<nat>)
    ensures m.Some? <==> c == 'K' || c == 'M'
    ensures c == 'K' ==> m == Some(KiB)
    ensures c == 'M' ==> m == Some(MiB)
  {
    if c == 'K' then Some(KiB) else if c == 'M' then Some(MiB) else None
  }

  /** Characters of the class `[\d.]`. */
  predicate IsNumeral(c: char) {
    IsDigit(c) || c == '.'
  }

  /** One past the longest run of `[\d.]` starting at `i`. */
  function NumeralEnd(t: string, i: nat): (j: nat)
    requires i <= |t|
    ensures i <= j <= |t|
    ensures j < |t| ==> !IsNumeral(t[j])
    ensures forall k | i <= k < j :: IsNumeral(t[k])
    decreases |t| - i
  {
    if i < |t| && IsNumeral(t[i]) then NumeralEnd(t, i + 1) else i
  }

  /** `re.match(r"([\d.]+)(KB|MB)", t)`: the greedy run of numerals can give
      nothing back to the unit, so the match exists exactly when that run is
      not empty and "KB" or "MB" follows it.  The result is the numeral and
      the unit's multiplier. */
  function MatchSize(t: string): (r: Option<(string, nat)>)
    ensures r.Some? ==> |r.value.0| >= 1 && forall k | 0 <= k < |r.value.0| :: IsNumeral(r.value.0[k])
  {
    var n := NumeralEnd(t, 0);
    if 1 <= n && n + 2 <= |t| && UnitOf(t[n]).Some? && t[n + 1] == 'B' then
      Some((t[..n], UnitOf(t[n]).value))
    else None
  }

  /** `float()` raises ValueError on the matched numeral. */
  datatype SizeError = NotANumber

  /** `FileSizeValidator._get_size`: upper-case, strip and match; no match
      gives 0. */
  function SizeOfText(size: string): (r: Result<real, SizeError>)
    ensures MatchSize(Strip(AsciiUpper(size))).None? ==> r == Ok(0.0)
    ensures r.Err? ==> MatchSize(Strip(AsciiUpper(size))).Some?
    ensures r.Ok? ==> r.value >= 0.0
  {
    match MatchSize(Strip(AsciiUpper(size)))
    case None => Ok(0.0)
    case Some(m) =>
      match Decimal.ParseFloat(m.0)
      case None => Err(NotANumber)
      case Some(v) =>
        Decimal.ParseFloatOfNumerals(m.0);
        Ok(InBytes(v, m.1))
  }

  /** `amount` units of `unit` bytes each; never negative for a
      non-negative amount. */
  function InBytes(amount: real, unit: nat): (b: real)
    ensures amount >= 0.0 ==> b >= 0.0
  {
    amount * unit as real
  }

  /** The `max_size` argument: a number of bytes or a size text. */
  datatype MaxSize = Bytes(amount: real) | SizeText(text: string)

  datatype FileSizeValidator = FileSizeValidator(raw: MaxSize, maxSize: real)

  /** `FileSizeValidator(max_size)`: a number is the limit as it is, a text
      is read by `SizeOfText`, whose ValueError escapes the constructor. */
  function NewFileSizeValidator(raw: MaxSize): (r: Result<FileSizeValidator, SizeError>)
    ensures r.Ok? ==> r.value.raw == raw
    ensures raw.Bytes? ==> r == Ok(FileSizeValidator(raw, raw.amount))
    ensures raw.SizeText? ==> (r.Ok? <==> SizeOfText(raw.text).Ok?)
    ensures raw.SizeText? && r.Ok? ==> r.value.maxSize == SizeOfText(raw.text).value
  {
    match raw
    case Bytes(n) => Ok(FileSizeValidator(raw, n))
    case SizeText(s) =>
      var n :- SizeOfText(s);
      Ok(FileSizeValidator(raw, n))
  }

  /** An uploaded file: Django's file field is false when it has no name. */
  datatype Upload = Upload(name: string, size: nat)

  datatype UploadError = NoFile | TooLarge

  /** `FileSizeValidator.__call__`: no file is refused, then a file larger
      than the limit. */
  function Validate(v: FileSizeValidator, file: Option<Upload>): (r: Result<Upload, UploadError>)
    ensures r == Err(NoFile) <==> file.None? || file.value.name == ""
    ensures r.Ok? <==> file.Some? && file.value.name != "" && file.value.size as real <= v.maxSize
    ensures r.Ok? ==> r.value == file.value
  {
    if file.None? || file.value.name == "" then Err(NoFile)
    else if file.value.size as real > v.maxSize then Err(TooLarge)
    else Ok(file.value)
  }

  /** Upper-casing leaves digits, '.' and whitespace alone, and maps a
      character to 'K', 'M' or 'B' exactly when it is one in either case. */
  lemma UpperChar(s: string, i: nat)
    requires i < |s|
    ensures IsDigit(s[i]) ==> AsciiUpper(s)[i] == s[i]
    ensures IsNumeral(AsciiUpper(s)[i]) <==> IsNumeral(s[i])
    ensures IsSpace(AsciiUpper(s)[i]) <==> IsSpace(s[i])
    ensures AsciiUpper(s)[i] == 'K' <==> s[i] == 'K' || s[i] == 'k'
    ensures AsciiUpper(s)[i] == 'M' <==> s[i] == 'M' || s[i] == 'm'
    ensures AsciiUpper(s)[i] == 'B' <==> s[i] == 'B' || s[i] == 'b'
  {
  }

  /** The strip starts at the first character that is not whitespace. */
  lemma {:induction false} StartFrom(u: string, i: nat, a: nat)
    requires i <= a < |u| && !IsSpace(u[a])
    requires forall k | i <= k < a :: IsSpace(u[k])
    ensures TextStart(u, i) == a
    decreases a - i
  {
    if i < a {
      StartFrom(u, i + 1, a);
    }
  }

  /** The strip keeps every character up to one that is not whitespace. */
  lemma {:induction false} EndBeyond(u: string, lo: nat, j: nat, m: nat)
    requires lo <= m < j <= |u| && !IsSpace(u[m])
    ensures TextEnd(u, lo, j) > m
    decreases j - lo
  {
    if j - 1 > m {
      EndBeyond(u, lo, j - 1, m);
    }
  }

  /** The run of numerals ends at the first character outside `[\d.]`. */
  lemma {:induction false} NumeralEndAt(t: string, i: nat, n: nat)
    requires i <= n <= |t|
    requires forall k | i <= k < n :: IsNumeral(t[k])
    requires n < |t| ==> !IsNumeral(t[n])
    ensures NumeralEnd(t, i) == n
    decreases n - i
  {
    if i < n {
      NumeralEndAt(t, i + 1, n);
    }
  }

  /** When `u` is whitespace up to `a`, and neither `u[a]` nor `u[m]` is
      whitespace, the stripped text runs from `a` to beyond `m`. */
  lemma StripFrom(u: string, a: nat, m: nat)
    requires a <= m < |u| && !IsSpace(u[a]) && !IsSpace(u[m])
    requires forall i | 0 <= i < a :: IsSpace(u[i])
    ensures var t := Strip(u);
            m - a < |t| && forall i | 0 <= i < |t| :: a + i < |u| && t[i] == u[a + i]
  {
    StartFrom(u, 0, a);
    EndBeyond(u, a, |u|, m);
    var e := TextEnd(u, a, |u|);
    var t := Strip(u);
    assert t == u[a..e];
    forall i | 0 <= i < |t| ensures a + i < |u| && t[i] == u[a + i] {
    }
  }

  /** The same for the upper-cased text of `s`. */
  lemma StrippedFrom(s: string, a: nat, m: nat)
    requires a <= m < |s| && !IsSpace(s[a]) && !IsSpace(s[m])
    requires forall i | 0 <= i < a :: IsSpace(s[i])
    ensures var u := AsciiUpper(s);
            var t := Strip(u);
            m - a < |t| && forall i | 0 <= i < |t| :: a + i < |u| && t[i] == u[a + i]
  {
    var u := AsciiUpper(s);
    forall i | 0 <= i < a ensures IsSpace(u[i]) {
      UpperChar(s, i);
    }
    UpperChar(s, a);
    UpperChar(s, m);
    StripFrom(u, a, m);
  }

  /** A run of numerals from 0 to `n` and then "KB" or "MB" matches. */
  lemma MatchedRun(t: string, n: nat)
    requires 1 <= n && n + 2 <= |t|
    requires forall k | 0 <= k < n :: IsNumeral(t[k])
    requires (t[n] == 'K' || t[n] == 'M') && t[n + 1] == 'B'
    ensures MatchSize(t) == Some((t[..n], UnitOf(t[n]).value))
  {
    NumeralEndAt(t, 0, n);
  }

  /** The stripped, upper-cased text of numerals after whitespace and a
      unit: the numerals, then the unit in capitals. */
  lemma StrippedNumeralsAndUnit(s: string, a: nat, k: nat)
    requires a < k && k + 2 <= |s|
    requires forall i | 0 <= i < a :: IsSpace(s[i])
    requires forall i | a <= i < k :: IsNumeral(s[i])
    requires s[k] in "KkMm" && s[k + 1] in "Bb"
    ensures var u := AsciiUpper(s);
            var t := Strip(u);
            && k - a + 2 <= |t|
            && (forall i | 0 <= i < k - a :: t[i] == u[a + i] && IsNumeral(t[i]))
            && t[k - a] == (if s[k] in "Kk" then 'K' else 'M')
            && t[k - a + 1] == 'B'
  {
    StrippedFrom(s, a, k + 1);
    UpperRun(s, Strip(AsciiUpper(s)), a, k);
  }

  /** A text that follows the upper-cased `s` from `a` on holds its
      numerals and then the unit in capitals. */
  lemma UpperRun(s: string, t: string, a: nat, k: nat)
    requires a < k && k + 2 <= |s|
    requires forall i | a <= i < k :: IsNumeral(s[i])
    requires s[k] in "KkMm" && s[k + 1] in "Bb"
    requires k - a + 1 < |t|
    requires forall i | 0 <= i < |t| :: a + i < |s| && t[i] == AsciiUpper(s)[a + i]
    ensures forall i | 0 <= i < k - a :: t[i] == AsciiUpper(s)[a + i] && IsNumeral(t[i])
    ensures t[k - a] == (if s[k] in "Kk" then 'K' else 'M')
    ensures t[k - a + 1] == 'B'
  {
    forall i | 0 <= i < k - a ensures IsNumeral(t[i]) {
      UpperChar(s, a + i);
    }
    UpperChar(s, k);
    UpperChar(s, k + 1);
  }

  /** Numerals after whitespace and then a unit match as those numerals
      and that unit. */
  lemma NumeralsAndUnitMatch(s: string, a: nat, k: nat, unit: nat)
    requires a < k && k + 2 <= |s|
    requires forall i | 0 <= i < a :: IsSpace(s[i])
    requires forall i | a <= i < k :: IsNumeral(s[i])
    requires s[k] in "KkMm" && s[k + 1] in "Bb"
    requires unit == if s[k] in "Kk" then KiB else MiB
    ensures MatchSize(Strip(AsciiUpper(s))) == Some((AsciiUpper(s)[a..k], unit))
  {
    StrippedNumeralsAndUnit(s, a, k);
    MatchIn(AsciiUpper(s), Strip(AsciiUpper(s)), a, k, unit);
  }

  /** A text that starts with the numerals `u[a..k]` and then "KB" or
      "MB" matches as those numerals and that unit. */
  lemma MatchIn(u: string, t: string, a: nat, k: nat, unit: nat)
    requires a < k <= |u| && k - a + 2 <= |t|
    requires forall i | 0 <= i < k - a :: t[i] == u[a + i] && IsNumeral(t[i])
    requires t[k - a] == 'K' || t[k - a] == 'M'
    requires t[k - a + 1] == 'B'
    requires unit == if t[k - a] == 'K' then KiB else MiB
    ensures MatchSize(t) == Some((u[a..k], unit))
  {
    MatchedRun(t, k - a);
    assert t[..k - a] == u[a..k];
  }

  /** The limit a match sets is its number times its unit. */
  lemma SizeOfMatch(s: string, num: string, unit: nat, v: real)
    requires MatchSize(Strip(AsciiUpper(s))) == Some((num, unit))
    requires Decimal.ParseFloat(num) == Some(v)
    ensures SizeOfText(s) == Ok(InBytes(v, unit))
  {
  }

  /** A match whose number `float()` rejects makes the limit fail. */
  lemma SizeOfBadMatch(s: string, num: string, unit: nat)
    requires MatchSize(Strip(AsciiUpper(s))) == Some((num, unit))
    requires Decimal.ParseFloat(num) == None
    ensures SizeOfText(s) == Err(NotANumber)
  {
  }

  /** Digits from `a` to `k` after leading whitespace, then "KB" or "MB" in
      either case, set a limit of that many KiB or MiB (`unit`), whatever
      follows the unit. */
  lemma SizeOfDigitsAndUnit(s: string, a: nat, k: nat, unit: nat)
    requires a < k && k + 2 <= |s|
    requires forall i | 0 <= i < a :: IsSpace(s[i])
    requires forall i | a <= i < k :: IsDigit(s[i])
    requires s[k] in "KkMm" && s[k + 1] in "Bb"
    requires unit == if s[k] in "Kk" then KiB else MiB
    ensures SizeOfText(s) == Ok(InBytes(DigitsValue(s[a..k]) as real, unit))
  {
    var run := s[a..k];
    assert Decimal.ParseFloat(run) == Some(DigitsValue(run) as real) by {
      Decimal.ParseFloatOfDigitRun(run);
    }
    assert MatchSize(Strip(AsciiUpper(s))) == Some((run, unit)) by {
      NumeralsAndUnitMatch(s, a, k, unit);
      UpperDigits(s, a, k);
    }
    SizeOfMatch(s, run, unit, DigitsValue(run) as real);
  }

  /** Upper-casing leaves a run of digits as it is. */
  lemma UpperDigits(s: string, a: nat, k: nat)
    requires a <= k <= |s|
    requires forall i | a <= i < k :: IsDigit(s[i])
    ensures AsciiUpper(s)[a..k] == s[a..k]
  {
    forall i | a <= i < k ensures AsciiUpper(s)[i] == s[i] {
      UpperChar(s, i);
    }
  }

  /** Upper-casing keeps the two '.' of a run of numerals. */
  lemma UpperTwoDots(s: string, a: nat, p: nat, q: nat, k: nat)
    requires a <= p < q < k <= |s|
    requires forall i | a <= i < k :: IsNumeral(s[i])
    requires s[p] == '.' && s[q] == '.'
    ensures Decimal.ParseFloat(AsciiUpper(s)[a..k]) == None
  {
    var num := AsciiUpper(s)[a..k];
    UpperChar(s, p);
    UpperChar(s, q);
    UpperChar(s, a);
    UpperChar(s, k - 1);
    assert num[p - a] == '.' && num[q - a] == '.';
    assert IsNumeral(num[0]) && IsNumeral(num[|num| - 1]);
    Decimal.ParseFloatTwoDots(num, p - a, q - a);
  }

  /** A run of numerals followed by anything but a unit, or by nothing,
      does not match, which sets a limit of 0 bytes: "10 MB" is one. */
  lemma SizeWithoutUnit(s: string, a: nat, k: nat)
    requires a < k <= |s|
    requires forall i | 0 <= i < a :: IsSpace(s[i])
    requires forall i | a <= i < k :: IsNumeral(s[i])
    requires k < |s| ==> !IsNumeral(s[k]) && s[k] !in "KkMm"
    ensures SizeOfText(s) == Ok(0.0)
  {
    NoUnitNoMatch(s, a, k);
  }

  /** Without a unit after the numerals there is no match. */
  lemma NoUnitNoMatch(s: string, a: nat, k: nat)
    requires a < k <= |s|
    requires forall i | 0 <= i < a :: IsSpace(s[i])
    requires forall i | a <= i < k :: IsNumeral(s[i])
    requires k < |s| ==> !IsNumeral(s[k]) && s[k] !in "KkMm"
    ensures MatchSize(Strip(AsciiUpper(s))) == None
  {
    StrippedFrom(s, a, k - 1);
    NoUnitIn(s, Strip(AsciiUpper(s)), a, k);
  }

  /** A text that follows the upper-cased `s` from `a` on, past a run of
      numerals with no unit after it, does not match. */
  lemma NoUnitIn(s: string, t: string, a: nat, k: nat)
    requires a < k <= |s|
    requires forall i | a <= i < k :: IsNumeral(s[i])
    requires k < |s| ==> !IsNumeral(s[k]) && s[k] !in "KkMm"
    requires k - 1 - a < |t|
    requires forall i | 0 <= i < |t| :: a + i < |s| && t[i] == AsciiUpper(s)[a + i]
    ensures MatchSize(t) == None
  {
    forall i | 0 <= i < k - a ensures IsNumeral(t[i]) {
      UpperChar(s, a + i);
    }
    if k - a < |t| {
      assert a + (k - a) < |s| && t[k - a] == AsciiUpper(s)[a + (k - a)];
      UpperChar(s, k);
      assert !IsNumeral(t[k - a]) && t[k - a] != 'K' && t[k - a] != 'M';
    }
    NoUnitAt(t, k - a);
  }

  /** A run of numerals that ends the text, or is followed by anything but
      a unit letter, does not match. */
  lemma NoUnitAt(t: string, n: nat)
    requires 1 <= n <= |t|
    requires forall i | 0 <= i < n :: IsNumeral(t[i])
    requires n < |t| ==> !IsNumeral(t[n]) && t[n] != 'K' && t[n] != 'M'
    ensures MatchSize(t) == None
  {
    NumeralEndAt(t, 0, n);
  }

  /** A matched numeral with two '.', as in "1.2.3MB", makes the
      constructor raise ValueError. */
  lemma SizeWithTwoDots(s: string, a: nat, p: nat, q: nat, k: nat)
    requires a <= p < q < k && k + 2 <= |s|
    requires forall i | 0 <= i < a :: IsSpace(s[i])
    requires forall i | a <= i < k :: IsNumeral(s[i])
    requires s[p] == '.' && s[q] == '.'
    requires s[k] in "KkMm" && s[k + 1] in "Bb"
    ensures SizeOfText(s) == Err(NotANumber)
    ensures NewFileSizeValidator(SizeText(s)) == Err(NotANumber)
  {
    var unit := if s[k] in "Kk" then KiB else MiB;
    NumeralsAndUnitMatch(s, a, k, unit);
    UpperTwoDots(s, a, p, q, k);
    SizeOfBadMatch(s, AsciiUpper(s)[a..k], unit);
  }

  /** With the limit "<n>MB" a file of exactly n MiB passes and one byte
      more is refused. */
  lemma MegabyteLimitBoundary(n: nat, name: string)
    requires name != ""
    ensures NewFileSizeValidator(SizeText(NatToDigits(n) + "MB")).Ok?
    ensures var v := NewFileSizeValidator(SizeText(NatToDigits(n) + "MB")).value;
            && Validate(v, Some(Upload(name, n * MiB))).Ok?
            && Validate(v, Some(Upload(name, n * MiB + 1))) == Err(TooLarge)
  {
    var d := NatToDigits(n);
    var s := d + "MB";
    assert SizeOfText(s) == Ok(InBytes(n as real, MiB)) by {
      assert s[0..|d|] == d;
      assert s[|d|] == 'M' && s[|d| + 1] == 'B';
      SizeOfDigitsAndUnit(s, 0, |d|, MiB);
    }
    assert InBytes(n as real, MiB) == (n * MiB) as real;
    assert NewFileSizeValidator(SizeText(s)).value.maxSize == (n * MiB) as real;
  }
}
