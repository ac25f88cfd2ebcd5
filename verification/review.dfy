/** The adaptive review scheduler of utils/review.py: a comma-separated plan
    of intervals (in days) is rescaled by the learner's feedback from the
    current stage onward, printed back with two decimals, and the next
    review date is read off the entry of the next stage. */
module Review {
  import opened Wrappers
  import opened Text
  import opened Decimal

  /** Multiplier of each declared feedback value. */
  const FeedbackMap: map<int, real> := map[0 := 0.5, 1 := 0.7, 2 := 1.0, 3 := 1.2]
  const FeedbackMultiFactor := 1.0
  const FeedbackAmendFactor := 1.0
  const MaxInterval := 60.0
  const MinInterval := 1.0

  /** The key a raw feedback value is looked up under: `feedback or 2`
      replaces both a missing value and the falsy 0 by 2. */
  function FeedbackKey(feedback: Option<int>): (k: int)
    ensures k != 0
    ensures feedback.Some? && feedback.value != 0 ==> k == feedback.value
    ensures feedback.None? || feedback.value == 0 ==> k == 2
  {
    match feedback
    case None => 2
    case Some(f) => if f == 0 then 2 else f
  }

  /** `FEEDBACK_MAP.get(key, 1)`. */
  function Multiplier(key: int): (m: real)
    ensures key in FeedbackMap ==> m == FeedbackMap[key]
    ensures key !in FeedbackMap ==> m == 1.0
  {
    if key in FeedbackMap then FeedbackMap[key] else 1.0
  }

  /** The factor every rescaled interval is multiplied by: the feedback's
      multiplier, amended by how far it moved from the last one.  Repeating
      a feedback gives its multiplier, and the factor lies in [0.2, 1.7]. */
  function Factor(feedback: Option<int>, lastFeedback: Option<int>): (d: real)
    ensures FeedbackKey(feedback) == FeedbackKey(lastFeedback) ==> d == Multiplier(FeedbackKey(feedback))
    ensures d - Multiplier(FeedbackKey(feedback)) == Multiplier(FeedbackKey(feedback)) - Multiplier(FeedbackKey(lastFeedback))
    ensures 0.2 <= d <= 1.7
  {
    var f := Multiplier(FeedbackKey(feedback));
    var fPrev := Multiplier(FeedbackKey(lastFeedback));
    FeedbackMultiFactor * (f + FeedbackAmendFactor * (f - fPrev))
  }

  /** The two sequential bounds checks on a new interval. */
  function Clamp(x: real): (y: real)
    ensures MinInterval <= y <= MaxInterval
    ensures MinInterval <= x <= MaxInterval ==> y == x
    ensures x < MinInterval ==> y == MinInterval
    ensures x > MaxInterval ==> y == MaxInterval
  {
    var y := if x < MinInterval then MinInterval else x;
    if y > MaxInterval then MaxInterval else y
  }

  /** The stage moved into the plan: past the end becomes the last index,
      below zero becomes zero. */
  function ClampStage(stage: int, n: nat): (s: nat)
    requires n >= 1
    ensures s < n
    ensures 0 <= stage < n ==> s == stage
    ensures stage >= n ==> s == n - 1
    ensures stage < 0 ==> s == 0
  {
    if stage >= n then n - 1 else if stage < 0 then 0 else stage
  }

  /** `float()` raised on the token at `entry` of the split plan. */
  datatype ReviewError = MalformedPlan(entry: nat)

  /** `list(map(float, tokens))`: fails on the first token `float()`
      rejects. */
  function ParseEntries(tokens: seq<string>): (r: Result<seq<real>, ReviewError>)
    ensures r.Ok? <==> forall i | 0 <= i < |tokens| :: ParseFloat(tokens[i]).Some?
    ensures r.Ok? ==> |r.value| == |tokens|
    ensures r.Ok? ==> forall i | 0 <= i < |tokens| :: ParseFloat(tokens[i]) == Some(r.value[i])
  {
    if |tokens| == 0 then Ok([])
    else
      match ParseFloat(tokens[0])
      case None => Err(MalformedPlan(0))
      case Some(v) =>
        match ParseEntries(tokens[1..])
        case Err(e) =>
          assert exists j | 0 <= j < |tokens[1..]| :: ParseFloat(tokens[1..][j]).None?;
          assert forall j | 0 <= j < |tokens[1..]| :: tokens[1..][j] == tokens[j + 1];
          Err(MalformedPlan(e.entry + 1))
        case Ok(vs) =>
          assert forall j | 0 <= j < |tokens[1..]| :: tokens[1..][j] == tokens[j + 1];
          assert forall i | 1 <= i < |tokens| :: ParseFloat(tokens[i]) == Some(vs[i - 1]);
          Ok([v] + vs)
  }

  /** The error names the first token that does not read: it does not,
      and every token before it does. */
  lemma {:induction false} ParseEntriesFirstError(tokens: seq<string>)
    ensures var r := ParseEntries(tokens);
            r.Err? ==> && r.error.entry < |tokens|
                       && ParseFloat(tokens[r.error.entry]).None?
                       && forall i | 0 <= i < r.error.entry :: ParseFloat(tokens[i]).Some?
  {
    if |tokens| > 0 && ParseFloat(tokens[0]).Some? && ParseEntries(tokens[1..]).Err? {
      var n := ParseEntries(tokens[1..]).error.entry;
      ParseEntriesFirstError(tokens[1..]);
      assert tokens[n + 1] == tokens[1..][n];
      forall i | 0 < i <= n
        ensures ParseFloat(tokens[i]).Some?
      {
        assert tokens[i] == tokens[1..][i - 1];
      }
    }
  }

  /** The plan string read as intervals. */
  function ParsePlan(plan: string): (r: Result<seq<real>, ReviewError>)
    ensures r.Ok? ==> |r.value| == |Split(plan, ',')| >= 1
  {
    ParseEntries(Split(plan, ','))
  }

  /** Both passes over the intervals: the stage entry is rescaled and
      clamped in place, then every entry from the stage on (the stage entry
      again) is rescaled and clamped. */
  function Rescale(values: seq<real>, stage: nat, d: real): (r: seq<real>)
    requires stage < |values|
    ensures |r| == |values|
    ensures forall i | 0 <= i < stage :: r[i] == values[i]
    ensures r[stage] == Rescaled(Rescaled(values[stage], d), d)
    ensures forall i | stage < i < |values| :: r[i] == Rescaled(values[i], d)
  {
    var first := values[stage := Rescaled(values[stage], d)];
    assert forall i | 0 <= i < |values| && i != stage :: first[i] == values[i];
    RescaleFrom(first, stage, d)
  }

  /** The loop of the second pass: entries from `stage` on are rescaled
      and clamped, earlier ones kept. */
  function RescaleFrom(values: seq<real>, stage: nat, d: real): (r: seq<real>)
    ensures |r| == |values|
    ensures forall i | 0 <= i < |values| && i < stage :: r[i] == values[i]
    ensures forall i | stage <= i < |values| :: r[i] == Rescaled(values[i], d)
  {
    seq(|values|, i requires 0 <= i < |values| => RescaledAt(values[i], i >= stage, d))
  }

  /** One entry of the second pass: rescaled and clamped when `scaled`. */
  function RescaledAt(v: real, scaled: bool, d: real): (w: real)
  {
    if scaled then Rescaled(v, d) else v
  }

  /** One rescaling of an interval: multiplied by the factor, then
      clamped into [MinInterval, MaxInterval]. */
  function Rescaled(v: real, d: real): (w: real)
    ensures MinInterval <= w <= MaxInterval
  {
    Clamp(v * d)
  }

  /** `'{:.2f}'` applied to every interval: each text has two decimals,
      no comma, and reads back as its interval rounded to hundredths. */
  function FormatEntries(values: seq<real>, round2: Rounding): (texts: seq<string>)
    ensures |texts| == |values|
    ensures forall i | 0 <= i < |values| ::
              IsFixed2Text(texts[i]) && ParseFloat(texts[i]) == Some(Rounded2(values[i], round2))
    ensures FreeOf(texts, ',')
  {
    var texts := seq(|values|, i requires 0 <= i < |values| => FormatFixed2(values[i], round2));
    FormattedRead(values, texts, round2);
    texts
  }

  /** Texts that are the intervals' two-decimal texts read back as the
      intervals, rounded. */
  lemma FormattedRead(values: seq<real>, texts: seq<string>, round2: Rounding)
    requires |texts| == |values|
    requires forall i | 0 <= i < |values| :: texts[i] == FormatFixed2(values[i], round2)
    ensures forall i | 0 <= i < |values| ::
              IsFixed2Text(texts[i]) && ParseFloat(texts[i]) == Some(Rounded2(values[i], round2))
    ensures FreeOf(texts, ',')
  {
    forall i | 0 <= i < |values|
      ensures ParseFloat(texts[i]) == Some(Rounded2(values[i], round2))
    {
      ParseFormatFixed2(values[i], round2);
    }
  }

  /** What `adjust_and_get_next` returns: the new plan string, the new
      stage and the next review date (a day ordinal). */
  datatype Schedule = Schedule(plan: string, stage: nat, nextReview: int)

  /** The stage after this review: one further, unless already last. */
  function NextStage(stage: nat, n: nat): (s: nat)
    requires stage < n
    ensures s < n
    ensures s == stage || s == stage + 1
    ensures s == stage <==> stage == n - 1
  {
    if stage < n - 1 then stage + 1 else stage
  }

  /** `adjust_and_get_next(plan, feedback, last_feedback, stage)` on the
      day `today`, with `round2` the rounding behind `'{:.2f}'`. */
  function AdjustAndGetNext(plan: string, feedback: Option<int>, lastFeedback: Option<int>,
                            stage: int, today: int, round2: Rounding): (r: Result<Schedule, ReviewError>)
    ensures r.Err? <==> ParsePlan(plan).Err?
    ensures r.Ok? ==> r.value == Advance(ParsePlan(plan).value, feedback, lastFeedback, stage, today, round2)
    ensures r.Ok? ==> r.value.stage < |Split(plan, ',')| && today + 1 <= r.value.nextReview <= today + 60
  {
    var values :- ParsePlan(plan);
    NextReviewDate(values, feedback, lastFeedback, stage, today, round2);
    Ok(Advance(values, feedback, lastFeedback, stage, today, round2))
  }

  /** Everything after the plan has been parsed into `values`. */
  function Advance(values: seq<real>, feedback: Option<int>, lastFeedback: Option<int>,
                   stage: int, today: int, round2: Rounding): (r: Schedule)
    requires |values| >= 1
    ensures r.stage < |values|
  {
    var s := ClampStage(stage, |values|);
    var scaled := Rescale(values, s, Factor(feedback, lastFeedback));
    var texts := FormatEntries(scaled, round2);
    var newStage := NextStage(s, |values|);
    var days := Trunc(ParseFloat(texts[newStage]).value);
    Schedule(Join(texts, ','), newStage, today + days)
  }

  /** The intervals after rescaling, for a plan that parses. */
  function Scaled(values: seq<real>, feedback: Option<int>, lastFeedback: Option<int>, stage: int): (r: seq<real>)
    requires |values| >= 1
    ensures |r| == |values|
  {
    Rescale(values, ClampStage(stage, |values|), Factor(feedback, lastFeedback))
  }

  /** A raw feedback never reaches the multiplier of 0: neither a missing
      value nor 0 itself does. */
  lemma DefaultedFeedback(feedback: Option<int>)
    ensures Multiplier(FeedbackKey(feedback)) in {0.7, 1.0, 1.2}
    ensures feedback == None || feedback == Some(0) ==> Multiplier(FeedbackKey(feedback)) == 1.0
  {
  }

  /** The call fails exactly when some comma-separated token is not a
      number, and an empty plan is such a token. */
  lemma AdjustFailsIffMalformed(plan: string, feedback: Option<int>, lastFeedback: Option<int>,
                                stage: int, today: int, round2: Rounding)
    ensures AdjustAndGetNext(plan, feedback, lastFeedback, stage, today, round2).Err?
        <==> exists i | 0 <= i < |Split(plan, ',')| :: ParseFloat(Split(plan, ',')[i]).None?
    ensures plan == "" ==> AdjustAndGetNext(plan, feedback, lastFeedback, stage, today, round2).Err?
  {
    assert ParsePlan(plan) == ParseEntries(Split(plan, ','));
    FailsIffSomeTokenBad(Split(plan, ','));
    if plan == "" {
      assert Split(plan, ',') == [""];
      EmptyTextRefused();
    }
  }

  /** Parsing the tokens fails exactly when one of them does not read. */
  lemma FailsIffSomeTokenBad(tokens: seq<string>)
    ensures ParseEntries(tokens).Err? <==> exists i | 0 <= i < |tokens| :: ParseFloat(tokens[i]).None?
  {
    if ParseEntries(tokens).Err? {
      ParseEntriesFirstError(tokens);
      var i := ParseEntries(tokens).error.entry;
      assert 0 <= i < |tokens| && ParseFloat(tokens[i]).None?;
    }
  }

  /** `float("")` raises. */
  lemma EmptyTextRefused()
    ensures ParseFloat("").None?
  {
  }

  /** The new plan has one entry per old entry, each printed with two
      decimals, and each reads back as the rounded rescaled interval. */
  lemma PlanEntries(values: seq<real>, feedback: Option<int>, lastFeedback: Option<int>,
                    stage: int, today: int, round2: Rounding)
    requires |values| >= 1
    ensures var entries := Split(Advance(values, feedback, lastFeedback, stage, today, round2).plan, ',');
            && |entries| == |values|
            && forall i | 0 <= i < |entries| ::
                 && IsFixed2Text(entries[i])
                 && ParseFloat(entries[i]) == Some(Rounded2(Scaled(values, feedback, lastFeedback, stage)[i], round2))
  {
    var scaled := Scaled(values, feedback, lastFeedback, stage);
    var texts := FormatEntries(scaled, round2);
    assert Advance(values, feedback, lastFeedback, stage, today, round2).plan == Join(texts, ',');
    assert FreeOf(texts, ',');
    SplitJoin(texts, ',');
  }

  /** Entries before the stage keep their value: they are only reprinted,
      and are not clamped. */
  lemma PrefixOnlyReformatted(values: seq<real>, feedback: Option<int>, lastFeedback: Option<int>, stage: int, i: nat)
    requires |values| >= 1
    requires i < ClampStage(stage, |values|)
    ensures Scaled(values, feedback, lastFeedback, stage)[i] == values[i]
  {
  }

  /** From the stage on, every interval lies within [1, 60] and prints
      within [1.00, 60.00]. */
  lemma SuffixBounded(values: seq<real>, feedback: Option<int>, lastFeedback: Option<int>,
                      stage: int, i: nat, round2: Rounding)
    requires |values| >= 1
    requires ClampStage(stage, |values|) <= i < |values|
    ensures MinInterval <= Scaled(values, feedback, lastFeedback, stage)[i] <= MaxInterval
    ensures MinInterval <= Rounded2(Scaled(values, feedback, lastFeedback, stage)[i], round2) <= MaxInterval
  {
    var x := Scaled(values, feedback, lastFeedback, stage)[i];
    assert Hundredths(100) == MinInterval && Hundredths(6000) == MaxInterval;
    Rounded2Between(x, 100, 6000, round2);
  }

  /** The double scaling is not idempotent: with feedback 3 after 2 the
      factor is 1.4, and an interval of 3 days becomes 5.88, not 4.2. */
  lemma DoubleScalingExample()
    ensures Factor(Some(3), Some(2)) == 1.4
    ensures Scaled([3.0], Some(3), Some(2), 0) == [5.88]
  {
    assert Factor(Some(3), Some(2)) == 1.4;
    assert Clamp(3.0 * 1.4) == 4.2;
    assert Clamp(4.2 * 1.4) == 5.88;
  }

  /** The returned stage is the clamped stage, advanced unless it was the
      last one. */
  lemma StageProgression(values: seq<real>, feedback: Option<int>, lastFeedback: Option<int>,
                         stage: int, today: int, round2: Rounding)
    requires |values| >= 1
    ensures var n := |values|;
            var s := ClampStage(stage, n);
            var r := Advance(values, feedback, lastFeedback, stage, today, round2);
            && (s < n - 1 ==> r.stage == s + 1)
            && (s == n - 1 ==> r.stage == s)
  {
  }

  /** The next review falls on today plus the truncated printed entry of
      the new stage, between one and sixty days ahead. */
  lemma NextReviewDate(values: seq<real>, feedback: Option<int>, lastFeedback: Option<int>,
                       stage: int, today: int, round2: Rounding)
    requires |values| >= 1
    ensures var r := Advance(values, feedback, lastFeedback, stage, today, round2);
            && r.nextReview == today + Trunc(Rounded2(Scaled(values, feedback, lastFeedback, stage)[r.stage], round2))
            && today + 1 <= r.nextReview <= today + 60
  {
    var r := Advance(values, feedback, lastFeedback, stage, today, round2);
    var x := Scaled(values, feedback, lastFeedback, stage)[r.stage];
    ParseFormatFixed2(x, round2);
    SuffixBounded(values, feedback, lastFeedback, stage, r.stage, round2);
  }

  /** Two-decimal text of a whole number of days. */
  lemma FormatWholeDays(n: nat, round2: Rounding)
    ensures FormatFixed2(n as real, round2) == NatToDigits(n) + ".00"
  {
    var m := 100 * n;
    assert Hundredths(m) == n as real;
    assert Abs(n as real) == Hundredths(m);
    assert Magnitude(n as real, round2) == m;
    assert m / 100 == n && m % 100 == 0;
    assert TwoDigits(0) == "00";
    assert FormatFixed2(n as real, round2) == Unsigned2Text(m);
  }

  /** The plan "1,3,7,30" splits into its four tokens. */
  lemma DefaultPlanSplits()
    ensures Split("1,3,7,30", ',') == ["1", "3", "7", "30"]
  {
    var tokens := ["1", "3", "7", "30"];
    assert Join(["7", "30"], ',') == "7,30";
    assert Join(["3", "7", "30"], ',') == "3,7,30";
    assert Join(tokens, ',') == "1,3,7,30";
    assert FreeOf(tokens, ',');
    SplitJoin(tokens, ',');
  }

  /** Each token of "1,3,7,30" reads as its whole number. */
  lemma DefaultTokenValues()
    ensures ParseFloat("1") == Some(1.0) && ParseFloat("3") == Some(3.0)
    ensures ParseFloat("7") == Some(7.0) && ParseFloat("30") == Some(30.0)
  {
    assert DigitChar(0) == '0' && DigitChar(1) == '1' && DigitChar(3) == '3' && DigitChar(7) == '7';
    assert NatToDigits(1) == "1" && NatToDigits(3) == "3" && NatToDigits(7) == "7";
    assert NatToDigits(30) == NatToDigits(3) + [DigitChar(0)] == "30";
    ParseFloatOfDigits(1);
    ParseFloatOfDigits(3);
    ParseFloatOfDigits(7);
    ParseFloatOfDigits(30);
  }

  /** The tokens of "1,3,7,30" read as the intervals 1, 3, 7 and 30. */
  lemma DefaultTokensParse()
    ensures ParseEntries(["1", "3", "7", "30"]) == Ok([1.0, 3.0, 7.0, 30.0])
  {
    DefaultTokenValues();
    var t3 := ["30"];
    assert t3[0] == "30" && t3[1..] == [];
    assert ParseEntries(t3) == Ok([30.0] + []);
    assert [30.0] + [] == [30.0];
    var t2 := ["7", "30"];
    assert t2[0] == "7" && t2[1..] == t3;
    assert ParseEntries(t2) == Ok([7.0] + [30.0]);
    assert [7.0] + [30.0] == [7.0, 30.0];
    var t1 := ["3", "7", "30"];
    assert t1[0] == "3" && t1[1..] == t2;
    assert ParseEntries(t1) == Ok([3.0] + [7.0, 30.0]);
    assert [3.0] + [7.0, 30.0] == [3.0, 7.0, 30.0];
    var t := ["1", "3", "7", "30"];
    assert t[0] == "1" && t[1..] == t1;
    assert ParseEntries(t) == Ok([1.0] + [3.0, 7.0, 30.0]);
    assert [1.0] + [3.0, 7.0, 30.0] == [1.0, 3.0, 7.0, 30.0];
  }

  /** The plan "1,3,7,30" reads as the intervals 1, 3, 7 and 30 days. */
  lemma DefaultPlanParses()
    ensures ParsePlan("1,3,7,30") == Ok([1.0, 3.0, 7.0, 30.0])
  {
    DefaultPlanSplits();
    DefaultTokensParse();
  }

  /** With no feedback so far the factor is 1 and intervals already within
      [1, 60] are kept. */
  lemma DefaultPlanUnscaled()
    ensures Scaled([1.0, 3.0, 7.0, 30.0], None, None, 0) == [1.0, 3.0, 7.0, 30.0]
  {
    var values := [1.0, 3.0, 7.0, 30.0];
    assert Factor(None, None) == 1.0;
    var scaled := Scaled(values, None, None, 0);
    assert scaled[0] == Clamp(Clamp(1.0 * 1.0) * 1.0) == 1.0;
    assert forall i | 0 < i < 4 :: scaled[i] == Clamp(values[i] * 1.0) == values[i];
  }

  /** `x` has at most two decimals. */
  predicate IsHundredths(x: real) {
    Hundredths((x * 100.0).Floor) == x
  }

  /** Two-decimal text reads back exactly. */
  lemma Rounded2OfHundredths(x: real, round2: Rounding)
    requires IsHundredths(x)
    ensures Rounded2(x, round2) == x
  {
    Rounded2Exact((x * 100.0).Floor, round2);
  }

  /** Tokens that each read as the matching interval parse as the plan. */
  lemma ParseEntriesOf(tokens: seq<string>, values: seq<real>)
    requires |tokens| == |values|
    requires forall i | 0 <= i < |tokens| :: ParseFloat(tokens[i]) == Some(values[i])
    ensures ParseEntries(tokens) == Ok(values)
  {
    var r := ParseEntries(tokens);
    assert r.Ok?;
    forall i | 0 <= i < |values|
      ensures r.value[i] == values[i]
    {
      assert ParseFloat(tokens[i]) == Some(r.value[i]);
    }
    assert r.value == values;
  }

  /** With a factor of 1, intervals within [1, 60] are kept. */
  lemma NeutralScaling(values: seq<real>, feedback: Option<int>, lastFeedback: Option<int>, stage: int)
    requires |values| >= 1
    requires Factor(feedback, lastFeedback) == 1.0
    requires forall i | 0 <= i < |values| :: MinInterval <= values[i] <= MaxInterval
    ensures Scaled(values, feedback, lastFeedback, stage) == values
  {
    var scaled := Scaled(values, feedback, lastFeedback, stage);
    var s := ClampStage(stage, |values|);
    assert scaled[s] == Clamp(Clamp(values[s] * 1.0) * 1.0) == values[s];
    assert forall i | s < i < |values| :: scaled[i] == Clamp(values[i] * 1.0) == values[i];
  }

  /** A plan of two-decimal intervals within [1, 60], reviewed with a
      factor of 1, is printed back as the same intervals. */
  lemma NeutralReviewKeepsPlan(values: seq<real>, feedback: Option<int>, lastFeedback: Option<int>,
                               stage: int, today: int, round2: Rounding)
    requires |values| >= 1
    requires Factor(feedback, lastFeedback) == 1.0
    requires forall i | 0 <= i < |values| :: MinInterval <= values[i] <= MaxInterval && IsHundredths(values[i])
    ensures ParsePlan(Advance(values, feedback, lastFeedback, stage, today, round2).plan) == Ok(values)
  {
    NeutralScaling(values, feedback, lastFeedback, stage);
    PlanEntries(values, feedback, lastFeedback, stage, today, round2);
    var entries := Split(Advance(values, feedback, lastFeedback, stage, today, round2).plan, ',');
    forall i | 0 <= i < |values|
      ensures ParseFloat(entries[i]) == Some(values[i])
    {
      Rounded2OfHundredths(values[i], round2);
    }
    ParseEntriesOf(entries, values);
  }

  /** The intervals 1, 3, 7 and 30 reviewed at stage 0 with no feedback so
      far are printed back unchanged. */
  lemma DefaultPlanReprinted(today: int, round2: Rounding)
    ensures ParsePlan(Advance([1.0, 3.0, 7.0, 30.0], None, None, 0, today, round2).plan)
         == Ok([1.0, 3.0, 7.0, 30.0])
  {
    var values := [1.0, 3.0, 7.0, 30.0];
    assert Factor(None, None) == 1.0;
    assert Hundredths(100) == 1.0 && Hundredths(300) == 3.0 && Hundredths(700) == 7.0 && Hundredths(3000) == 30.0;
    assert forall i | 0 <= i < 4 :: IsHundredths(values[i]);
    NeutralReviewKeepsPlan(values, None, None, 0, today, round2);
  }

  /** ... and the next review of stage 1 is three days ahead. */
  lemma DefaultPlanNextReview(today: int, round2: Rounding)
    ensures Advance([1.0, 3.0, 7.0, 30.0], None, None, 0, today, round2).stage == 1
    ensures Advance([1.0, 3.0, 7.0, 30.0], None, None, 0, today, round2).nextReview == today + 3
  {
    DefaultPlanNextStage(today, round2);
    var values := [1.0, 3.0, 7.0, 30.0];
    assert Scaled(values, None, None, 0)[1] == 3.0 by {
      DefaultPlanUnscaled();
    }
    assert Rounded2(3.0, round2) == 3.0 by {
      assert Hundredths(300) == 3.0;
      Rounded2Exact(300, round2);
    }
    assert Trunc(3.0) == 3;
    NextReviewDate(values, None, None, 0, today, round2);
  }

  /** Stage 0 of a four-entry plan moves to stage 1. */
  lemma DefaultPlanNextStage(today: int, round2: Rounding)
    ensures Advance([1.0, 3.0, 7.0, 30.0], None, None, 0, today, round2).stage == 1
  {
    assert ClampStage(0, 4) == 0;
    StageProgression([1.0, 3.0, 7.0, 30.0], None, None, 0, today, round2);
  }

  /** `adjust_and_get_next("1,3,7,30", None, None, 0)`: the plan is printed
      back as the same intervals, the stage becomes 1 and the next review
      is three days ahead. */
  lemma FirstReviewOfDefaultPlan(today: int, round2: Rounding)
    ensures var r := AdjustAndGetNext("1,3,7,30", None, None, 0, today, round2);
            && r.Ok?
            && r.value.stage == 1
            && r.value.nextReview == today + 3
            && ParsePlan(r.value.plan) == Ok([1.0, 3.0, 7.0, 30.0])
  {
    DefaultPlanParses();
    DefaultPlanReprinted(today, round2);
    DefaultPlanNextReview(today, round2);
  }
}
