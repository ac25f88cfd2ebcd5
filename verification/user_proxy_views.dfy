/** The state changes behind the personal views of apps/user_proxy/views.py:
    the per-month activity history (`update_history`), the review "punch"
    of a collection or a note, and the soft delete and recycle of a note.
    Persistence is left to the caller: each operation maps the old records
    to the new ones, or to the exception that aborts the request. */
module UserProxyViews {
  import opened Wrappers
  import opened Text
  import opened Calendar
  import Decimal
  import Review

  /** `now.strftime("%Y-%m")`: the year as glibc prints it (no padding), a
      '-', and the month with two digits. */
  function MonthKey(year: nat, month: nat): (k: string)
    requires 1 <= month <= 12
    ensures |k| >= 4 && k[|k| - 3] == '-'
    ensures AllDigits(k[..|k| - 3]) && DigitsValue(k[..|k| - 3]) == year
    ensures AllDigits(k[|k| - 2..]) && DigitsValue(k[|k| - 2..]) == month
  {
    var y := NatToDigits(year);
    var k := y + "-" + Decimal.TwoDigits(month);
    assert k[..|k| - 3] == y;
    assert k[|k| - 2..] == Decimal.TwoDigits(month);
    k
  }

  /** The month text `strptime`'s "%m" accepts: "1".."9", "01".."09",
      "10".."12". */
  function ParseMonthText(m: string): (r: Option<int>)
    ensures r.Some? <==> 1 <= |m| <= 2 && AllDigits(m) && 1 <= DigitsValue(m) <= 12
    ensures r.Some? ==> r.value == DigitsValue(m)
  {
    assert |m| == 2 && AllDigits(m) ==> DigitsValue(m) == DigitValue(m[0]) * 10 + DigitValue(m[1]) by {
      if |m| == 2 && AllDigits(m) {
        assert m[..1] == [m[0]] && m[..1][..0] == [];
        assert DigitsValue(m[..1]) == DigitValue(m[0]);
        assert DigitsValue(m) == DigitsValue(m[..1]) * 10 + DigitValue(m[1]);
      }
    }
    assert |m| == 1 && AllDigits(m) ==> DigitsValue(m) == DigitValue(m[0]) by {
      if |m| == 1 && AllDigits(m) {
        assert m[..0] == [];
      }
    }
    if |m| == 1 && '1' <= m[0] <= '9' then Some(DigitValue(m[0]))
    else if |m| == 2 && m[0] == '0' && '1' <= m[1] <= '9' then Some(DigitValue(m[1]))
    else if |m| == 2 && m[0] == '1' && '0' <= m[1] <= '2' then Some(10 + DigitValue(m[1]))
    else None
  }

  /** `datetime.strptime(k, "%Y-%m")`: exactly four digits, a '-', a month
      and nothing after it; year 0 is out of range.  `None` is ValueError. */
  function ParseMonthKey(k: string): (r: Option<(int, int)>)
    ensures r.Some? ==> 1 <= r.value.0 <= 9999 && 1 <= r.value.1 <= 12
    ensures r.Some? ==> |k| == 6 || |k| == 7
  {
    if |k| >= 5 && AllDigits(k[..4]) && k[4] == '-' then
      var year := DigitsValue(k[..4]);
      assert year <= 9999 by { FourDigitsBound(k[..4]); }
      match ParseMonthText(k[5..])
      case None => None
      case Some(month) => if year >= 1 then Some((year, month)) else None
    else None
  }

  lemma FourDigitsBound(s: string)
    requires |s| == 4 && AllDigits(s)
    ensures DigitsValue(s) <= 9999
  {
    var s3, s2, s1 := s[..3], s[..3][..2], s[..3][..2][..1];
    assert DigitsValue(s1) <= 9 by { assert s1[..0] == []; }
    assert DigitsValue(s2) <= 99;
    assert DigitsValue(s3) <= 999;
  }

  /** A key written for a year with four digits is read back as that year
      and month. */
  lemma MonthKeyRoundTrip(year: nat, month: nat)
    requires 1000 <= year <= 9999 && 1 <= month <= 12
    ensures ParseMonthKey(MonthKey(year, month)) == Some((year, month))
  {
    var y := NatToDigits(year);
    assert |y| == 4 by { DigitsLength(year); }
    var k := MonthKey(year, month);
    assert k[..4] == y;
    assert k[5..] == Decimal.TwoDigits(month);
  }

  /** Numbers from 1000 to 9999 are written with four digits. */
  lemma DigitsLength(n: nat)
    requires 1000 <= n <= 9999
    ensures |NatToDigits(n)| == 4
  {
    var a := n / 10;
    var b := a / 10;
    var c := b / 10;
    assert 100 <= a <= 999 && 10 <= b <= 99 && 1 <= c <= 9;
    assert |NatToDigits(b)| == |NatToDigits(c)| + 1 == 2;
    assert |NatToDigits(a)| == |NatToDigits(b)| + 1;
  }

  /** `update_history` aborts: an entry of this month's record that cannot
      be read (IndexError, ValueError), or a key that cannot be read or has
      expired (ValueError, RuntimeError: the dict changes size while it is
      iterated). */
  datatype HistoryError = RecordUnreadable | EvictionAborted

  /** A month record of `n` days, all "0" except "1" on `day`. */
  function FreshRecord(n: nat, day: nat): (r: seq<string>)
    requires 1 <= day <= n
    ensures |r| == n
    ensures r[day - 1] == "1"
    ensures forall i | 0 <= i < n && i != day - 1 :: r[i] == "0"
  {
    seq(n, i requires 0 <= i < n => "0")[day - 1 := "1"]
  }

  /** The first half of `update_history`: count one more event on `today`
      in the record of its month, creating the record if it is missing. */
  function RecordToday(history: map<string, string>, today: CivilDate): (r: Result<map<string, string>, HistoryError>)
    requires today.Valid()
    ensures r.Ok? ==> r.value.Keys == history.Keys + {MonthKey(today.year, today.month)}
    ensures r.Ok? ==> forall k | k in history && k != MonthKey(today.year, today.month) :: r.value[k] == history[k]
  {
    var key := MonthKey(today.year, today.month);
    if key !in history then
      Ok(history[key := Join(FreshRecord(DaysInMonth(today.year, today.month), today.day), ',')])
    else
      match Increment(history[key], today.day)
      case None => Err(RecordUnreadable)
      case Some(record) => Ok(history[key := record])
  }

  /** The existing record of a month with the entry of `day` counted once
      more: it splits into as many entries as before, that entry one
      greater and the others unchanged.  `None` when the record has no
      entry for `day` (IndexError) or the entry is not an integer
      (ValueError). */
  function Increment(record: string, day: nat): (r: Option<string>)
    requires day >= 1
    ensures r.Some? <==> day - 1 < |Split(record, ',')| && ParseInt(Split(record, ',')[day - 1]).Some?
    ensures r.Some? ==> var before := Split(record, ',');
                        var parts := Split(r.value, ',');
                        && |parts| == |before|
                        && ParseInt(parts[day - 1]) == Some(ParseInt(before[day - 1]).value + 1)
                        && forall i | 0 <= i < |parts| && i != day - 1 :: parts[i] == before[i]
  {
    var parts := Split(record, ',');
    if day - 1 >= |parts| then None
    else
      match ParseInt(parts[day - 1])
      case None => None
      case Some(v) => Some(Bumped(parts, day - 1, v))
  }

  /** `getattr(settings, "HISTORY_EXPIRES", None) or 90`. */
  function Window(setting: Option<int>): (w: int)
    ensures setting.Some? && setting.value != 0 ==> w == setting.value
    ensures setting.None? || setting.value == 0 ==> w == 90
  {
    match setting
    case None => 90
    case Some(w) => if w == 0 then 90 else w
  }

  /** Whether key `k` is expired at `now` with a window of `w` days: its
      first day at midnight is before `now - timedelta(w)`.  `None` when
      `strptime` rejects the key. */
  function Expired(k: string, now: DateTime, w: int): (r: Option<bool>)
    requires now.Valid()
    ensures r.None? <==> ParseMonthKey(k).None?
  {
    match ParseMonthKey(k)
    case None => None
    case Some(ym) =>
      Some(Instant(MonthStart(ym.0, ym.1)) < Instant(now) - w * MicrosPerDay)
  }

  /** The eviction loop: it returns the map only when no key is malformed
      and none has expired; deleting an expired key makes the next step of
      the iteration raise. */
  function Evict(history: map<string, string>, now: DateTime, w: int): (r: Result<map<string, string>, HistoryError>)
    requires now.Valid()
    ensures r.Ok? <==> forall k | k in history :: Expired(k, now, w) == Some(false)
    ensures r.Ok? ==> r.value == history
  {
    if forall k | k in history :: Expired(k, now, w) == Some(false) then Ok(history)
    else Err(EvictionAborted)
  }

  /** `update_history(history)` at the clock reading `now`, with the
      HISTORY_EXPIRES setting `expires`. */
  function UpdateHistory(history: map<string, string>, now: DateTime, expires: Option<int>): (r: Result<map<string, string>, HistoryError>)
    requires now.Valid()
    ensures r.Ok? ==> r == RecordToday(history, now.date)
  {
    var recorded :- RecordToday(history, now.date);
    Evict(recorded, now, Window(expires))
  }

  /** The eviction the loop evidently means, as if it iterated over a copy
      of the keys: a malformed key still raises ValueError, and otherwise
      exactly the expired keys are removed. */
  function EvictIntended(history: map<string, string>, now: DateTime, w: int): (r: Result<map<string, string>, HistoryError>)
    requires now.Valid()
    ensures r.Ok? <==> forall k | k in history :: ParseMonthKey(k).Some?
    ensures r.Ok? ==> forall k :: k in r.value <==> k in history && Expired(k, now, w) == Some(false)
    ensures r.Ok? ==> forall k | k in r.value :: r.value[k] == history[k]
  {
    if forall k | k in history :: ParseMonthKey(k).Some? then
      Ok(map k | k in history && Expired(k, now, w) == Some(false) :: history[k])
    else Err(EvictionAborted)
  }

  /** `update_history` with the intended eviction. */
  function UpdateHistoryIntended(history: map<string, string>, now: DateTime, expires: Option<int>): (r: Result<map<string, string>, HistoryError>)
    requires now.Valid()
    ensures r.Ok? <==> RecordToday(history, now.date).Ok?
                       && forall k | k in RecordToday(history, now.date).value :: ParseMonthKey(k).Some?
  {
    var recorded :- RecordToday(history, now.date);
    EvictIntended(recorded, now, Window(expires))
  }

  /** Where the written loop returns, the intended eviction returns the
      same map: with nothing expired there is nothing to remove. */
  lemma EvictIntendedAgrees(history: map<string, string>, now: DateTime, w: int)
    requires now.Valid()
    requires Evict(history, now, w).Ok?
    ensures EvictIntended(history, now, w) == Evict(history, now, w)
  {
    forall k | k in history
      ensures ParseMonthKey(k).Some?
    {
      assert Expired(k, now, w) == Some(false);
    }
    var r := EvictIntended(history, now, w).value;
    assert forall k | k in history :: k in r && r[k] == history[k];
    assert forall k | k in r :: k in history;
    assert r == history;
  }

  /** With the intended eviction, a history holding "2023-10" on 2024-02-15
      loses that record and keeps the one of the current month. */
  lemma StaleMonthEvictedIntended(history: map<string, string>, now: DateTime)
    requires now.Valid() && now.date == CivilDate(2024, 2, 15)
    requires "2023-10" in history
    requires RecordToday(history, now.date).Ok?
    requires forall k | k in RecordToday(history, now.date).value :: ParseMonthKey(k).Some?
    ensures UpdateHistoryIntended(history, now, None).Ok?
    ensures "2023-10" !in UpdateHistoryIntended(history, now, None).value
    ensures MonthKey(2024, 2) in UpdateHistoryIntended(history, now, None).value
  {
    OctoberExpired(now);
    CurrentMonthKept(now, 90);
  }

  /** A missing month record is created with one entry per day of the
      month, "1" for today and "0" elsewhere. */
  lemma NewMonthRecord(history: map<string, string>, today: CivilDate)
    requires today.Valid()
    requires MonthKey(today.year, today.month) !in history
    ensures RecordToday(history, today).Ok?
    ensures var parts := Split(RecordToday(history, today).value[MonthKey(today.year, today.month)], ',');
            && |parts| == DaysInMonth(today.year, today.month)
            && parts[today.day - 1] == "1"
            && forall i | 0 <= i < |parts| && i != today.day - 1 :: parts[i] == "0"
  {
    var record := FreshRecord(DaysInMonth(today.year, today.month), today.day);
    assert FreeOf(record, ',') by {
      forall i | 0 <= i < |record| ensures ',' !in record[i] {
        assert record[i] == "0" || record[i] == "1";
      }
    }
    SplitJoin(record, ',');
  }

  /** An existing month record gains one on today's entry; its length and
      every other entry stay as they were. */
  lemma ExistingMonthRecord(history: map<string, string>, today: CivilDate)
    requires today.Valid()
    requires MonthKey(today.year, today.month) in history
    requires RecordToday(history, today).Ok?
    ensures var before := Split(history[MonthKey(today.year, today.month)], ',');
            var parts := Split(RecordToday(history, today).value[MonthKey(today.year, today.month)], ',');
            && |parts| == |before|
            && ParseInt(parts[today.day - 1]) == Some(ParseInt(before[today.day - 1]).value + 1)
            && forall i | 0 <= i < |parts| && i != today.day - 1 :: parts[i] == before[i]
  {
    var key := MonthKey(today.year, today.month);
    assert RecordToday(history, today).value[key] == Increment(history[key], today.day).value;
  }

  /** `",".join(parts)` after `parts[d] = str(v + 1)`: it splits back into
      the same entries, entry `d` one greater. */
  function Bumped(before: seq<string>, d: nat, v: int): (after: string)
    requires d < |before| && FreeOf(before, ',') && ParseInt(before[d]) == Some(v)
    ensures var parts := Split(after, ',');
            && |parts| == |before|
            && ParseInt(parts[d]) == Some(v + 1)
            && forall i | 0 <= i < |parts| && i != d :: parts[i] == before[i]
  {
    var parts := before[d := IntToString(v + 1)];
    CountWithoutComma(v + 1);
    FreeOfUpdate(before, d, IntToString(v + 1));
    SplitJoin(parts, ',');
    ParseIntToString(v + 1);
    Join(parts, ',')
  }

  /** `str(i)` holds no ','. */
  lemma CountWithoutComma(i: int)
    ensures ',' !in IntToString(i)
  {
    var t := IntToString(i);
    forall j | 0 <= j < |t|
      ensures t[j] != ','
    {
      assert j == 0 || IsDigit(t[j]);
    }
  }

  /** Replacing one part by a text without the separator keeps the parts
      free of it. */
  lemma FreeOfUpdate(parts: seq<string>, d: nat, t: string)
    requires d < |parts| && FreeOf(parts, ',') && ',' !in t
    ensures FreeOf(parts[d := t], ',')
  {
    var u := parts[d := t];
    forall i | 0 <= i < |u|
      ensures ',' !in u[i]
    {
      if i != d {
        assert u[i] == parts[i];
      }
    }
  }

  /** An existing month record that is too short for today, or whose entry
      for today is not an integer, aborts the update. */
  lemma UnreadableMonthRecord(history: map<string, string>, today: CivilDate)
    requires today.Valid()
    requires MonthKey(today.year, today.month) in history
    ensures var parts := Split(history[MonthKey(today.year, today.month)], ',');
            (RecordToday(history, today).Err?
             <==> |parts| < today.day || ParseInt(parts[today.day - 1]).None?)
  {
  }

  /** With no malformed and no expired key, the recorded history is
      returned; any such key aborts the whole update. */
  lemma UpdateHistoryOutcome(history: map<string, string>, now: DateTime, expires: Option<int>)
    requires now.Valid()
    requires RecordToday(history, now.date).Ok?
    ensures var recorded := RecordToday(history, now.date).value;
            && (UpdateHistory(history, now, expires).Ok?
                <==> forall k | k in recorded :: Expired(k, now, Window(expires)) == Some(false))
            && (UpdateHistory(history, now, expires).Ok? ==> UpdateHistory(history, now, expires).value == recorded)
  {
  }

  /** With a window of at least 31 days the current month is never
      expired. */
  lemma CurrentMonthKept(now: DateTime, w: int)
    requires now.Valid() && now.date.year >= 1000
    requires w >= 31
    ensures Expired(MonthKey(now.date.year, now.date.month), now, w) == Some(false)
  {
    MonthKeyRoundTrip(now.date.year, now.date.month);
    OrdinalInMonth(now.date);
    var first := MonthStart(now.date.year, now.date.month);
    var o := Ordinal(first.date);
    assert Instant(first) == (o - 1) * 86400000000;
    assert Instant(now) == (o + now.date.day - 2) * 86400000000 + now.micros;
    assert Instant(now) - Instant(first) < 31 * MicrosPerDay;
  }

  /** On 2024-02-15 a history holding "2023-10" cannot be updated with the
      default window: October 2023 began more than 90 days earlier, so it is
      expired, and deleting it aborts the loop. */
  lemma StaleMonthAborts(history: map<string, string>, now: DateTime)
    requires now.Valid() && now.date == CivilDate(2024, 2, 15)
    requires "2023-10" in history
    ensures UpdateHistory(history, now, None).Err?
  {
    var r := RecordToday(history, now.date);
    if r.Ok? {
      assert "2023-10" in r.value;
      OctoberExpired(now);
    }
  }

  lemma OctoberExpired(now: DateTime)
    requires now.Valid() && now.date == CivilDate(2024, 2, 15)
    ensures Expired("2023-10", now, 90) == Some(true)
  {
    OctoberKey();
  }

  lemma OctoberKey()
    ensures ParseMonthKey("2023-10") == Some((2023, 10))
  {
    assert "2023-10"[..4] == "2023" && "2023-10"[5..] == "10";
    assert DigitsValue("2023") == 2023 by {
      assert "2023"[..3] == "202" && "202"[..2] == "20" && "20"[..1] == "2" && "2"[..0] == [];
    }
  }

  /** The review fields of a collection or a note. */
  datatype ReviewState = ReviewState(stage: int, reviewDate: Option<int>, lastReviewDate: Option<int>,
                                     lastFeedback: Option<int>)

  /** The user's review plan and review history. */
  datatype Reviewer = Reviewer(plan: string, reviewHistory: map<string, string>)

  /** What aborts a punch: the plan cannot be parsed, or the history
      cannot be updated. */
  datatype PunchError = PlanFailed(Review.ReviewError) | HistoryFailed(HistoryError)

  /** A punch: the plan is adjusted, one review is recorded in the
      history, and the item's review fields take the outcome.  `reset` is
      the truthiness of the request's "reset" value; the stored feedback is
      the raw one, before the scheduler's defaulting. */
  function Punch(user: Reviewer, item: ReviewState, feedback: Option<int>, reset: bool,
                 now: DateTime, expires: Option<int>, round2: Decimal.Rounding): (r: Result<(Reviewer, ReviewState), PunchError>)
    requires now.Valid()
    ensures r.Ok? <==> Review.AdjustAndGetNext(user.plan, feedback, item.lastFeedback, item.stage, Ordinal(now.date), round2).Ok?
                       && UpdateHistory(user.reviewHistory, now, expires).Ok?
    ensures Review.AdjustAndGetNext(user.plan, feedback, item.lastFeedback, item.stage, Ordinal(now.date), round2).Err?
            ==> r == Err(PlanFailed(Review.AdjustAndGetNext(user.plan, feedback, item.lastFeedback, item.stage, Ordinal(now.date), round2).error))
  {
    var today := Ordinal(now.date);
    match Review.AdjustAndGetNext(user.plan, feedback, item.lastFeedback, item.stage, today, round2)
    case Err(e) => Err(PlanFailed(e))
    case Ok(next) =>
      match UpdateHistory(user.reviewHistory, now, expires)
      case Err(e) => Err(HistoryFailed(e))
      case Ok(history) =>
        Ok((Reviewer(next.plan, history),
            ReviewState(if reset then 0 else next.stage, Some(next.nextReview), Some(today), feedback)))
  }

  /** After a punch the user holds the new plan and the updated history,
      and the item holds the new stage (0 when reset), the next review
      date, today as its last review and the raw feedback. */
  lemma PunchFields(user: Reviewer, item: ReviewState, feedback: Option<int>, reset: bool,
                    now: DateTime, expires: Option<int>, round2: Decimal.Rounding)
    requires now.Valid()
    requires Punch(user, item, feedback, reset, now, expires, round2).Ok?
    ensures var next := Review.AdjustAndGetNext(user.plan, feedback, item.lastFeedback, item.stage, Ordinal(now.date), round2).value;
            var (u, it) := Punch(user, item, feedback, reset, now, expires, round2).value;
            && u.plan == next.plan
            && u.reviewHistory == RecordToday(user.reviewHistory, now.date).value
            && it.stage == (if reset then 0 else next.stage)
            && it.reviewDate == Some(next.nextReview)
            && it.lastReviewDate == Some(Ordinal(now.date))
            && it.lastFeedback == feedback
            && Ordinal(now.date) + 1 <= next.nextReview <= Ordinal(now.date) + 60
  {
    var today := Ordinal(now.date);
    Review.NextReviewDate(Review.ParsePlan(user.plan).value, feedback, item.lastFeedback, item.stage, today, round2);
  }

  /** A note: its review fields and its place in the recycle bin. */
  datatype NoteState = NoteState(review: ReviewState, isDelete: bool, deleteDate: Option<int>)

  /** The punch of a note changes its review fields only. */
  function PunchNote(user: Reviewer, note: NoteState, feedback: Option<int>, reset: bool,
                     now: DateTime, expires: Option<int>, round2: Decimal.Rounding): (r: Result<(Reviewer, NoteState), PunchError>)
    requires now.Valid()
    ensures r.Ok? <==> Punch(user, note.review, feedback, reset, now, expires, round2).Ok?
    ensures r.Ok? ==> r.value.1.isDelete == note.isDelete && r.value.1.deleteDate == note.deleteDate
  {
    var (u, review) :- Punch(user, note.review, feedback, reset, now, expires, round2);
    Ok((u, note.(review := review)))
  }

  /** `destroy` without "permanet": the note moves to the recycle bin. */
  function SoftDelete(note: NoteState, today: int): (n: NoteState)
    ensures n.isDelete && n.deleteDate == Some(today)
    ensures n.review == note.review
  {
    note.(isDelete := true, deleteDate := Some(today))
  }

  /** `recycle`: the note leaves the recycle bin. */
  function Recycle(note: NoteState): (n: NoteState)
    ensures !n.isDelete && n.deleteDate == None
    ensures n.review == note.review
  {
    note.(isDelete := false, deleteDate := None)
  }

  /** Recycling undoes a soft delete of a note that was not deleted. */
  lemma RecycleUndoesSoftDelete(note: NoteState, today: int)
    requires !note.isDelete && note.deleteDate == None
    ensures Recycle(SoftDelete(note, today)) == note
  {
  }
}
