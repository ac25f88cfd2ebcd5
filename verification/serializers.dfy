/** The reusable serializer pieces of yus_note/drf/serializers.py: the
    field filter of `DynamicFieldsModelSerializer`, the two "time from now"
    fields and the decorator that turns an IntegrityError into a
    ValidationError.  Dates are day numbers (`date.toordinal()`), datetimes
    are microsecond counts (`Calendar.Instant`), and today and now are
    parameters. */
module DrfSerializers {
  import opened Wrappers
  import opened Text
  import Calendar
  import Decimal

  /** The declared fields of a serializer, in declaration order, with
      `fields` as passed: the names are kept when `fields` is None, else
      only those also in `fields`, order kept. */
  function KeepFields(declared: seq<string>, fields: Option<set<string>>): (kept: seq<string>)
    ensures fields.None? ==> kept == declared
    ensures fields.Some? ==> forall f :: f in kept <==> f in declared && f in fields.value
    ensures |kept| <= |declared|
  {
    match fields
    case None => declared
    case Some(allowed) => Filter(declared, allowed)
  }

  /** The names of `names` that are in `allowed`, in order. */
  function Filter(names: seq<string>, allowed: set<string>): (kept: seq<string>)
    ensures forall f :: f in kept <==> f in names && f in allowed
    ensures |kept| <= |names|
  {
    if |names| == 0 then []
    else
      var rest := Filter(names[1..], allowed);
      assert forall f :: f in names <==> f == names[0] || f in names[1..];
      if names[0] in allowed then [names[0]] + rest else rest
  }

  /** `kept` is `names` with some entries left out, in the same order. */
  predicate IsSubsequence(kept: seq<string>, names: seq<string>)
    decreases |names|
  {
    if |kept| == 0 then true
    else if |names| == 0 then false
    else if kept[0] == names[0] then IsSubsequence(kept[1..], names[1..])
    else IsSubsequence(kept, names[1..])
  }

  /** The filter drops fields but never reorders the rest. */
  lemma {:induction false} FilterKeepsOrder(names: seq<string>, allowed: set<string>)
    ensures IsSubsequence(Filter(names, allowed), names)
    decreases |names|
  {
    if |names| > 0 {
      FilterKeepsOrder(names[1..], allowed);
      var rest := Filter(names[1..], allowed);
      if names[0] in allowed {
        assert ([names[0]] + rest)[1..] == rest;
      }
    }
  }

  /** Filtering twice by the same names is filtering once. */
  lemma {:induction false} FilterIdempotent(names: seq<string>, allowed: set<string>)
    ensures Filter(Filter(names, allowed), allowed) == Filter(names, allowed)
    decreases |names|
  {
    if |names| > 0 {
      FilterIdempotent(names[1..], allowed);
      var rest := Filter(names[1..], allowed);
      if names[0] in allowed {
        assert ([names[0]] + rest)[1..] == rest;
      }
    }
  }

  /** Asking for every declared field keeps all of them. */
  lemma {:induction false} FilterAll(names: seq<string>, allowed: set<string>)
    requires forall i | 0 <= i < |names| :: names[i] in allowed
    ensures Filter(names, allowed) == names
    decreases |names|
  {
    if |names| > 0 {
      FilterAll(names[1..], allowed);
      assert names == [names[0]] + names[1..];
    }
  }

  /** The data a field receives from a parsed request: a JSON integer,
      string, number with a fraction or boolean, or any other JSON value
      (a list, an object, null). */
  datatype Incoming =
    | IntData(i: int)
    | TextData(text: string)
    | FloatData(x: real)
    | BoolData(b: bool)
    | OtherData

  /** A value a field is asked to represent. */
  datatype Outgoing = DateValue(day: int) | DateTimeValue(micros: int) | OtherValue

  /** `self.fail(key)`: a ValidationError with the message declared under
      `key`, or an AssertionError when the field declares no such key; or
      the TypeError of `int()` on a value it cannot convert, which the
      fields do not catch. */
  datatype FieldError = Invalid(key: string) | UndeclaredKey(key: string) | NotConvertible

  /** The messages `DateToNowDaysFields` declares. */
  const DaysKeys: set<string> := {"datetime", "notint", "notdate"}

  /** The messages `DatetimeToNowSecondsFields` declares. */
  const SecondsKeys: set<string> := {"date", "notint", "notdatetime"}

  /** `Field.fail(key)` for a field declaring `keys`. */
  function Fail(keys: set<string>, key: string): (e: FieldError)
    ensures !e.NotConvertible? && e.key == key
    ensures e.Invalid? <==> key in keys
  {
    if key in keys then Invalid(key) else UndeclaredKey(key)
  }

  /** `int(data)` as the fields use it: a ValueError becomes "notint", a
      fraction is truncated toward zero, a boolean is 0 or 1, and the
      TypeError of any other value escapes. */
  function ReadInt(keys: set<string>, data: Incoming): (r: Result<int, FieldError>)
    ensures data.IntData? ==> r == Ok(data.i)
    ensures data.TextData? ==> (r.Ok? <==> ParseInt(data.text).Some?)
    ensures data.TextData? && r.Ok? ==> r.value == ParseInt(data.text).value
    ensures data.FloatData? && 0.0 <= data.x ==> r.Ok? && r.value as real <= data.x < r.value as real + 1.0
    ensures data.FloatData? && data.x < 0.0 ==> r.Ok? && r.value as real - 1.0 < data.x <= r.value as real
    ensures data.BoolData? ==> r == Ok(if data.b then 1 else 0)
    ensures data.OtherData? <==> r == Err(NotConvertible)
    ensures r.Err? && !data.OtherData? ==> r.error == Fail(keys, "notint")
  {
    match data
    case IntData(i) => Ok(i)
    case TextData(s) =>
      (match ParseInt(s)
       case None => Err(Fail(keys, "notint"))
       case Some(i) => Ok(i))
    case FloatData(x) => Ok(Decimal.Trunc(x))
    case BoolData(b) => Ok(if b then 1 else 0)
    case OtherData => Err(NotConvertible)
  }

  /** `DateToNowDaysFields.to_internal_value`: the day `n` days before
      today. */
  function DaysToDate(data: Incoming, today: int): (r: Result<int, FieldError>)
    ensures r.Ok? <==> ReadInt(DaysKeys, data).Ok?
    ensures r.Ok? ==> today - r.value == ReadInt(DaysKeys, data).value
    ensures data.OtherData? ==> r == Err(NotConvertible)
    ensures r.Err? && !data.OtherData? ==> r.error == Invalid("notint")
  {
    var n :- ReadInt(DaysKeys, data);
    Ok(today - n)
  }

  /** `DateToNowDaysFields.to_representation`: how many days ago a date
      was; a datetime and anything that is not a date are refused. */
  function DateToDays(value: Outgoing, today: int): (r: Result<int, FieldError>)
    ensures value.DateValue? ==> r.Ok? && value.day + r.value == today
    ensures value.DateTimeValue? ==> r == Err(Invalid("datetime"))
    ensures value.OtherValue? ==> r == Err(Invalid("notdate"))
  {
    match value
    case DateTimeValue(_) => Err(Fail(DaysKeys, "datetime"))
    case OtherValue => Err(Fail(DaysKeys, "notdate"))
    case DateValue(d) => Ok(today - d)
  }

  /** Days read in and written back out are the same number. */
  lemma DaysRoundTrip(n: int, today: int)
    ensures DaysToDate(IntData(n), today).Ok?
    ensures DateToDays(DateValue(DaysToDate(IntData(n), today).value), today) == Ok(n)
  {
  }

  /** A date written out and read back in is the same date; a day in the
      past is written as a positive number. */
  lemma DateRoundTrip(d: int, today: int)
    ensures DateToDays(DateValue(d), today).Ok?
    ensures DaysToDate(IntData(DateToDays(DateValue(d), today).value), today) == Ok(d)
    ensures d < today <==> DateToDays(DateValue(d), today).value > 0
  {
  }

  /** A number with a fraction is cut toward zero: 3.7 days and -3.7 days
      are 3 days back and 3 days ahead. */
  lemma FractionalDaysTruncated(today: int)
    ensures DaysToDate(FloatData(3.7), today) == Ok(today - 3)
    ensures DaysToDate(FloatData(-3.7), today) == Ok(today + 3)
  {
    assert Decimal.Trunc(3.7) == 3;
    assert Decimal.Trunc(-3.7) == -3;
  }

  /** Text that `int()` reads is the same number of days. */
  lemma DaysFromText(n: int, today: int)
    ensures DaysToDate(TextData(IntToString(n)), today) == DaysToDate(IntData(n), today)
  {
    ParseIntToString(n);
  }

  /** `DatetimeToNowSecondsFields.to_internal_value`: the instant `n`
      seconds before now. */
  function SecondsToDateTime(data: Incoming, now: int): (r: Result<int, FieldError>)
    ensures r.Ok? <==> ReadInt(SecondsKeys, data).Ok?
    ensures r.Ok? ==> now - r.value == ReadInt(SecondsKeys, data).value * Calendar.MicrosPerSecond
    ensures data.OtherData? ==> r == Err(NotConvertible)
    ensures r.Err? && !data.OtherData? ==> r.error == Invalid("notint")
  {
    var n :- ReadInt(SecondsKeys, data);
    Ok(now - n * Calendar.MicrosPerSecond)
  }

  /** `timedelta.days`: whole days, rounded toward minus infinity. */
  function FloorDays(micros: int): (d: int)
    ensures d * Calendar.MicrosPerDay <= micros < (d + 1) * Calendar.MicrosPerDay
  {
    micros / Calendar.MicrosPerDay
  }

  /** `DatetimeToNowSecondsFields.to_representation` as written: the first
      test is `isinstance(value, date)`, which every datetime also passes,
      so a datetime is refused as a date; a value that is not a date asks
      for the message "notdate", which this field does not declare. */
  function DateTimeToSeconds(value: Outgoing, now: int): (r: Result<int, FieldError>)
    ensures value.DateValue? || value.DateTimeValue? ==> r == Err(Invalid("date"))
    ensures value.OtherValue? ==> r == Err(UndeclaredKey("notdate"))
  {
    match value
    case DateValue(_) => Err(Fail(SecondsKeys, "date"))
    case DateTimeValue(_) => Err(Fail(SecondsKeys, "date"))
    case OtherValue => Err(Fail(SecondsKeys, "notdate"))
  }

  /** No datetime is ever represented. */
  lemma DateTimeNeverRepresented(t: int, now: int)
    ensures DateTimeToSeconds(DateTimeValue(t), now).Err?
    ensures DateTimeToSeconds(DateTimeValue(t), now) == DateTimeToSeconds(DateValue(t), now)
  {
  }

  /** The representation the field evidently means: a plain date is
      refused with "date", anything else with "notdatetime", and a datetime
      gives the days between it and now, as its documentation says. */
  function DateTimeToDaysIntended(value: Outgoing, now: int): (r: Result<int, FieldError>)
    ensures value.DateValue? ==> r == Err(Invalid("date"))
    ensures value.OtherValue? ==> r == Err(Invalid("notdatetime"))
    ensures value.DateTimeValue? ==> r.Ok? && r.value == FloorDays(now - value.micros)
  {
    match value
    case DateTimeValue(t) => Ok(FloorDays(now - t))
    case DateValue(_) => Err(Fail(SecondsKeys, "date"))
    case OtherValue => Err(Fail(SecondsKeys, "notdatetime"))
  }

  /** With the intended representation, `n` seconds read in come back as
      the whole days they span. */
  lemma SecondsRoundTripIntended(n: int, now: int)
    ensures SecondsToDateTime(IntData(n), now).Ok?
    ensures var t := SecondsToDateTime(IntData(n), now).value;
            DateTimeToDaysIntended(DateTimeValue(t), now) == Ok(n / Calendar.SecondsPerDay)
  {
    var t := now - n * Calendar.MicrosPerSecond;
    assert now - t == n * Calendar.MicrosPerSecond;
    var d := n / Calendar.SecondsPerDay;
    assert d * Calendar.SecondsPerDay <= n < (d + 1) * Calendar.SecondsPerDay;
    FloorDaysUnique(n * Calendar.MicrosPerSecond, d);
  }

  /** `FloorDays` is the only whole number of days below the span and
      within a day of it. */
  lemma FloorDaysUnique(micros: int, d: int)
    requires d * Calendar.MicrosPerDay <= micros < (d + 1) * Calendar.MicrosPerDay
    ensures FloorDays(micros) == d
  {
  }

  /** What the decorated function did: returned, or raised. */
  datatype Outcome<T> = Returned(value: T) | Raised(exception: Exception)

  datatype Exception =
    | IntegrityError
    | ValidationError(detail: map<string, string>)
    | OtherException(name: string)

  /** `integrity_error_to_validation_eror.default_detail`: 存在重复值。
      ("a duplicate value exists"). */
  const DefaultDetail: map<string, string> :=
    map["detail" := "\U{5b58}\U{5728}\U{91cd}\U{590d}\U{503c}\U{3002}"]

  /** `detail or self.default_detail`: a missing or empty detail gives the
      default. */
  function DetailOf(detail: Option<map<string, string>>): (d: map<string, string>)
    ensures d != map[]
    ensures detail.Some? && detail.value != map[] ==> d == detail.value
    ensures detail.None? || detail.value == map[] ==> d == DefaultDetail
  {
    assert "detail" in DefaultDetail;
    match detail
    case None => DefaultDetail
    case Some(m) => if m == map[] then DefaultDetail else m
  }

  /** The decorated function: an IntegrityError becomes a ValidationError
      with the detail; every other outcome passes through. */
  function GuardIntegrity<T>(detail: Option<map<string, string>>, outcome: Outcome<T>): (r: Outcome<T>)
    ensures outcome == Raised(IntegrityError) ==> r == Raised(ValidationError(DetailOf(detail)))
    ensures outcome != Raised(IntegrityError) ==> r == outcome
  {
    if outcome == Raised(IntegrityError) then Raised(ValidationError(DetailOf(detail))) else outcome
  }

  /** The decorator never lets an IntegrityError out, and applying it twice
      is applying it once. */
  lemma GuardIntegrityIdempotent<T>(detail: Option<map<string, string>>, outcome: Outcome<T>)
    ensures GuardIntegrity(detail, outcome) != Raised(IntegrityError)
    ensures GuardIntegrity(detail, GuardIntegrity(detail, outcome)) == GuardIntegrity(detail, outcome)
  {
  }
}
