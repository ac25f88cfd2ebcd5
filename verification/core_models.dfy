/** The pure parts of yus_note/models.py: the timeout and the cache key of
    the `cached_model_property` descriptor, the guard of its
    `__set_name__`, and the feedback choices review models declare.  The
    cache itself is left to the caller. */
module CoreModels {
  import opened Wrappers
  import opened Text
  import Calendar
  import Review

  /** The keyword arguments of `timedelta(**expires)`, all integers. */
  datatype Delta = Delta(weeks: int, days: int, hours: int, minutes: int, seconds: int,
                         milliseconds: int, microseconds: int)
  {
    predicate NoneNegative() {
      weeks >= 0 && days >= 0 && hours >= 0 && minutes >= 0 && seconds >= 0
      && milliseconds >= 0 && microseconds >= 0
    }

    predicate NonePositive() {
      weeks <= 0 && days <= 0 && hours <= 0 && minutes <= 0 && seconds <= 0
      && milliseconds <= 0 && microseconds <= 0
    }
  }

  /** The length of a `timedelta` in microseconds: each argument counts
      in its own unit, and a duration built from amounts of one sign has
      that sign. */
  function DeltaMicros(d: Delta): (us: int)
    ensures d.NoneNegative() ==> us >= 0
    ensures d.NonePositive() ==> us <= 0
  {
    d.weeks * 7 * Calendar.MicrosPerDay + d.days * Calendar.MicrosPerDay
    + d.hours * 3600 * Calendar.MicrosPerSecond + d.minutes * 60 * Calendar.MicrosPerSecond
    + d.seconds * Calendar.MicrosPerSecond + d.milliseconds * 1000 + d.microseconds
  }

  /** The units of `timedelta`: a week is 7 days, a day 86400 seconds, an
      hour 3600 seconds, a minute 60 seconds, a second 1000 milliseconds
      and a millisecond 1000 microseconds. */
  lemma DeltaUnits()
    ensures DeltaMicros(Delta(1, 0, 0, 0, 0, 0, 0)) == 7 * DeltaMicros(Delta(0, 1, 0, 0, 0, 0, 0))
    ensures DeltaMicros(Delta(0, 1, 0, 0, 0, 0, 0)) == 86400 * DeltaMicros(Delta(0, 0, 0, 0, 1, 0, 0))
    ensures DeltaMicros(Delta(0, 0, 1, 0, 0, 0, 0)) == 3600 * DeltaMicros(Delta(0, 0, 0, 0, 1, 0, 0))
    ensures DeltaMicros(Delta(0, 0, 0, 1, 0, 0, 0)) == 60 * DeltaMicros(Delta(0, 0, 0, 0, 1, 0, 0))
    ensures DeltaMicros(Delta(0, 0, 0, 0, 1, 0, 0)) == 1000 * DeltaMicros(Delta(0, 0, 0, 0, 0, 1, 0))
    ensures DeltaMicros(Delta(0, 0, 0, 0, 0, 1, 0)) == 1000 * DeltaMicros(Delta(0, 0, 0, 0, 0, 0, 1))
    ensures DeltaMicros(Delta(0, 0, 0, 0, 0, 0, 1)) == 1
  {
  }

  /** `timedelta(**a) + timedelta(**b)` is the delta of the summed
      arguments. */
  lemma DeltaAdditive(a: Delta, b: Delta)
    ensures DeltaMicros(Delta(a.weeks + b.weeks, a.days + b.days, a.hours + b.hours, a.minutes + b.minutes,
                              a.seconds + b.seconds, a.milliseconds + b.milliseconds,
                              a.microseconds + b.microseconds))
            == DeltaMicros(a) + DeltaMicros(b)
  {
  }

  /** `timedelta.seconds`: a duration is normalised into whole days, the
      seconds left over (0 to 86399) and the microseconds left over; this
      is the middle part. */
  function DaySeconds(micros: int): (s: nat)
    ensures s < Calendar.SecondsPerDay
    ensures var days := (micros - s * Calendar.MicrosPerSecond) / Calendar.MicrosPerDay;
            0 <= micros - days * Calendar.MicrosPerDay - s * Calendar.MicrosPerSecond < Calendar.MicrosPerSecond
  {
    (micros % Calendar.MicrosPerDay) / Calendar.MicrosPerSecond
  }

  /** `DaySeconds` is the only such middle part. */
  lemma DaySecondsUnique(micros: int, days: int, s: int, us: int)
    requires 0 <= s < Calendar.SecondsPerDay && 0 <= us < Calendar.MicrosPerSecond
    requires micros == days * Calendar.MicrosPerDay + s * Calendar.MicrosPerSecond + us
    ensures DaySeconds(micros) == s
  {
    var r := s * Calendar.MicrosPerSecond + us;
    assert 0 <= r < Calendar.MicrosPerDay;
    assert micros % Calendar.MicrosPerDay == r;
  }

  /** A field of "%H:%M:%S": one or two ASCII digits, at most `max`. */
  function ClockField(p: string, max: nat): (r: Option<nat>)
    ensures r.Some? <==> 1 <= |p| <= 2 && AllDigits(p) && DigitsValue(p) <= max
    ensures r.Some? ==> r.value == DigitsValue(p) && r.value <= max
  {
    if 1 <= |p| <= 2 && AllDigits(p) && DigitsValue(p) <= max then Some(DigitsValue(p)) else None
  }

  /** The `at` text as `strptime` reads it after the date and a space:
      leading whitespace is skipped, then hours (at most 23), minutes and
      seconds (at most 59; 60 and 61 pass the pattern but `datetime` refuses
      them) separated by ':', and nothing after.  The result is seconds
      since midnight; `None` is ValueError. */
  function ClockSeconds(at: string): (r: Option<nat>)
    ensures r.Some? ==> r.value < Calendar.SecondsPerDay
  {
    var parts := Split(at[TextStart(at, 0)..], ':');
    if |parts| != 3 then None
    else
      match (ClockField(parts[0], 23), ClockField(parts[1], 59), ClockField(parts[2], 59))
      case (Some(h), Some(m), Some(s)) => Some(h * 3600 + m * 60 + s)
      case _ => None
  }

  /** The arguments of a `cached_model_property` that decide its timeout:
      `timeout`, `expires` (`None` for a missing or empty dict) and `at`. */
  datatype TimeoutConfig = TimeoutConfig(timeout: Option<int>, expires: Option<Delta>, at: Option<string>)

  /** `strptime` refuses the `at` text. */
  datatype TimeoutError = BadClockTime

  /** Midnight of the day an instant falls on. */
  function Midnight(instant: int): (m: int)
    ensures m <= instant < m + Calendar.MicrosPerDay
    ensures m % Calendar.MicrosPerDay == 0
  {
    instant / Calendar.MicrosPerDay * Calendar.MicrosPerDay
  }

  /** The instant `at` o'clock on the day of `now + expires`. */
  function Target(now: int, d: Delta, clock: nat): int {
    Midnight(now + DeltaMicros(d)) + clock * Calendar.MicrosPerSecond
  }

  /** The part of `cached_model_property.timeout` that `expires` and `at`
      decide, as written: `.seconds` of the delay. */
  function ExpiresTimeout(expires: Option<Delta>, at: Option<string>, now: int): (r: Result<Option<int>, TimeoutError>)
    ensures expires.None? ==> r == Ok(None)
    ensures r.Ok? && r.value.Some? ==> 0 <= r.value.value < Calendar.SecondsPerDay
    ensures r.Err? <==> expires.Some? && at.Some? && at.value != "" && ClockSeconds(at.value).None?
  {
    match expires
    case None => Ok(None)
    case Some(d) =>
      if at.None? || at.value == "" then Ok(Some(DaySeconds(DeltaMicros(d))))
      else
        match ClockSeconds(at.value)
        case None => Err(BadClockTime)
        case Some(clock) => Ok(Some(DaySeconds(Target(now, d, clock) - now)))
  }

  /** `cached_model_property.timeout` at the clock reading `now`
      (microseconds since 0001-01-01): `expires` and `at` are worked out
      first, and a non-zero `timeout` then replaces their result. */
  function Timeout(c: TimeoutConfig, now: int): (r: Result<Option<int>, TimeoutError>)
    ensures r.Err? <==> ExpiresTimeout(c.expires, c.at, now).Err?
    ensures r.Ok? && c.timeout.Some? && c.timeout.value != 0 ==> r.value == c.timeout
    ensures r.Ok? && (c.timeout.None? || c.timeout.value == 0) ==> r == ExpiresTimeout(c.expires, c.at, now)
  {
    var fromExpires :- ExpiresTimeout(c.expires, c.at, now);
    if c.timeout.Some? && c.timeout.value != 0 then Ok(c.timeout) else Ok(fromExpires)
  }

  /** With neither `expires` nor a non-zero `timeout` there is no timeout. */
  lemma NoTimeout(timeout: Option<int>, at: Option<string>, now: int)
    requires timeout.None? || timeout == Some(0)
    ensures Timeout(TimeoutConfig(timeout, None, at), now) == Ok(None)
  {
  }

  /** Without `at`, the timeout is the delay's seconds past whole days: a
      delay of whole seconds `k` gives `k mod 86400`, so one day gives 0. */
  lemma ExpiresWholeSeconds(d: Delta, k: int, now: int)
    requires DeltaMicros(d) == k * Calendar.MicrosPerSecond
    ensures Timeout(TimeoutConfig(None, Some(d), None), now) == Ok(Some(k % Calendar.SecondsPerDay))
  {
    DaySecondsUnique(DeltaMicros(d), k / Calendar.SecondsPerDay, k % Calendar.SecondsPerDay, 0);
  }

  /** `expires={"days": 1}` caches for 0 seconds. */
  lemma OneDayExpiresAtOnce(now: int)
    ensures Timeout(TimeoutConfig(None, Some(Delta(0, 1, 0, 0, 0, 0, 0)), None), now) == Ok(Some(0))
  {
    ExpiresWholeSeconds(Delta(0, 1, 0, 0, 0, 0, 0), Calendar.SecondsPerDay, now);
  }

  /** With `at`, the timeout is the whole seconds from now to the target,
      past whole days: exactly that when the target is less than a day
      ahead. */
  lemma AtWithinDay(d: Delta, at: string, now: int)
    requires at != "" && ClockSeconds(at).Some?
    requires var t := Target(now, d, ClockSeconds(at).value); now <= t < now + Calendar.MicrosPerDay
    ensures Timeout(TimeoutConfig(None, Some(d), Some(at)), now)
            == Ok(Some((Target(now, d, ClockSeconds(at).value) - now) / Calendar.MicrosPerSecond))
  {
    var t := Target(now, d, ClockSeconds(at).value);
    var gap := t - now;
    DaySecondsUnique(gap, 0, gap / Calendar.MicrosPerSecond, gap % Calendar.MicrosPerSecond);
  }

  /** A truthy `timeout` wins over `expires` and `at`, provided `at` can be
      read. */
  lemma TimeoutOverrides(c: TimeoutConfig, now: int)
    requires c.timeout.Some? && c.timeout.value != 0
    requires c.expires.None? || c.at.None? || c.at.value == "" || ClockSeconds(c.at.value).Some?
    ensures Timeout(c, now) == Ok(c.timeout)
  {
  }

  /** The timeout the property evidently means: the whole delay in seconds
      (`total_seconds()`), rounded down, not its part past whole days. */
  function ExpiresTimeoutIntended(expires: Option<Delta>, at: Option<string>, now: int): (r: Result<Option<int>, TimeoutError>)
    ensures expires.None? ==> r == Ok(None)
    ensures r.Err? <==> ExpiresTimeout(expires, at, now).Err?
  {
    match expires
    case None => Ok(None)
    case Some(d) =>
      if at.None? || at.value == "" then Ok(Some(DeltaMicros(d) / Calendar.MicrosPerSecond))
      else
        match ClockSeconds(at.value)
        case None => Err(BadClockTime)
        case Some(clock) => Ok(Some((Target(now, d, clock) - now) / Calendar.MicrosPerSecond))
  }

  /** Corrected, the timeout covers the delay: `expires={"days": n}`
      caches for `n` days, and with `at` the timeout runs out within a
      second before the target. */
  lemma IntendedTimeoutCoversDelay(d: Delta, at: Option<string>, now: int)
    requires at.None? || at.value == "" || ClockSeconds(at.value).Some?
    ensures ExpiresTimeoutIntended(Some(d), at, now).Ok?
    ensures var t := ExpiresTimeoutIntended(Some(d), at, now).value.value;
            var span := if at.None? || at.value == "" then DeltaMicros(d)
                        else Target(now, d, ClockSeconds(at.value).value) - now;
            t * Calendar.MicrosPerSecond <= span < (t + 1) * Calendar.MicrosPerSecond
  {
  }

  /** Corrected, one day is 86400 seconds, where the code as written
      gives 0. */
  lemma OneDayIntended(now: int)
    ensures ExpiresTimeoutIntended(Some(Delta(0, 1, 0, 0, 0, 0, 0)), None, now) == Ok(Some(86400))
    ensures ExpiresTimeout(Some(Delta(0, 1, 0, 0, 0, 0, 0)), None, now) == Ok(Some(0))
  {
    OneDayExpiresAtOnce(now);
  }

  /** `str(x)` for the primary key and the attribute name, either of which
      may still be None. */
  function PkText(pk: Option<int>): (s: string)
    ensures ':' !in s
  {
    match pk
    case None => "None"
    case Some(i) =>
      var s := IntToString(i);
      assert forall k | 0 <= k < |s| :: s[k] != ':' by {
        forall k | 0 <= k < |s| ensures s[k] != ':' {
          assert k == 0 || IsDigit(s[k]);
        }
      }
      s
  }

  function NameText(name: Option<string>): string {
    match name
    case None => "None"
    case Some(n) => n
  }

  /** `cached_model_property.get_key`: the model's class name in lower
      case, its primary key and the property's name, joined by ':'. */
  function GetKey(className: string, pk: Option<int>, name: Option<string>): (k: string)
    ensures |k| >= |className| + 2
  {
    AsciiLower(className) + ":" + PkText(pk) + ":" + NameText(name)
  }

  /** The key splits back into its three parts when neither name holds a
      ':'. */
  lemma GetKeySplits(className: string, pk: Option<int>, name: Option<string>)
    requires ':' !in className && ':' !in NameText(name)
    ensures Split(GetKey(className, pk, name), ':') == [AsciiLower(className), PkText(pk), NameText(name)]
  {
    var a, b, c := AsciiLower(className), PkText(pk), NameText(name);
    assert ':' !in a by {
      forall i | 0 <= i < |a| ensures a[i] != ':' {
        assert className[i] != ':';
      }
    }
    var parts := [a, b, c];
    assert Join(parts[1..], ':') == b + [':'] + c;
    assert Join(parts, ':') == a + [':'] + (b + [':'] + c);
    assert GetKey(className, pk, name) == Join(parts, ':');
    assert FreeOf(parts, ':');
    SplitJoin(parts, ':');
  }

  /** Two instances of one model with different primary keys never share a
      key for the same property. */
  lemma GetKeyDistinguishesPks(className: string, pk1: int, pk2: int, name: Option<string>)
    requires ':' !in className && ':' !in NameText(name)
    requires pk1 != pk2
    ensures GetKey(className, Some(pk1), name) != GetKey(className, Some(pk2), name)
  {
    GetKeySplits(className, Some(pk1), name);
    GetKeySplits(className, Some(pk2), name);
    ParseIntToString(pk1);
    ParseIntToString(pk2);
  }

  /** `__set_name__` refuses a name the owner already has. */
  datatype AttributeError = AlreadyDefined(name: string)

  /** The guard `__set_name__` is meant to be: the property takes `name`
      unless the owner already has an attribute of that name.
      `ownerAttributes` are the owner's names other than this property,
      such as those it inherits. */
  function SetName(ownerAttributes: set<string>, name: string): (r: Result<string, AttributeError>)
    ensures r.Ok? <==> name !in ownerAttributes
    ensures r.Ok? ==> r.value == name
    ensures r.Err? ==> r.error == AlreadyDefined(name)
  {
    if name in ownerAttributes then Err(AlreadyDefined(name)) else Ok(name)
  }

  /** A model instance as `get_key` reads it. */
  datatype Instance = Instance(className: string, pk: Option<int>)

  /** How `__get__` gets as far as the cache. */
  datatype Access =
    | Itself              // no function: the descriptor returns itself
    | Keyed(key: string)  // the key the cache is asked for
    | NoPk                // `get_key` read `None.pk`: AttributeError

  /** `cached_model_property.__get__(instance, owner)` up to the cache
      read. Without a function it returns the property itself. With one
      it needs the instance's key; looked up on the class, `instance` is
      None, and `None.pk` raises AttributeError. */
  function GetAccess(hasFunc: bool, instance: Option<Instance>, name: Option<string>): (a: Access)
    ensures a.Itself? <==> !hasFunc
    ensures a.NoPk? <==> hasFunc && instance.None?
    ensures a.Keyed? ==> instance.Some? && a.key == GetKey(instance.value.className, instance.value.pk, name)
  {
    if !hasFunc then Itself
    else match instance
      case None => NoPk
      case Some(inst) => Keyed(GetKey(inst.className, inst.pk, name))
  }

  /** `hasattr(owner, name)` while `__set_name__` runs. The class body has
      already bound `name` to this property, so the lookup ends at its
      `__get__(None, owner)`, before any inherited attribute; `hasattr`
      is False exactly when that raises AttributeError. The property's
      own name is still None then. */
  function FoundAtBinding(hasFunc: bool): (found: bool)
    ensures found <==> !hasFunc
  {
    !GetAccess(hasFunc, None, None).NoPk?
  }

  /** `cached_model_property.__set_name__` as written: the guard asks
      `hasattr`, which consults the property being bound. */
  function SetNameAsWritten(hasFunc: bool, name: string): (r: Result<string, AttributeError>)
    ensures r.Ok? <==> hasFunc
    ensures r.Ok? ==> r.value == name
    ensures r.Err? ==> r.error == AlreadyDefined(name)
  {
    SetName(if FoundAtBinding(hasFunc) then {name} else {}, name)
  }

  /** A property with a function takes its name even when the owner
      inherits an attribute of that name, which the intended guard
      refuses. */
  lemma InheritedClashMissed(inherited: set<string>, name: string)
    requires name in inherited
    ensures SetNameAsWritten(true, name) == Ok(name)
    ensures SetName(inherited, name) == Err(AlreadyDefined(name))
  {
  }

  /** A property built without a function refuses its own name, whatever
      the owner holds. */
  lemma BarePropertyRefused(inherited: set<string>, name: string)
    ensures SetNameAsWritten(false, name) == Err(AlreadyDefined(name))
    ensures name !in inherited ==> SetName(inherited, name) == Ok(name)
  {
  }

  /** `ReviewMixinModel.feedback_choices`: 基本忘了 ("mostly forgotten"),
      有些忘了 ("partly forgotten"), 基本记得 ("mostly remembered") and
      非常清楚 ("perfectly clear"), with the values 0, 1, 2 and 1. */
  const FeedbackChoices: seq<(int, string)> := [
    (0, "\U{57fa}\U{672c}\U{5fd8}\U{4e86}"),
    (1, "\U{6709}\U{4e9b}\U{5fd8}\U{4e86}"),
    (2, "\U{57fa}\U{672c}\U{8bb0}\U{5f97}"),
    (1, "\U{975e}\U{5e38}\U{6e05}\U{695a}")]

  /** The values a feedback field accepts. */
  function DeclaredFeedback(): (vs: set<int>)
    ensures forall v :: v in vs <==> exists i | 0 <= i < |FeedbackChoices| :: FeedbackChoices[i].0 == v
  {
    set i | 0 <= i < |FeedbackChoices| :: FeedbackChoices[i].0
  }

  /** The declared values are 0, 1 and 2: "perfectly clear" reuses 1, so
      the scheduler's largest multiplier, 1.2 for 3, is never chosen from
      the declared values, and a value that is declared never raises an
      interval. */
  lemma FeedbackChoicesAndScheduler()
    ensures DeclaredFeedback() == {0, 1, 2}
    ensures 3 !in DeclaredFeedback() && Review.Multiplier(3) == 1.2
    ensures forall v | v in DeclaredFeedback() :: Review.Multiplier(v) <= 1.0
  {
    assert FeedbackChoices[0].0 == 0 && FeedbackChoices[1].0 == 1 && FeedbackChoices[2].0 == 2;
  }
}
