# yus_note core rules in Dafny

yus_note is a Django note-taking service with spaced repetition.
- A user keeps a review plan: a comma-separated list of day intervals such as "1,3,7,30".
- Each time a note or collection is reviewed ("punched"), the plan is rescaled by the feedback.
- The item moves to its next stage and gets its next review date.
- The user's monthly activity history is updated.

This project models that scheduler and the pure rules around it as immutable data and total functions. Failures are `Result` values, not exceptions. It covers:

- **Review** (utils/review.py):
  - `FEEDBACK_MAP` and the interval bounds;
  - `adjust_and_get_next`: feedback defaulting, plan parsing, stage clamping, the two scaling passes, two-decimal formatting, the next stage and the next review date.
- **UserProxyViews** (apps/user_proxy/views.py):
  - `update_history`: the "YYYY-MM" key, the month record, and retention eviction;
  - the field updates of both `punch` actions, the soft delete in `destroy`, and `recycle`.
- **UserValidators** (apps/user/validators.py): the phone-number pattern, and `FileSizeValidator` (size-text parsing and the limit check).
- **DrfSerializers** (yus_note/drf/serializers.py):
  - the dynamic field filter;
  - the days-from-today and seconds-from-now fields;
  - the IntegrityError-to-ValidationError decorator.
- **CoreModels** (yus_note/models.py): the `cached_model_property` timeout, cache key and `__set_name__` rules, and the declared feedback choices.
- **UserModels** (apps/user/models.py): the avatar upload path and size limit, the account-creation flag rules, `User.name` and `str(user)`.
- **Support modules**:
  - Wrappers (`Option`, `Result`);
  - Text (Python `split`, `join`, `strip`, `upper`, `int()`);
  - Decimal (Python `float()` on decimal text and `'{:.2f}'`);
  - Calendar (the proleptic Gregorian calendar of `datetime`, as day ordinals and microsecond instants).

The current time and the settings are parameters: `datetime.now()`, `date.today()` and `HISTORY_EXPIRES`. Rounding in `'{:.2f}'` follows binary floating point, so it is a parameter `round2` of type `Decimal.Rounding`. That type admits any rounding that is within half a hundredth, monotone, and exact on hundredths.

Some behaviour of the code is easy to misread. The model follows the code in each case:
- The entry at the current stage is scaled twice, once before the loop and once inside it. With factor 1.4, an entry of 3 becomes 5.88 (`Review.DoubleScalingExample`).
- `feedback or 2` turns a feedback of 0 into 2. So `FEEDBACK_MAP[0]` (0.5) is never used for an integer feedback, and the factor stays 1 (`Review.DefaultedFeedback`).
- `update_history` deletes from the dict while iterating over it, which raises. So any expired month makes the update fail. This is listed under Findings, with a corrected eviction.
- `create_superuser` checks its flags before `_create_user` checks the username (`UserModels.CreateSuperuserOutcome`).
- The docstring of `cached_model_property` gives the cache key as class name, method name, pk. `get_key` builds class name, pk, property name (`CoreModels.GetKeySplits`). `get`, `set` and `delete` all use `get_key`, so nothing depends on the order.

## Model

| member | source | states |
|---|---|---|
| Review.FeedbackKey | utils/review.py:20-21 | a missing or zero feedback becomes 2; any other value is kept; the key is never 0 |
| Review.Multiplier | utils/review.py:8-24 | a key in {0,1,2,3} gives 0.5/0.7/1.0/1.2; any other key gives 1 |
| Review.DefaultedFeedback | utils/review.py:20-24 | an integer feedback never yields 0.5; None and 0 both yield 1.0 |
| Review.Clamp | utils/review.py:16-37 | the result lies in [1,60]; it equals the input inside the range and the nearer bound outside it |
| Review.Factor | utils/review.py:20-33 | equal keys give that key's multiplier; otherwise the factor moves from it by the change in multipliers; it lies in [0.2,1.7] |
| Review.ClampStage | utils/review.py:26-30 | a stage at or past N becomes N-1, a negative one becomes 0, others are kept |
| Review.ParseEntries | utils/review.py:25 | succeeds iff every token is a float; each value is that token's float |
| Review.ParseEntriesFirstError | utils/review.py:25 | an error names the first token that is not a float: every token before it is one |
| Review.FailsIffSomeTokenBad | utils/review.py:25 | parsing a token list fails exactly when some token is not a float |
| Review.ParsePlan | utils/review.py:25 | a parsed plan has one entry per comma-separated token, at least one |
| Review.AdjustFailsIffMalformed | utils/review.py:25 | the call fails exactly when some token is not a float; the empty plan fails |
| Review.Rescale | utils/review.py:32-47 | entries before the stage are kept; the stage entry is clamp(clamp(p*d)*d); later entries are clamp(p*d) |
| Review.RescaleFrom | utils/review.py:39-47 | the loop keeps entries before the stage and rescales and clamps every entry from the stage on |
| Review.FormatEntries | utils/review.py:48 | one two-decimal text per interval, with no comma; each reads back with `float()` as its interval rounded to hundredths |
| Review.FormattedRead | utils/review.py:48-49 | formatted intervals read back as their two-decimal roundings, and none holds the separator |
| Review.NextStage | utils/review.py:51 | the next stage is stage+1, except at the last stage, where it stays |
| Review.AdjustAndGetNext | utils/review.py:19-55 | fails iff the plan does not parse; on success the stage indexes a plan token and the next review is 1 to 60 days ahead |
| Review.Advance | utils/review.py:26-55 | the new stage is a valid index of the plan |
| Review.Scaled | utils/review.py:23-47 | scaling keeps the plan's length |
| Review.PlanEntries | utils/review.py:39-49 | the new plan splits into N two-decimal entries; each reads back as the rounded scaled interval |
| Review.PrefixOnlyReformatted | utils/review.py:39-48 | entries before the clamped stage keep their parsed value and are not clamped |
| Review.SuffixBounded | utils/review.py:32-47 | entries from the clamped stage on lie in [1,60], before and after rounding |
| Review.DoubleScalingExample | utils/review.py:32-47 | with feedback 3 after 2 the factor is 1.4, and the stage entry 3 becomes 5.88 |
| Review.StageProgression | utils/review.py:51 | the new stage is clamped stage + 1 below the last entry, and unchanged at it |
| Review.NextReviewDate | utils/review.py:53 | the next date is today plus the truncated formatted entry at the new stage, between today+1 and today+60 |
| Review.FormatWholeDays | utils/review.py:48 | a whole number n is printed as its digits followed by ".00" |
| Review.DefaultPlanSplits | utils/review.py:25 | "1,3,7,30" splits into its four tokens |
| Review.DefaultTokenValues | utils/review.py:25 | the default plan's tokens read as 1, 3, 7 and 30 |
| Review.DefaultTokensParse | utils/review.py:25 | the default plan's tokens parse to [1,3,7,30] |
| Review.DefaultPlanParses | utils/review.py:25 | the default plan parses to [1,3,7,30] |
| Review.DefaultPlanUnscaled | utils/review.py:20-47 | with no feedback at all, the default plan is not rescaled |
| Review.Rounded2OfHundredths | utils/review.py:48 | a value that is a whole number of hundredths is printed exactly |
| Review.ParseEntriesOf | utils/review.py:25 | tokens that each read as the given value parse to exactly those values |
| Review.NeutralScaling | utils/review.py:32-47 | with factor 1, an in-range plan is left unchanged by both passes |
| Review.NeutralReviewKeepsPlan | utils/review.py:25-49 | with factor 1, an in-range plan of hundredths is printed as a plan that parses back to itself |
| Review.DefaultPlanReprinted | utils/review.py:25-49 | the default plan is reprinted as a plan that parses back to [1,3,7,30] |
| Review.DefaultPlanNextReview | utils/review.py:51-53 | the first review of the default plan moves to stage 1, due in 3 days |
| Review.FirstReviewOfDefaultPlan | utils/review.py:19-55 | the whole call on "1,3,7,30" with no feedback succeeds: stage 1, due today+3, same plan |
| Decimal.ParseFloat | utils/review.py:25 | text that `float()` accepts holds at least one decimal digit |
| Decimal.FormatFixed2 | utils/review.py:48 | `'{:.2f}'` gives digits, '.', and two digits, with no comma |
| Decimal.ParseFormatFixed2 | utils/review.py:48-53 | `float('{:.2f}'.format(x))` is the two-decimal rounding of x |
| Decimal.Rounded2Close | utils/review.py:48 | the printed value is within 0.005 of the interval |
| Decimal.Rounded2Monotone | utils/review.py:48 | printing preserves order |
| Decimal.Rounded2Exact | utils/review.py:48 | printing is the identity on hundredths |
| Decimal.Rounded2Between | utils/review.py:48-53 | a value between two hundredths is printed between them |
| Decimal.Trunc | utils/review.py:53 | `int()` of a float truncates toward zero |
| Decimal.ParseFloatOfDigits | utils/review.py:25 | the decimal digits of n read back as n |
| Decimal.ParseFloatOfNumerals | apps/user/validators.py:39 | a run of digits and dots that `float()` accepts is never negative |
| Decimal.ParseFloatTwoDots | apps/user/validators.py:39 | a numeral with two dots is refused by `float()` |
| Text.Split | apps/user_proxy/views.py:206 | a split has at least one part, and no part holds the separator |
| Text.Join | apps/user_proxy/views.py:208 | the joined text is as long as its parts plus one separator between each pair |
| Text.ParseInt | apps/user_proxy/views.py:207 | `int()` accepts exactly stripped text of digits with an optional sign, and reads their decimal value, negated after '-' |
| Text.SplitJoin | utils/review.py:49 | splitting a comma join gives back the parts when none holds a comma |
| Text.JoinSplit | apps/user_proxy/views.py:206-208 | joining the split of a text gives the text back |
| Text.ParseIntToString | apps/user_proxy/views.py:207 | `int(str(i)) == i` |
| Text.IntToString | apps/user_proxy/views.py:207 | `str(i)` starts with '-' iff i is negative; the rest is digits whose decimal value is the magnitude of i |
| Text.Strip | apps/user/validators.py:36 | the result is a slice of the text with only whitespace cut before and after it; it is no longer than the text, and when non-empty it neither starts nor ends with whitespace |
| Text.AsciiUpper | apps/user/validators.py:36 | same length as the text, with no lower-case ASCII letter left |
| Text.LowerUndoesUpper | apps/user/validators.py:36 | on text without capitals, lower-casing the upper-cased text gives it back |
| Calendar.DaysInMonth | apps/user_proxy/views.py:199 | months have 28 to 31 days; February has 29 exactly in leap years |
| Calendar.Ordinal | apps/user_proxy/views.py:211-213 | every valid date's ordinal is at least 1 |
| Calendar.YearLength | apps/user_proxy/views.py:211-213 | a year holds 366 days if it is a leap year and 365 otherwise |
| Calendar.OrdinalInYear | apps/user_proxy/views.py:211-213 | a date's ordinal lies after every day of earlier years and no later than the last day of its own year |
| Calendar.OrdinalOrder | apps/user_proxy/views.py:211-213 | one date precedes another (by year, month, day) iff its ordinal is smaller; two dates are equal iff their ordinals are |
| Calendar.Instant | apps/user_proxy/views.py:211-213 | a datetime's instant lies within its date's day of microseconds |
| Calendar.InstantOrder | apps/user_proxy/views.py:211-213 | datetimes compare as their instants do: earlier date, or same date and earlier time of day; equal instants mean equal datetimes |
| UserProxyViews.MonthKey | apps/user_proxy/views.py:198 | the key is digits reading as the year, '-', and two digits reading as the month |
| UserProxyViews.ParseMonthText | apps/user_proxy/views.py:213 | "%m" accepts exactly one or two digits whose value is 1 to 12, and reads that value |
| UserProxyViews.ParseMonthKey | apps/user_proxy/views.py:213 | an accepted key has a year in 1..9999 and a month in 1..12 |
| UserProxyViews.MonthKeyRoundTrip | apps/user_proxy/views.py:198-213 | parsing the key of a four-digit year and a month gives them back |
| UserProxyViews.FreshRecord | apps/user_proxy/views.py:201-202 | n entries, "1" at day-1 and "0" everywhere else |
| UserProxyViews.Increment | apps/user_proxy/views.py:205-208 | succeeds iff the record has today's entry and it is an integer; then the entry count is kept, today's count reads one more, and every other entry is unchanged |
| UserProxyViews.RecordToday | apps/user_proxy/views.py:197-208 | only the current month's key is added or changed; every other record is kept |
| UserProxyViews.NewMonthRecord | apps/user_proxy/views.py:199-203 | a new month gets days-in-month entries, "1" today and "0" elsewhere |
| UserProxyViews.ExistingMonthRecord | apps/user_proxy/views.py:205-208 | an existing month keeps its entry count; only today's count grows by one |
| UserProxyViews.UnreadableMonthRecord | apps/user_proxy/views.py:205-208 | the update fails iff the record is too short or today's entry is not an integer |
| UserProxyViews.Window | apps/user_proxy/views.py:210 | a missing or zero setting gives 90 days; any other value is used |
| UserProxyViews.Expired | apps/user_proxy/views.py:211-213 | the test is undefined exactly for keys `strptime` refuses |
| UserProxyViews.Evict | apps/user_proxy/views.py:212-215 | eviction returns the map unchanged iff no key is expired or malformed, and fails otherwise |
| UserProxyViews.UpdateHistory | apps/user_proxy/views.py:194-215 | a successful update is exactly today's recording |
| UserProxyViews.UpdateHistoryOutcome | apps/user_proxy/views.py:194-215 | after recording, the update succeeds iff no key is expired or malformed, and then it returns the recording |
| UserProxyViews.EvictIntended | apps/user_proxy/views.py:210-214 | the corrected eviction: it succeeds iff every key is a month; it keeps exactly the unexpired keys, with their records |
| UserProxyViews.UpdateHistoryIntended | apps/user_proxy/views.py:194-215 | the corrected update succeeds iff the recording does and every recorded key is a month |
| UserProxyViews.EvictIntendedAgrees | apps/user_proxy/views.py:212-214 | whenever the code as written succeeds, the corrected eviction gives the same map |
| UserProxyViews.StaleMonthEvictedIntended | apps/user_proxy/views.py:194-214 | corrected, on 2024-02-15 with the default window a "2023-10" record is dropped and the current month is kept |
| UserProxyViews.CurrentMonthKept | apps/user_proxy/views.py:210-213 | with a window of at least 31 days, the current month is never expired |
| UserProxyViews.StaleMonthAborts | apps/user_proxy/views.py:212-214 | on 2024-02-15 with the default window, a "2023-10" record makes the update fail |
| UserProxyViews.OctoberExpired | apps/user_proxy/views.py:211-213 | "2023-10" is expired 90 days before 2024-02-15 |
| UserProxyViews.OctoberKey | apps/user_proxy/views.py:213 | "2023-10" parses as October 2023 |
| UserProxyViews.Punch | apps/user_proxy/views.py:251-272 | the punch succeeds iff the scheduler and the history update do; a scheduler failure is reported as such |
| UserProxyViews.PunchFields | apps/user_proxy/views.py:261-271 | new plan, recorded history, stage 0 on reset else the next stage, next date, today, and raw feedback |
| UserProxyViews.PunchNote | apps/user_proxy/views.py:375-394 | a note punch succeeds iff the review punch does, and leaves the deletion fields alone |
| UserProxyViews.SoftDelete | apps/user_proxy/views.py:369-372 | the note is marked deleted today; its review state is untouched |
| UserProxyViews.Recycle | apps/user_proxy/views.py:404-412 | the note is marked not deleted, with no delete date; its review state is untouched |
| UserProxyViews.RecycleUndoesSoftDelete | apps/user_proxy/views.py:369-410 | recycling a soft-deleted live note restores it exactly |
| UserValidators.IsPhone | apps/user/validators.py:11 | an accepted number is 11 characters: '1', a digit from 3 to 9, a digit or ',', then 8 digits |
| UserValidators.PhoneCommaAccepted | apps/user/validators.py:11 | "14,", "15," and "17," followed by 8 digits are accepted |
| UserValidators.PhoneIntendedListed | apps/user/validators.py:11 | an accepted number is 11 digits with a listed 3-digit prefix |
| UserValidators.PhoneListedIntended | apps/user/validators.py:11 | every listed prefix followed by 8 digits is accepted |
| UserValidators.PhoneDigitsAgree | apps/user/validators.py:11 | on all-digit text, the pattern as written and the intended one agree |
| UserValidators.PhoneUnlistedRefused | apps/user/validators.py:11 | prefixes 140, 154 and 171 are refused |
| UserValidators.UnitOf | apps/user/validators.py:17-20 | K means 1024 bytes and M means 1048576; nothing else is a unit |
| UserValidators.NumeralEnd | apps/user/validators.py:35-36 | `[\d.]+` takes the longest run of digits and dots |
| UserValidators.MatchSize | apps/user/validators.py:35-38 | a match's number is a non-empty run of digits and dots |
| UserValidators.SizeOfText | apps/user/validators.py:34-40 | no match gives 0; a failure comes only from a matched number `float()` refuses; a size is never negative |
| UserValidators.NewFileSizeValidator | apps/user/validators.py:22-32 | a numeric limit is used unchanged; a text limit succeeds iff its size parses, and is that size |
| UserValidators.Validate | apps/user/validators.py:42-46 | no file is refused; a file passes iff its size is at most the limit |
| UserValidators.NumeralsAndUnitMatch | apps/user/validators.py:35-38 | leading blanks, a numeral and KB/MB in any case match, with anything after the unit |
| UserValidators.SizeOfMatch | apps/user/validators.py:37-39 | a match whose number parses gives number times unit |
| UserValidators.SizeOfBadMatch | apps/user/validators.py:37-39 | a match whose number does not parse fails |
| UserValidators.SizeOfDigitsAndUnit | apps/user/validators.py:34-39 | digits then KB or MB give n*1024 or n*1048576 |
| UserValidators.SizeWithoutUnit | apps/user/validators.py:40 | a numeral not followed by K or M gives 0 |
| UserValidators.NoUnitNoMatch | apps/user/validators.py:35-37 | without a unit the pattern does not match |
| UserValidators.SizeWithTwoDots | apps/user/validators.py:35-39 | a numeral with two dots before the unit makes construction fail |
| UserValidators.MegabyteLimitBoundary | apps/user/validators.py:45-46 | under "nMB", a file of exactly n MiB passes and one byte more is too large |
| DrfSerializers.KeepFields | yus_note/drf/serializers.py:15-25 | with no `fields` nothing changes; otherwise the kept fields are the declared ones that are allowed |
| DrfSerializers.Filter | yus_note/drf/serializers.py:22-25 | a name is kept iff it is declared and allowed |
| DrfSerializers.FilterKeepsOrder | yus_note/drf/serializers.py:22-25 | the kept fields are in declaration order |
| DrfSerializers.FilterIdempotent | yus_note/drf/serializers.py:22-25 | filtering twice by the same names is filtering once |
| DrfSerializers.FilterAll | yus_note/drf/serializers.py:22-25 | allowing every declared field keeps them all |
| DrfSerializers.Fail | yus_note/drf/serializers.py:53-83 | a declared key is a validation error; any other is the framework's assertion failure |
| DrfSerializers.ReadInt | yus_note/drf/serializers.py:59-62 | integers pass; text passes iff `int()` reads it; floats truncate toward zero; booleans give 1 or 0; other JSON values raise TypeError, which is not caught; a caught failure is 'notint' |
| DrfSerializers.DaysToDate | yus_note/drf/serializers.py:58-63 | the date is today minus n days; unreadable input is 'notint'; a value `int()` cannot take raises TypeError |
| DrfSerializers.FractionalDaysTruncated | yus_note/drf/serializers.py:60 | 3.7 days ago is 3 days ago, and -3.7 is 3 days ahead |
| DrfSerializers.DateToDays | yus_note/drf/serializers.py:65-70 | a date gives today minus that date in days; a datetime is 'datetime', anything else 'notdate' |
| DrfSerializers.DaysRoundTrip | yus_note/drf/serializers.py:58-70 | representing the date read from n gives n back |
| DrfSerializers.DateRoundTrip | yus_note/drf/serializers.py:58-70 | reading the days of a date gives it back; past dates give positive days |
| DrfSerializers.DaysFromText | yus_note/drf/serializers.py:59-63 | the decimal text of n reads as n itself |
| DrfSerializers.SecondsToDateTime | yus_note/drf/serializers.py:84-89 | the instant is now minus n seconds; unreadable input is 'notint'; a value `int()` cannot take raises TypeError |
| DrfSerializers.DateTimeToSeconds | yus_note/drf/serializers.py:91-96 | every date or datetime fails with 'date'; anything else hits the undeclared 'notdate' |
| DrfSerializers.DateTimeNeverRepresented | yus_note/drf/serializers.py:91-93 | a datetime is refused just as a date is |
| DrfSerializers.DateTimeToDaysIntended | yus_note/drf/serializers.py:73-96 | the corrected field: a datetime gives whole days before now; a date is 'date', anything else 'notdatetime' |
| DrfSerializers.SecondsRoundTripIntended | yus_note/drf/serializers.py:84-96 | with the correction, n seconds ago reads back as n div 86400 days |
| DrfSerializers.FloorDays | yus_note/drf/serializers.py:96 | `timedelta.days` is the floor of the duration in days |
| DrfSerializers.FloorDaysUnique | yus_note/drf/serializers.py:96 | that floor is the only whole day count bracketing the duration |
| DrfSerializers.DetailOf | yus_note/drf/serializers.py:103-105 | a missing or empty detail becomes the default; a non-empty one is kept |
| DrfSerializers.GuardIntegrity | yus_note/drf/serializers.py:107-114 | an IntegrityError becomes a ValidationError carrying the detail; any other outcome passes through |
| DrfSerializers.GuardIntegrityIdempotent | yus_note/drf/serializers.py:107-114 | no IntegrityError escapes, and guarding twice is guarding once |
| CoreModels.DeltaMicros | yus_note/models.py:52 | a delta with no negative argument is not negative, and one with no positive argument is not positive |
| CoreModels.DeltaUnits | yus_note/models.py:52 | a week is 7 days, a day 86400 seconds, an hour 3600 seconds, a minute 60 seconds, a second 1000 milliseconds, a millisecond 1000 microseconds |
| CoreModels.DeltaAdditive | yus_note/models.py:52 | the delta of summed arguments is the sum of the deltas |
| CoreModels.DaySeconds | yus_note/models.py:53-61 | `.seconds` is the 0..86399 second part of the duration normalised into days, seconds and microseconds |
| CoreModels.DaySecondsUnique | yus_note/models.py:53-61 | that seconds part is unique |
| CoreModels.ClockField | yus_note/models.py:56-59 | a field is accepted iff it is one or two digits whose value is at most the maximum; it reads as that value |
| CoreModels.ClockSeconds | yus_note/models.py:56-59 | a clock time `strptime` accepts is less than a day of seconds |
| CoreModels.Midnight | yus_note/models.py:57 | the start of the calendar day containing the instant |
| CoreModels.ExpiresTimeout | yus_note/models.py:51-61 | no expires gives None; a result is below 86400; it fails iff an `at` clock is unreadable |
| CoreModels.Timeout | yus_note/models.py:48-64 | a non-zero timeout overrides; otherwise the expires result stands; the same failures |
| CoreModels.NoTimeout | yus_note/models.py:50-64 | no expires and no non-zero timeout give None |
| CoreModels.ExpiresWholeSeconds | yus_note/models.py:51-53 | expires without `at` gives its total seconds mod 86400 |
| CoreModels.OneDayExpiresAtOnce | yus_note/models.py:51-53 | `expires={"days": 1}` gives a timeout of 0 |
| CoreModels.AtWithinDay | yus_note/models.py:54-61 | with `at`, a target less than a day ahead gives the whole seconds until it |
| CoreModels.TimeoutOverrides | yus_note/models.py:62-63 | a non-zero timeout wins over expires and `at` |
| CoreModels.ExpiresTimeoutIntended | yus_note/models.py:48-64 | the corrected timeout: no expires gives None; it fails exactly as the written one does |
| CoreModels.IntendedTimeoutCoversDelay | yus_note/models.py:51-61 | the corrected timeout is the whole number of seconds in the full delay |
| CoreModels.OneDayIntended | yus_note/models.py:51-53 | a one-day expiry gives 86400 when corrected, and 0 as written |
| CoreModels.PkText | yus_note/models.py:100 | a primary key prints without ':' |
| CoreModels.GetKey | yus_note/models.py:99-100 | the key is longer than the class name |
| CoreModels.GetKeySplits | yus_note/models.py:99-100 | the key splits on ':' into lower-cased class name, pk and attribute name |
| CoreModels.GetKeyDistinguishesPks | yus_note/models.py:99-100 | two instances with different pks get different keys |
| CoreModels.SetName | yus_note/models.py:70-74 | the intended guard: the name is bound iff the owner has no other attribute of that name; otherwise AttributeError |
| CoreModels.GetAccess | yus_note/models.py:76-80 | `__get__` returns the property itself iff it has no function; with one, on the class it fails at `None.pk`, and on an instance it reads that instance's key |
| CoreModels.FoundAtBinding | yus_note/models.py:71 | at binding time `hasattr` finds the name iff the property has no function |
| CoreModels.SetNameAsWritten | yus_note/models.py:70-74 | as written, the name is bound iff the property has a function; otherwise AttributeError |
| CoreModels.InheritedClashMissed | yus_note/models.py:70-74 | a property with a function takes a name the owner inherits, which the intended guard refuses |
| CoreModels.BarePropertyRefused | yus_note/models.py:70-78 | a property without a function refuses its own name, though the intended guard binds a fresh one |
| CoreModels.DeclaredFeedback | yus_note/models.py:103 | the declared values are the first components of the choices |
| CoreModels.FeedbackChoicesAndScheduler | yus_note/models.py:103 | the values are {0,1,2}; 3 is not declared though it has multiplier 1.2; every declared value has multiplier at most 1 |
| UserModels.Extension | apps/user/models.py:21 | there is an extension iff the name holds '.'; it is the text after the last '.' and holds no '.' |
| UserModels.ExtensionOfStem | apps/user/models.py:21 | stem + "." + ext has extension ext, whatever dots the stem holds |
| UserModels.AvatarUploadPath | apps/user/models.py:20-22 | the path exists iff the filename holds '.' |
| UserModels.AvatarKeepsExtension | apps/user/models.py:20-22 | the path is "user/avators/{pk}-{username}.{ext}" with the upload's last extension |
| UserModels.AvatarLimit | apps/user/models.py:111 | the avatar limit "2MB" is 2097152 bytes |
| UserModels.SetDefault | apps/user/models.py:52-60 | the key is set only when absent; other keys are kept |
| UserModels.CreateAccount | apps/user/models.py:35-44 | an empty username is refused; otherwise the account is built from the name and fields |
| UserModels.CreateUser | apps/user/models.py:49-54 | fails iff the username is empty |
| UserModels.CreateUserFlags | apps/user/models.py:52-53 | both flags are present: the supplied value, else False; other fields are kept |
| UserModels.CreateSuperuser | apps/user/models.py:56-67 | a created superuser has both flags exactly True |
| UserModels.CreateSuperuserOutcome | apps/user/models.py:59-67 | a non-True staff flag, then a non-True superuser flag, is refused before the username is checked |
| UserModels.SuperuserNeedsTrueItself | apps/user/models.py:62-65 | a truthy flag that is not True itself is refused |
| UserModels.Name | apps/user/models.py:236-238 | the nickname when non-empty, else the username |
| UserModels.AccountText | apps/user/models.py:240-241 | the text starts with the username and ':' |
| UserModels.AccountTextAndName | apps/user/models.py:236-241 | the text ends with the name when there is a nickname, and with "--" otherwise |

## Left out

- Persistence and framework glue are not modelled: ORM queries and saves, viewset routing, permissions, serializer database checks and authentication backends. The cache reads and writes in `cached_model_property.__get__`, `__set__` and `__delete__` are left out too.
- apps/note/tasks.py (Redis I/O), utils/tencent_sms.py (a network SDK), search indexes, admin, signals, celery, urls and migrations are not part of this model.
- utils/data.py `trim` is not part of this model. It is unused, and its behaviour rests on Python `==` over arbitrary objects.
- The permanent-delete branch of `destroy` is left out. It depends on the database.
- Random authcode generation and caching are left out.
- Binary floating point: intervals are exact reals. The tie-breaking of `'{:.2f}'` is left open as the `round2` parameter. Exact reals have no negative zero: `float("-0")` is -0.0 and prints as "-0.00", so on the plan "-0,3" at stage 1 the program writes "-0.00" where `Review.Advance` and `Decimal.FormatFixed2` write "0.00"; both texts read back as the same value.
- Decimal.ParseFloat: `float()` is modelled only on optionally signed decimal text with surrounding whitespace. Exponents, "inf", "nan" and underscores are not modelled. Plans hold two-decimal numbers.
- Review.FeedbackKey: feedback is an optional integer only. String feedback from form data, such as "0", is truthy and would reach multiplier 0.5; that is not modelled.
- DrfSerializers.ReadInt: text is read as by `Text.ParseInt`. Underscores between digits ("1_000"), non-ASCII digits, and floats outside the integer range (infinities and NaN, which raise OverflowError or ValueError) are not modelled.
- UserProxyViews.Punch: `reset` is a boolean. The truthiness of arbitrary request values is not modelled.
- UserValidators.IsPhone: only ASCII digits are modelled. Python's `\d` also matches other Unicode digits, and `$` also accepts one trailing newline.
- Text.Strip: whitespace is the ASCII and separator set listed in `Text.IsSpace`. Unicode whitespace beyond it, and case mapping beyond ASCII, are not modelled.
- UserProxyViews.Evict: a malformed key (ValueError) and an expired key (RuntimeError from mutating the dict during iteration) are one error, `EvictionAborted`. Which is raised depends on dict order, which a map does not have.
- UserProxyViews.MonthKeyRoundTrip: holds for years 1000 to 9999 only. `strftime("%Y")` padding of smaller years is platform-dependent.
- The clock: `datetime.now()` and `date.today()` are parameters. The several separate clock reads of one request are modelled as one instant.
- Calendar: OverflowError at the limits of the date range is not modelled.
- `cached_model_property.timeout`: `timedelta(**expires)` with unknown keywords or float amounts is not modelled. `Delta` holds integer amounts.
- CoreModels.SetNameAsWritten: `caches[...]` runs before `get_key` in `__get__`. A cache name missing from the settings would raise InvalidCacheBackendError, which `hasattr` does not catch; the model takes the cache as configured.
- UserModels.CreateAccount: e-mail and username normalisation and password hashing in `_create_user` are not modelled. Only the username check and the fields reach the model.

## Findings

| source | as written | input that shows it | evidently intended | confidence | as-written member | corrected member |
|---|---|---|---|---|---|---|
| apps/user/validators.py:11 | the classes `[5,7]`, `[0-3,5-9]` and `[0,3,5-8]` also accept a literal ',' | "14,12345678" is accepted as a phone number | the classes list digits only, so the number is 11 digits | high, not executed | UserValidators.PhoneCommaAccepted | UserValidators.PhoneListedIntended |
| yus_note/drf/serializers.py:91-96 | `isinstance(value, date)` is checked first, and a datetime is a date, so every datetime fails with 'date'; a non-date reaches the undeclared key 'notdate' | any datetime | a datetime gives the whole days before now; a plain date gives 'date'; other values give 'notdatetime' | high, not executed | DrfSerializers.DateTimeNeverRepresented | DrfSerializers.SecondsRoundTripIntended |
| yus_note/models.py:53-61 | the timeout is `.seconds` of the delay, which drops whole days | `expires={"days": 1}` gives timeout 0 | the whole delay in seconds (`total_seconds()`), 86400 for one day | medium, not executed | CoreModels.OneDayExpiresAtOnce | CoreModels.IntendedTimeoutCoversDelay |
| apps/user_proxy/views.py:212-214 | `del history[k]` runs inside `for k in history`, and changing a dict's size while iterating it raises RuntimeError; so once any month has expired, every later update fails | on 2024-02-15 with the default 90 days, a history holding "2023-10" | expired months are dropped and the rest is kept | high, not executed | UserProxyViews.StaleMonthAborts | UserProxyViews.StaleMonthEvictedIntended |
| yus_note/models.py:70-74 | `hasattr(owner, name)` finds this property itself, already bound in the class, and calls its `__get__(None, owner)`; with a function set, `get_key` reads `None.pk`, the AttributeError makes `hasattr` False, and the name is always bound, so the refusal never runs for a working property | a property whose name the owner also inherits from a base class | the name is refused when the owner already has another attribute of that name | medium, not executed | CoreModels.InheritedClashMissed | CoreModels.SetName |
