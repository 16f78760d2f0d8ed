# rsu1-snowcalc-server, core model

A Dafny model of the pure core of the snow-day calculator server: the
code that turns National Weather Service gridpoint forecasts into hourly
series aligned on a reference instant (the "forecast center", 06:00 local
time), reads station observations, condenses them into the three numbers
the predictor takes, and the predictor `model_a` itself.

Modules, one file each:

- `Results` (`results.dfy`): `Option` and `Result`.
- `Numeric` (`numeric.dfy`): truncation toward zero, as `int()` and the
  `int32` cast of numpy perform it.
- `Text` (`text.dfy`): ASCII digits and their values, the greedy `[0-9]+`
  prefix, zero-padded numerals, and `str.split("/P")` with its inverse.
- `Calendar` (`calendar.dfy`): date-times, instants as whole seconds in
  one fixed zone, `strptime(s[:19], "%Y-%m-%dT%H:%M:%S")`, `strftime`,
  `format_datetime`, and `set_forecast_center`.
- `ValidTime` (`validtime.dfy`): the duration regexes and the `validTime`
  reader `nws_datetime_str_to_datetime_with_duration`.
- `Alignment` (`alignment.dfy`): `time_value_pairs_to_individual_forecast`.
  It holds a reference definition in three steps: all rows (`Stream`), the
  cut at hour 23 (`CutAtHorizon`), and the cast or the zero-filled day
  (`Align`). Next to it are the lazy record reading (`FirstRecords`,
  `AlignRead`) and the loop as the Python code runs it
  (`TimeValuePairsToForecast`), proved equal to that definition.
- `Records` (`records.dfy`): `IndividualForecast`, `IndividualObservation`,
  and the apparent-temperature choice made in `Observations`.
- `Predictor` (`predictor.dfy`): `c_to_f`, `mm_to_in`, and `model_a` over
  exact reals. The sigmoid is a parameter, and the learned weights are
  passed in.
- `Summary` (`summary.dfy`): `ThreeNumberSummary`, built from the forecast
  and observation JSON, its `model_a_data_today`, and the prediction
  `Location` makes from it.

Time is a whole number of seconds. Second 0 is the start of 0001-01-01 in
the proleptic Gregorian calendar. The reference instant and "now" are
parameters. The hour offset of a sample is the elapsed seconds divided by
3600, rounded down. That is what `td.days * 24 + td.seconds // 3600`
computes, because Python keeps `td.seconds` in [0, 86400). Dafny's `/`
with a positive divisor rounds down the same way.

## Behaviour worth knowing

The model keeps these behaviours of the code, which a reader might not
expect.

- At exactly 06:00:00 the forecast center is that same 06:00, because the
  test is `now > test`, which is false at equality
  (`Calendar.ForecastCenterAtSix`).
- The hour offset is rounded down. Half an hour before the reference is
  hour -1 (`Alignment.HalfHourBeforeIsHourMinusOne`).
- The hour pattern `T[0-9]+H` is matched only at the start of the duration
  text. So `1DT6H` covers 24 hours (`ValidTime.DurationOfDaysAndHours`).
- The summary reads the first eight rows by position, whatever hours they
  are at. A series whose first record starts at hour 3 averages hours 3
  to 10 (`Summary.WindowIsPositional`).
- The predictor takes three means and three standard deviations:
  `(*means, 0)` must have the length 4 of the feature vector
  (`Predictor.WellShaped`).

## Model

| member | source | states |
|---|---|---|
| Numeric.TruncateTowardZero | venv/nws.py:117-119 | the int32 cast and `int()` give the integer next to the number on the side of zero: below it for non-negative numbers, above it for negative ones |
| Numeric.TruncateIntegral | venv/nws.py:117-119 | a whole number is stored unchanged by the int32 cast and by `int()` |
| Text.LeadingDigits | venv/nws.py:76-77 | the greedy `[0-9]+` prefix: all digits, and followed by a non-digit or the end of the text |
| Text.LeadingDigitsUnique | venv/nws.py:76-77 | a digit prefix that ends at a non-digit is exactly the greedy one, so a match has only one possible extent |
| Text.Split | venv/nws.py:75 | `split("/P")` gives at least one part, and the first part is a prefix of the text |
| Text.JoinSplit | venv/nws.py:75 | joining the parts of `split("/P")` with "/P" gives back the original text |
| Text.SplitPiecesAreClean | venv/nws.py:75 | no part of `split("/P")` contains "/P" |
| Text.SplitAfterClean | venv/nws.py:75 | text without "/P", then "/P", then more text splits into the first text followed by the parts of the rest |
| Text.Padded | venv/nws.py:34 | a `strftime` numeric field has exactly the field width and only digits |
| Text.PaddedValue | venv/nws.py:34 | a padded field reads back as the number it was written from |
| Text.PaddedOfDecimal | venv/nws.py:71 | every digit string is the padded form of its own value at its own width, so reading then writing a field gives the same text |
| Calendar.Instant | venv/nws.py:71 | the instant of a date-time gives back its day number by floor division by 86400 and its time of day as the remainder |
| Calendar.ParseDateTime | venv/nws.py:70-71 | `strptime` of the first 19 characters succeeds only on a valid date-time whose formatted text is exactly those 19 characters |
| Calendar.FormatOfFields | venv/nws.py:71 | a text in the `%Y-%m-%dT%H:%M:%S` layout is the formatting of the fields read from it |
| Calendar.FieldsOfFormat | venv/nws.py:34 | a formatted date-time is in that layout, and the fields read from it are the date-time's |
| Calendar.FormatDateTime | venv/nws.py:34 | the formatted date-time is always 19 characters long; `FieldsOfFormat` and `ParseFormatted` give its round trip |
| Calendar.CanonicalHasNoSlash | venv/nws.py:71-75 | text in that layout holds no `/`, so it cannot contain the "/P" separator |
| Calendar.ParseFormatted | venv/nws.py:70-71 | a formatted date-time followed by any text parses back to the same date-time |
| Calendar.ParseInstant | venv/nws.py:70-71 | `nws_datetime_str_to_datetime` succeeds exactly when the date-time parses, and it gives that date-time's instant |
| Calendar.ColonOffset | venv/nws.py:32-33 | a colon is inserted after the first three characters of `%z`, clamped to the text's length; deleting it gives `%z` back |
| Calendar.FormatTimestamp | venv/nws.py:31-34 | `format_datetime` output is one character longer than the date-time and the offset together, and after its first 19 characters comes exactly the offset with its colon inserted |
| Calendar.TimestampOffset | venv/nws.py:32-33 | after the date-time, the output holds a colon after the offset's first three characters (all of it when shorter), and deleting that colon gives the offset back |
| Calendar.TimestampReadsBack | venv/nws.py:31-34 | the `format_datetime` output of a date-time parses back, through the NWS timestamp reader, to that date-time |
| Calendar.ColonOffsetExample | venv/nws.py:32-33 | `-0500` becomes `-05:00` |
| Calendar.ForecastCenter | venv/nws.py:93-99 | the forecast center is a 06:00:00 instant, at or after now and less than a day after it, and no 06:00 instant at or after now comes earlier |
| Calendar.ForecastCenterOfDate | venv/nws.py:93-99 | a time of day up to and including 06:00 gives that date's 06:00; a later one gives the next day's 06:00 |
| Calendar.ForecastCenterAtSix | venv/nws.py:96 | at exactly 06:00 the center is now itself |
| Calendar.ForecastCenterExamples | venv/nws.py:93-99 | 05:00 gives the same day's 06:00, 07:00 gives the next day's 06:00, and 06:00 gives the same day's 06:00 |
| ValidTime.DayMatch | venv/nws.py:76-80 | the day pattern matches exactly when a nonempty run of digits at the start is followed by `D`, and it reads that run's value |
| ValidTime.HourMatch | venv/nws.py:77-82 | the hour pattern matches exactly when the text starts with `T`, then a nonempty run of digits, then `H`, and it reads that run's value |
| ValidTime.DurationOfDays | venv/nws.py:76-82 | `<n>D` followed by anything covers 24·n hours |
| ValidTime.DurationOfHours | venv/nws.py:77-82 | `T<m>H` followed by anything covers m hours |
| ValidTime.DurationOfDaysAndHours | venv/nws.py:76-82 | `<n>DT<m>H` covers 24·n hours, because the hour pattern is anchored at the start |
| ValidTime.DurationOfNeither | venv/nws.py:78-82 | text starting with neither a digit nor `T` covers 0 hours |
| ValidTime.DurationExamples | venv/nws.py:74-82 | `1D` covers 24 hours, `T6H` 6, `1DT6H` 24, and the empty text 0 |
| ValidTime.ParseValidTime | venv/nws.py:74-83 | a successful read means the text holds exactly one "/P"; the start is the instant of the text before it, and the duration is read from the text after it |
| ValidTime.ParseValidTimeOfParts | venv/nws.py:75-83 | with exactly one "/P", the result is the start read from the left part and the hours read from the right part, or failure when the start does not parse |
| ValidTime.ParseValidTimeOfFormatted | venv/nws.py:74-83 | a formatted start, an offset without `/`, "/P" and a duration text read back as that start's instant and that duration |
| Alignment.TimedeltaHoursIsFloor | venv/nws.py:107-109 | `days * 24 + seconds // 3600` of the elapsed time equals the elapsed seconds divided by 3600 and rounded down |
| Alignment.HalfHourBeforeIsHourMinusOne | venv/nws.py:107-109 | half an hour before the reference is hour -1 |
| Alignment.HourOffset | venv/nws.py:107-109 | the offset of an hour is the whole number of hours h with h·3600 at most the elapsed seconds and (h + 1)·3600 above them |
| Alignment.HourOffsetShift | venv/nws.py:106-109 | hour `delta` of a record sits `delta` hours after its first hour, so offsets within a record are consecutive |
| Alignment.SampleValue | venv/nws.py:112-115 | with `divide` the stored value times the hours covered is the record's value; otherwise it is the record's value |
| Alignment.DeltaSamplesShape | venv/nws.py:104-115 | the rows of a record: the leading hours before the reference are dropped unless negatives are kept, and the rest sit at consecutive offsets with the record's (divided) value |
| Alignment.RecordSamplesShape | venv/nws.py:104-115 | the same for all hours of a record; a duration of 0 contributes nothing |
| Alignment.StreamAppend | venv/nws.py:104 | records are taken in input order: the rows of two lists of records are the rows of the first followed by the rows of the second |
| Alignment.CutAtHorizon | venv/nws.py:116-117 | the kept rows are a prefix of all rows, every kept row but the last is before hour 23, and the rows are cut only right after a row at or past hour 23 |
| Alignment.CastAll | venv/nws.py:117-119 | the int32 array keeps every offset and truncates every value toward zero |
| Alignment.ZeroFill | venv/nws.py:120-124 | the fallback is hours 0 to 23 (24 rows), or -1 to 23 (25 rows) when negatives are kept, consecutive and all with value 0 |
| Alignment.Align | venv/nws.py:102-124 | the array is never empty, only its last row can be at or past hour 23, it is the zero-filled day when no row was produced, and otherwise it is the truncated rows up to the first one at or past hour 23 |
| Alignment.CutIgnoresTail | venv/nws.py:116-117 | once a row at or past hour 23 has been produced, later rows do not change the result |
| Alignment.CutBelowHorizon | venv/nws.py:116-119 | when no row reaches hour 23, every row is kept |
| Alignment.AlignIgnoresLaterRecords | venv/nws.py:116-117 | records after one that reaches hour 23 never affect the array |
| Alignment.ReadRecord | venv/nws.py:105 | reading a record succeeds exactly when its `validTime` parses, and it keeps the parsed start, hours and value |
| Alignment.ReadAll | venv/nws.py:104-105 | one reading per record, in order |
| Alignment.ReadEntries | venv/nws.py:104-105 | when every record reads without error (every `validTime` is well formed), one entry per input, each the one its read gives |
| Alignment.FirstRecordsShape | venv/nws.py:104-117 | the lazy read gives the records in order up to and including the first one reaching hour 23, or else fails with the error of a record read, every record before which is well formed and stays before hour 23 |
| Alignment.FirstFailure | venv/nws.py:104-117 | a failed read is the failure of one record, and every record before it was read without reaching hour 23 |
| Alignment.ForecastArray | venv/nws.py:102-124 | the array is never empty and only its last row can be at or past hour 23; a failure is the `validTime` error of a record every earlier record of which is well formed and stays before hour 23 |
| Alignment.FirstRecordsWhenAllRead | venv/nws.py:104-117 | when every `validTime` is well formed, the records read are a prefix of all of them, and they stop early only at a record that reaches hour 23 |
| Alignment.AlignReadWhenAllRead | venv/nws.py:102-124 | when every `validTime` is well formed, the lazy walk gives exactly the array of all the records |
| Alignment.WalkRecord | venv/nws.py:106-117 | the inner loop appends the rows of the record's hours in order, and stops right after the first row at or past hour 23, which is the only such row |
| Alignment.TimeValuePairsToForecast | venv/nws.py:102-124 | the loop with its early returns gives exactly the reference result: the error of the first malformed record read, or the aligned array |
| Alignment.SpreadTotalExample | venv/nws.py:112-113 | a 3-hour total of 30 from the reference, divided, gives 10 at hours 0, 1 and 2 |
| Alignment.InputOrderExample | venv/nws.py:104-117 | a record at hour 23 listed first hides a record at hour 0 listed after it; in the other order both appear |
| Alignment.GapExample | venv/nws.py:116-117 | hours no record covers are missing, not zero, and the last row can be well past hour 23 |
| Alignment.NegativeOnlyExample | venv/nws.py:110-124 | a record entirely before the reference gives the zero-filled day, or its own negative row when negatives are kept |
| Alignment.TruncationExample | venv/nws.py:112-117 | -7 divided over 2 hours is stored as -3 in each hour |
| Alignment.LazyReadExample | venv/nws.py:104-117 | a malformed record after one reaching hour 23 is never read; one before it fails the call |
| Records.MakeIndividualForecast | venv/nws.py:137-146 | the unit is kept when the quantity has one and is absent otherwise; the array is the alignment result; a malformed record fails the construction |
| Records.ForecastOfWellFormed | venv/nws.py:137-146 | when every `validTime` is well formed the forecast is built, and its array is the alignment of all the records as read |
| Records.MakeIndividualObservation | venv/nws.py:211-221 | a null value becomes 0, a number is truncated toward zero, the unit is copied, and a missing quality-control flag becomes the empty text |
| Records.ObservationOfWholeNumber | venv/nws.py:215 | a whole-number value is kept exactly |
| Records.ApparentTemperature | venv/nws.py:245-256 | the wind chill is used exactly when it is present with a non-null value; otherwise the heat index is used, null or not |
| Records.ApparentTemperatureExamples | venv/nws.py:247-256 | a present but null wind chill falls back to the heat index; a usable wind chill wins over a heat index; a null heat index gives 0 |
| Summary.Window | venv/nws.py:417-419 | `[:8]` takes the first eight rows, or all of them when there are fewer |
| Summary.ColumnSumBounds | venv/nws.py:417 | bounds on every value bound the sum of the value column |
| Summary.ModelADataToday | venv/nws.py:416-420 | snowfall is the sum of the first (up to) eight precipitation values, snow on the ground is the six-hour observation, and the temperature times the window length is the sum of the first (up to) eight temperature values |
| Summary.TemperatureWithinWindow | venv/nws.py:419 | the temperature lies between the least and the greatest value averaged |
| Summary.MeanBetween | venv/nws.py:419 | a mean of whole numbers lies between bounds on the numbers |
| Summary.WindowIsPositional | venv/nws.py:417-419 | a temperature series starting at hour 3 has its eight averaged rows at hours 3 to 10 |
| Summary.MakeSummary | venv/nws.py:400-405 | the summary is built exactly when both forecast series are, the temperature error wins when both fail, the temperature series always has a row and uses the default flags, the precipitation series is divided, and the observation is the six-hour precipitation |
| Summary.PredictToday | venv/nws.py:452 | the prediction from the summary is at most 0.99 and never in [0.51, 0.85] |
| Summary.PredictTodayZero | venv/nws.py:452 | with a sigmoid into (0, 1), the prediction is 0 exactly when at most 5 mm of precipitation is forecast in the window and at most 5 mm was observed |
| Summary.PredictFromJson | venv/nws.py:451-452 | the prediction from the JSON fails exactly when the summary does, with its error, and is otherwise at most 0.99 and never in [0.51, 0.85] |
| Predictor.CToF | venv/models.py:10-11 | the Fahrenheit value converts back to the Celsius input, and it lies above the input exactly when the input is above -40 |
| Predictor.CToFMonotone | venv/models.py:10-11 | the conversion preserves order in both directions |
| Predictor.MmToIn | venv/models.py:14-15 | the inch value converts back to the millimetre input and keeps its sign |
| Predictor.MmToInBelowThreshold | venv/models.py:14-31 | under 0.2 inch means under 5.08 mm |
| Predictor.ShortCircuitInMillimetres | venv/models.py:31 | the short circuit applies exactly when both amounts are under 5.08 mm |
| Predictor.FlooredTemperature | venv/models.py:34 | the floored temperature is at least 10 and at least the Fahrenheit value, and it is one of the two |
| Predictor.Features | venv/models.py:36 | the feature vector is snowfall and previous snow in inches, the floored temperature, and the bias 1 |
| Predictor.Standardize | venv/models.py:37-39 | each of the first three features scales back to its input by its standard deviation and mean, and the bias feature is unchanged |
| Predictor.Layer | venv/models.py:41-42 | one output per row of the first layer, each the dot product of that row with the features |
| Predictor.DotZero | venv/models.py:45-46 | a dot product with zero weights is zero |
| Predictor.Gate | venv/models.py:44 | 26 entries: the first 25 outputs times the sigmoid of the 26th, then 1 |
| Predictor.GateShrinks | venv/models.py:44 | with a gate strictly between 0 and 1, each gated output keeps its sign and moves toward 0 |
| Predictor.Invert | venv/models.py:50-51 | a value in [0.51, 0.85] becomes its complement, any other stays, and the result is never in the band |
| Predictor.InvertIdempotent | venv/models.py:50-51 | inverting twice is inverting once |
| Predictor.Clamp | venv/models.py:53 | the result is at most 0.99 and at most the input, and it is one of the two |
| Predictor.ModelA | venv/models.py:26-53 | the result is at most 0.99, never in [0.51, 0.85], and exactly 0 when both snow amounts are under 0.2 inch |
| Predictor.ModelARange | venv/models.py:31-53 | with a sigmoid into (0, 1), the result lies in [0, 0.99] and is 0 exactly when the short circuit applies |
| Predictor.ColdTemperaturesAgree | venv/models.py:34 | any two temperatures at or below 10 F give the same result |
| Predictor.ZeroSecondLayer | venv/models.py:45-53 | with all second-layer weights zero, the result is the inverted and capped sigmoid of 0, whatever the inputs |
| Predictor.InvertedBandExample | venv/models.py:48-53 | a sigmoid of 0.6 lands in the band and gives 0.4 |

Members without a row are definitions whose properties the rows above
state: `ValidTime.DurationHours` (the `DurationOf…` lemmas),
`Alignment.TimedeltaHours` (`TimedeltaHoursIsFloor`),
`Alignment.DeltaSamples`, `RecordSamples` and `Stream` (`DeltaSamplesShape`,
`RecordSamplesShape`, `StreamAppend`), `Alignment.FirstRecords` and
`AlignRead` (`FirstRecordsShape`, `FirstRecordsWhenAllRead`,
`AlignReadWhenAllRead`), `Predictor.ShortCircuit`
(`ShortCircuitInMillimetres`) and `Predictor.Score` (`ColdTemperaturesAgree`,
`ZeroSecondLayer`). The rest are proof steps.

## Left out

- `venv/main.py` (the Flask routes and the refresh thread) is not part of this model. It is I/O and concurrency.
- HTTP and file I/O: `call_json`, `call_nws`, `nws_okay`, the `get_*` fetchers, the network-driven constructors of `Control` and `Location`, the settings and header readers, and the read of `model-a.json`. The predictor's parameters are passed in instead.
- Clocks and time zones: `datetime.now`, `Timestamp`, pytz `localize`, daylight saving, and the local mean time offset that `datetime.combine(..., tzinfo=est)` attaches. "Now" and the reference instant are integer parameters in one fixed zone, and every record's start is read in that zone.
- The module-global `forecast_center` and `refresh`. The reference instant is threaded as a parameter.
- `get_juneteenth`: it depends on the clock and is never called.
- Floating point: `np.exp`, IEEE rounding, infinities and NaN. Arithmetic is over exact reals, and the sigmoid is a parameter whose range (0, 1) is a hypothesis of the lemmas that need it.
- Predictor.WellShaped: a zero standard deviation, which numpy turns into an infinity or NaN, is excluded rather than modelled.
- Numeric.TruncateTowardZero: values outside the int32 range, where numpy's cast is undefined, are not modelled; integers are unbounded.
- Calendar.ParseDateTime: `strptime` also accepts one-digit months, days, hours, minutes and seconds, a space-padded day such as ` 5`, non-ASCII digits, and a lowercase `t` separator, since its pattern is matched without regard to case; the model accepts only the zero-padded ASCII form with `T` that the weather service sends.
- Calendar.FormatDateTime: years below 1000 are written with four digits; platform `strftime` may not pad them.
- A `null` forecast value. Python raises only when a record holding it contributes a row: in the division, or in the int32 cast. A null value in a record that contributes no row is accepted: a record of duration 0, one whose hours all fall before the reference while negatives are dropped, or one after the record that reaches hour 23. A forecast value here is always a number, so none of these inputs can be written.
- Forecast records and quantities with missing keys. A record without `validTime`, a record without `value` that contributes a row, and a quantity without `values` make Python raise `KeyError`, unhandled. A record without `value` that contributes no row is accepted. The model's records always carry both fields, and its quantities always carry their records, so none of these inputs can be written.
- Records.MakeIndividualObservation: only a number or `null` can be written as the value. Python's `int()` also takes other JSON values. A list or an object raises `TypeError`, which is caught, so the value becomes 0. `true` and `false` become 1 and 0. A string holding an integer literal, such as `"12"`, becomes that integer. Any other string raises `ValueError`, which is not caught. A missing `unitCode` or `value` key raises `KeyError`, unhandled. A present `"qualityControl": null` is stored as `None`, not as the empty text, since only a missing key falls back to `""`. A `"unitCode": null` is stored as `None` too. The unit and the flag here are always text, so neither `None` can be written.
- Records.ApparentTemperature: a missing `heatIndex` key when the wind chill is unusable is a precondition, since Python raises `KeyError` there.
- Records.MakeIndividualObservation: a name missing from the observations is a precondition, since Python raises `KeyError` there.
- Records.MakeIndividualForecast: a quantity name missing from the forecast is a precondition, since Python raises `KeyError` there.
- The aggregates `Forecast` and `Observations` beyond the fields the summary and the apparent temperature use. Each of their other fields is one more `MakeIndividualForecast` or `MakeIndividualObservation` of another key.
- Summary.MakeSummary: builds only the three fields the summary reads. In Python a malformed record in any other `Forecast` series, a missing key of `Forecast` or `Observations`, or a malformed observation `timestamp` also aborts the construction; the model does not raise for those. Its keys are preconditions, since Python raises `KeyError` there.
- The `dictify` serialisers, `predictions_dictify`, and the empty `FreezingLevel` and `DailyHydrometerologicalProducts`. They build dictionaries and hold no logic.
