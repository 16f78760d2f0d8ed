/** Wall-clock instants in the one fixed zone the model works in.

    An instant is a whole number of seconds; second 0 is midnight at the
    start of 0001-01-01 of the proleptic Gregorian calendar (Python's
    ordinal day 1). The zone's UTC offset, daylight saving and pytz's
    `localize` are not modelled: every instant the model compares is read
    in this one zone. */
module Calendar {
  import opened Results
  import opened Text

  const SecondsPerHour: int := 3600
  const SecondsPerDay: int := 86400
  /** The forecast center is 06:00:00 local time. */
  const CenterSecondOfDay: int := 6 * 3600

  datatype DateTime = DateTime(year: int, month: int, day: int, hour: int, minute: int, second: int)

  predicate IsLeapYear(y: int) {
    y % 4 == 0 && (y % 100 != 0 || y % 400 == 0)
  }

  function DaysInMonth(y: int, m: int): (n: int)
    requires 1 <= m <= 12
    ensures 28 <= n <= 31
  {
    if m == 2 then (if IsLeapYear(y) then 29 else 28)
    else if m == 4 || m == 6 || m == 9 || m == 11 then 30
    else 31
  }

  /** The fields a `datetime` accepts: years 1 to 9999, real calendar days,
      and times of day with seconds 0 to 59. */
  predicate Valid(d: DateTime) {
    && 1 <= d.year <= 9999
    && 1 <= d.month <= 12
    && 1 <= d.day <= DaysInMonth(d.year, d.month)
    && 0 <= d.hour < 24
    && 0 <= d.minute < 60
    && 0 <= d.second < 60
  }

  function DaysBeforeYear(y: int): int
    requires y >= 1
  {
    var p := y - 1;
    365 * p + p / 4 - p / 100 + p / 400
  }

  function DaysBeforeMonth(y: int, m: int): int
    requires 1 <= m <= 12
  {
    if m == 1 then 0 else DaysBeforeMonth(y, m - 1) + DaysInMonth(y, m - 1)
  }

  /** Days from 0001-01-01 to the date of `d`. */
  function DayNumber(d: DateTime): int
    requires Valid(d)
  {
    DaysBeforeYear(d.year) + DaysBeforeMonth(d.year, d.month) + d.day - 1
  }

  function SecondOfDay(d: DateTime): (s: int)
    requires Valid(d)
    ensures 0 <= s < SecondsPerDay
  {
    d.hour * SecondsPerHour + d.minute * 60 + d.second
  }

  /** The instant `d` names. Its day and its time of day can be read back
      from it by floor division and remainder. */
  function Instant(d: DateTime): (t: int)
    requires Valid(d)
    ensures t / SecondsPerDay == DayNumber(d)
    ensures t % SecondsPerDay == SecondOfDay(d)
  {
    DayNumber(d) * SecondsPerDay + SecondOfDay(d)
  }

  /** The same calendar date at 06:00:00. */
  function AtSix(d: DateTime): (e: DateTime)
    requires Valid(d)
    ensures Valid(e) && DayNumber(e) == DayNumber(d) && SecondOfDay(e) == CenterSecondOfDay
  {
    d.(hour := 6, minute := 0, second := 0)
  }

  // ---------------------------------------------------------------------
  // strptime(s[:19], "%Y-%m-%dT%H:%M:%S")

  /** Python's `s[:19]`. */
  function First19(s: string): (t: string)
    ensures |t| == if |s| < 19 then |s| else 19
    ensures t == s[..|t|]
  {
    if |s| <= 19 then s else s[..19]
  }

  /** `YYYY-MM-DDTHH:MM:SS` with every numeric field zero-padded. */
  predicate Canonical(t: string) {
    && |t| == 19
    && AllDigits(t[0..4]) && t[4] == '-'
    && AllDigits(t[5..7]) && t[7] == '-'
    && AllDigits(t[8..10]) && t[10] == 'T'
    && AllDigits(t[11..13]) && t[13] == ':'
    && AllDigits(t[14..16]) && t[16] == ':'
    && AllDigits(t[17..19])
  }

  function Fields(t: string): DateTime
    requires Canonical(t)
  {
    DateTime(DecimalValue(t[0..4]), DecimalValue(t[5..7]), DecimalValue(t[8..10]),
             DecimalValue(t[11..13]), DecimalValue(t[14..16]), DecimalValue(t[17..19]))
  }

  /** `datetime.strptime(s[:19], "%Y-%m-%dT%H:%M:%S")`; `None` where Python
      raises `ValueError`. Whatever follows the 19th character (fractions of
      a second, the UTC offset) is ignored. A successful parse is exactly the
      text `FormatDateTime` writes for the parsed value. */
  function ParseDateTime(s: string): (r: Option<DateTime>)
    ensures r.Some? ==> Valid(r.value) && FormatDateTime(r.value) == First19(s)
  {
    var t := First19(s);
    if Canonical(t) && Valid(Fields(t)) then
      FormatOfFields(t);
      Some(Fields(t))
    else None
  }

  /** A canonical text is the formatting of its own fields. */
  lemma FormatOfFields(t: string)
    requires Canonical(t) && Valid(Fields(t))
    ensures FormatDateTime(Fields(t)) == t
  {
    PaddedOfDecimal(t[0..4]);
    PaddedOfDecimal(t[5..7]);
    PaddedOfDecimal(t[8..10]);
    PaddedOfDecimal(t[11..13]);
    PaddedOfDecimal(t[14..16]);
    PaddedOfDecimal(t[17..19]);
    LayoutOfPieces(t);
  }

  /** The text `y-mo-daTh:mi:se` laid out from six pieces of the widths the
      format uses. */
  function Layout(y: string, mo: string, da: string, h: string, mi: string, se: string): (t: string)
    ensures |t| == |y| + |mo| + |da| + |h| + |mi| + |se| + 5
  {
    y + "-" + mo + "-" + da + "T" + h + ":" + mi + ":" + se
  }

  /** Where each piece sits in the layout. */
  lemma PiecesOfLayout(y: string, mo: string, da: string, h: string, mi: string, se: string)
    requires |y| == 4 && |mo| == 2 && |da| == 2 && |h| == 2 && |mi| == 2 && |se| == 2
    ensures var t := Layout(y, mo, da, h, mi, se);
      && |t| == 19
      && t[0..4] == y && t[4] == '-' && t[5..7] == mo && t[7] == '-' && t[8..10] == da && t[10] == 'T'
      && t[11..13] == h && t[13] == ':' && t[14..16] == mi && t[16] == ':' && t[17..19] == se
  {
  }

  /** A 19-character text with the separators in place is the layout of its
      own pieces. */
  lemma LayoutOfPieces(t: string)
    requires |t| == 19 && t[4] == '-' && t[7] == '-' && t[10] == 'T' && t[13] == ':' && t[16] == ':'
    ensures t == Layout(t[0..4], t[5..7], t[8..10], t[11..13], t[14..16], t[17..19])
  {
    var l := Layout(t[0..4], t[5..7], t[8..10], t[11..13], t[14..16], t[17..19]);
    PiecesOfLayout(t[0..4], t[5..7], t[8..10], t[11..13], t[14..16], t[17..19]);
    forall j | 0 <= j < 19
      ensures l[j] == t[j]
    {
      if j < 4 { assert l[0..4][j] == l[j]; }
      else if 5 <= j < 7 { assert l[5..7][j - 5] == l[j]; }
      else if 8 <= j < 10 { assert l[8..10][j - 8] == l[j]; }
      else if 11 <= j < 13 { assert l[11..13][j - 11] == l[j]; }
      else if 14 <= j < 16 { assert l[14..16][j - 14] == l[j]; }
      else if 17 <= j { assert l[17..19][j - 17] == l[j]; }
    }
  }

  /** Digits of the year field, and of every other field. */
  const YearWidth: nat := 4
  const FieldWidth: nat := 2

  lemma WidthBounds()
    ensures Pow10(YearWidth) == 10000 && Pow10(FieldWidth) == 100
  {
    assert Pow10(4) == 10000;
  }

  /** `strftime("%Y-%m-%dT%H:%M:%S")` with four-digit, zero-padded years. */
  function FormatDateTime(d: DateTime): (s: string)
    requires Valid(d)
    ensures |s| == 19
  {
    WidthBounds();
    var y := Padded(d.year, YearWidth);
    var mo := Padded(d.month, FieldWidth);
    var da := Padded(d.day, FieldWidth);
    var h := Padded(d.hour, FieldWidth);
    var mi := Padded(d.minute, FieldWidth);
    var se := Padded(d.second, FieldWidth);
    assert |y| + |mo| + |da| + |h| + |mi| + |se| == 14;
    Layout(y, mo, da, h, mi, se)
  }

  /** Reading back a formatted date-time, whatever text follows it, gives the
      same fields. */
  lemma ParseFormatted(d: DateTime, rest: string)
    requires Valid(d)
    ensures ParseDateTime(FormatDateTime(d) + rest) == Some(d)
  {
    var t := FormatDateTime(d);
    assert First19(t + rest) == t;
    FieldsOfFormat(d);
  }

  /** A formatted date-time is canonical and its fields are the date-time's. */
  lemma FieldsOfFormat(d: DateTime)
    requires Valid(d)
    ensures Canonical(FormatDateTime(d)) && Fields(FormatDateTime(d)) == d
  {
    WidthBounds();
    PaddedValue(d.year, YearWidth);
    PaddedValue(d.month, FieldWidth);
    PaddedValue(d.day, FieldWidth);
    PaddedValue(d.hour, FieldWidth);
    PaddedValue(d.minute, FieldWidth);
    PaddedValue(d.second, FieldWidth);
    PiecesOfLayout(Padded(d.year, YearWidth), Padded(d.month, FieldWidth), Padded(d.day, FieldWidth),
                   Padded(d.hour, FieldWidth), Padded(d.minute, FieldWidth), Padded(d.second, FieldWidth));
  }

  /** A canonical text holds digits and the separators `-`, `T` and `:`
      only; in particular no `/`. */
  lemma CanonicalHasNoSlash(t: string)
    requires Canonical(t)
    ensures forall j :: 0 <= j < |t| ==> t[j] != '/'
  {
    forall j | 0 <= j < |t|
      ensures t[j] != '/'
    {
      if j < 4 { assert t[0..4][j] == t[j]; }
      else if 5 <= j < 7 { assert t[5..7][j - 5] == t[j]; }
      else if 8 <= j < 10 { assert t[8..10][j - 8] == t[j]; }
      else if 11 <= j < 13 { assert t[11..13][j - 11] == t[j]; }
      else if 14 <= j < 16 { assert t[14..16][j - 14] == t[j]; }
      else if 17 <= j { assert t[17..19][j - 17] == t[j]; }
    }
  }

  /** `nws_datetime_str_to_datetime`: the instant a NWS timestamp names. */
  function ParseInstant(s: string): (r: Option<int>)
    ensures r.Some? <==> ParseDateTime(s).Some?
    ensures r.Some? ==> r.value == Instant(ParseDateTime(s).value)
  {
    match ParseDateTime(s)
    case None => None
    case Some(d) => Some(Instant(d))
  }

  // ---------------------------------------------------------------------
  // format_datetime

  /** The `+HHMM` text of `%z` with a colon inserted after its first three
      characters (Python slicing `z[:3]` and `z[3:]`, which clamp to the
      string's length). Deleting that colon gives `z` back. */
  function ColonOffset(z: string): (r: string)
    ensures var k := if |z| < 3 then |z| else 3;
      |r| == |z| + 1 && r[k] == ':' && r[..k] + r[k + 1..] == z
  {
    var k := if |z| < 3 then |z| else 3;
    z[..k] + ":" + z[k..]
  }

  /** `format_datetime`: the date-time followed by its colon-separated
      UTC offset. */
  function FormatTimestamp(d: DateTime, z: string): (s: string)
    requires Valid(d)
    ensures |s| == 20 + |z| && s[19..] == ColonOffset(z)
  {
    FormatDateTime(d) + ColonOffset(z)
  }

  /** Slices of a text read as slices of its suffix from `n`. */
  lemma SuffixSlices(s: string, n: nat, k: nat)
    requires n + k < |s|
    ensures s[n + k] == s[n..][k]
    ensures s[n..n + k] == s[n..][..k] && s[n + k + 1..] == s[n..][k + 1..]
  {
  }

  /** After the date-time comes the offset with a colon after its first
      three characters (all of it when shorter); deleting that colon gives
      the offset back. */
  lemma TimestampOffset(d: DateTime, z: string)
    requires Valid(d)
    ensures var s := FormatTimestamp(d, z);
      var k := if |z| < 3 then |z| else 3;
      s[19 + k] == ':' && s[19..19 + k] + s[20 + k..] == z
  {
    var c := FormatTimestamp(d, z)[19..];
    var k := if |z| < 3 then |z| else 3;
    assert c[k] == ':' && c[..k] + c[k + 1..] == z;
    SuffixSlices(FormatTimestamp(d, z), 19, k);
  }


  /** A serialised timestamp reads back, through the NWS timestamp parser, as
      the date-time it was made from. */
  lemma TimestampReadsBack(d: DateTime, z: string)
    requires Valid(d)
    ensures ParseDateTime(FormatTimestamp(d, z)) == Some(d)
  {
    ParseFormatted(d, ColonOffset(z));
  }

  lemma ColonOffsetExample()
    ensures ColonOffset("-0500") == "-05:00"
  {
  }

  // ---------------------------------------------------------------------
  // set_forecast_center

  /** A 06:00:00 instant of some day. */
  predicate IsCenterInstant(t: int) {
    t % SecondsPerDay == CenterSecondOfDay
  }

  /** `set_forecast_center`: 06:00 on the day of `now`, unless `now` is
      already later than that, in which case 06:00 on the next day. The
      result is the earliest 06:00 instant at or after `now`, so it is less
      than a day away. */
  function ForecastCenter(now: int): (c: int)
    ensures IsCenterInstant(c)
    ensures now <= c < now + SecondsPerDay
    ensures forall t :: IsCenterInstant(t) && now <= t ==> c <= t
  {
    var test := (now / SecondsPerDay) * SecondsPerDay + CenterSecondOfDay;
    if now > test then test + SecondsPerDay else test
  }

  /** In calendar terms: a time of day up to and including 06:00:00 gives
      that date's 06:00; a later one gives the next day's 06:00. */
  lemma ForecastCenterOfDate(d: DateTime)
    requires Valid(d)
    ensures SecondOfDay(d) <= CenterSecondOfDay ==> ForecastCenter(Instant(d)) == Instant(AtSix(d))
    ensures SecondOfDay(d) > CenterSecondOfDay ==> ForecastCenter(Instant(d)) == Instant(AtSix(d)) + SecondsPerDay
  {
  }

  /** At exactly 06:00:00 the comparison `now > test` is false, so the
      center is `now` itself, not the next day's 06:00. */
  lemma ForecastCenterAtSix(now: int)
    requires IsCenterInstant(now)
    ensures ForecastCenter(now) == now
  {
  }

  lemma ForecastCenterExamples()
    ensures ForecastCenter(Instant(DateTime(2024, 1, 15, 5, 0, 0))) == Instant(DateTime(2024, 1, 15, 6, 0, 0))
    ensures ForecastCenter(Instant(DateTime(2024, 1, 15, 7, 0, 0))) == Instant(DateTime(2024, 1, 16, 6, 0, 0))
    ensures ForecastCenter(Instant(DateTime(2024, 1, 15, 6, 0, 0))) == Instant(DateTime(2024, 1, 15, 6, 0, 0))
  {
    ForecastCenterOfDate(DateTime(2024, 1, 15, 5, 0, 0));
    ForecastCenterOfDate(DateTime(2024, 1, 15, 7, 0, 0));
  }
}
