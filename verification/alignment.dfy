/** The temporal alignment engine: `time_value_pairs_to_individual_forecast`.

    A forecast quantity arrives as records "start / duration / value". Each
    record is spread over the whole hours it covers, each hour is placed at
    its offset in whole hours from the reference instant (the forecast
    center), and the resulting `(offset, value)` rows are stored into an
    `int32` array. The walk stops at the first row whose offset reaches
    hour 23; when no row at all was produced, a zero-filled day is returned.

    The reference definition below reads the engine in three steps: the
    stream of every row the records would produce (`Stream`), the cut at the
    first row at or past hour 23 (`CutAtHorizon`), and the int32 cast or the
    zero-filled fallback (`Align`). `TimeValuePairsToForecast` is the loop
    with early returns the Python code runs, proved equal to that
    definition. */
module Alignment {
  import opened Results
  import opened Numeric
  import opened Calendar
  import opened ValidTime

  /** The walk stops right after appending a row whose offset is at least this. */
  const Horizon: int := 23

  /** A record after its `validTime` was read: start instant (seconds), hours
      covered, and the value. */
  datatype Entry = Entry(start: int, hours: nat, value: real)

  /** A row before it is stored: hour offset and exact value. */
  datatype Sample = Sample(offset: int, value: real)

  /** A row of the returned `int32` array. */
  datatype Pair = Pair(offset: int, value: int)

  /** A record as it arrives: `{"validTime": ..., "value": ...}`. */
  datatype RawValue = RawValue(validTime: string, value: real)

  datatype ForecastError = MalformedValidTime(validTime: string)

  /** Offset, in whole hours from `ref`, of the hour `delta` hours after
      `start`: the elapsed seconds divided by 3600, rounded down. */
  function HourOffset(start: int, ref: int, delta: int): (h: int)
    ensures h * 3600 <= start - ref + delta * 3600 < h * 3600 + 3600
  {
    (start - ref + delta * SecondsPerHour) / SecondsPerHour
  }

  /** Whole hours in a time difference of `elapsed` seconds, as the code
      reads them from a `timedelta`: `days * 24 + seconds // 3600`, where
      Python normalises `seconds` into [0, 86400) and lets `days` carry the
      sign. */
  function TimedeltaHours(elapsed: int): int {
    (elapsed / SecondsPerDay) * 24 + (elapsed % SecondsPerDay) / SecondsPerHour
  }

  /** Because the seconds part is never negative, the code's reading is
      floor division of the elapsed seconds by 3600: an instant half an hour
      before the reference is at hour -1. */
  lemma TimedeltaHoursIsFloor(start: int, ref: int, delta: int)
    ensures TimedeltaHours(start - ref + delta * SecondsPerHour) == HourOffset(start, ref, delta)
  {
    var elapsed := start - ref + delta * SecondsPerHour;
    var days := elapsed / SecondsPerDay;
    var rest := elapsed % SecondsPerDay;
    var h := rest / SecondsPerHour;
    assert elapsed == days * 24 * SecondsPerHour + h * SecondsPerHour + rest % SecondsPerHour;
    assert 0 <= rest % SecondsPerHour < SecondsPerHour;
  }

  lemma HalfHourBeforeIsHourMinusOne(ref: int)
    ensures TimedeltaHours(-1800) == -1
    ensures HourOffset(ref - 1800, ref, 0) == -1
  {
  }

  /** The hours of one record sit at consecutive offsets. */
  lemma HourOffsetShift(start: int, ref: int, delta: int)
    ensures HourOffset(start, ref, delta) == HourOffset(start, ref, 0) + delta
  {
    var x := start - ref;
    var q := x / SecondsPerHour;
    assert x == q * SecondsPerHour + x % SecondsPerHour;
    assert x + delta * SecondsPerHour == (q + delta) * SecondsPerHour + x % SecondsPerHour;
  }

  /** The value stored for each hour of a record: the record's value, or,
      when totals are divided, its share of the hours covered. */
  function SampleValue(e: Entry, divide: bool): (v: real)
    requires e.hours > 0
    ensures divide ==> v * e.hours as real == e.value
    ensures !divide ==> v == e.value
  {
    if divide then e.value / e.hours as real else e.value
  }

  /** Rows produced by the first `k` hours of a record, in hour order; an
      hour before the reference is skipped unless negatives are kept. */
  function DeltaSamples(e: Entry, ref: int, divide: bool, keepNeg: bool, k: nat): seq<Sample>
    requires k <= e.hours
    decreases k
  {
    if k == 0 then []
    else
      var off := HourOffset(e.start, ref, k - 1);
      DeltaSamples(e, ref, divide, keepNeg, k - 1)
        + (if keepNeg || off >= 0 then [Sample(off, SampleValue(e, divide))] else [])
  }

  /** Rows produced by all hours of a record. */
  function RecordSamples(e: Entry, ref: int, divide: bool, keepNeg: bool): seq<Sample> {
    DeltaSamples(e, ref, divide, keepNeg, e.hours)
  }

  /** Rows produced by the records in input order, with no cut-off. */
  function Stream(es: seq<Entry>, ref: int, divide: bool, keepNeg: bool): seq<Sample>
    decreases |es|
  {
    if |es| == 0 then []
    else Stream(es[..|es| - 1], ref, divide, keepNeg) + RecordSamples(es[|es| - 1], ref, divide, keepNeg)
  }

  /** The rows up to and including the first one whose offset reaches the
      horizon: a prefix of `s`, nonempty when `s` is, in which only the last
      row may reach the horizon, and which stops early only at such a row. */
  function CutAtHorizon(s: seq<Sample>): (r: seq<Sample>)
    ensures |r| <= |s| && r == s[..|r|]
    ensures |s| > 0 ==> |r| > 0
    ensures forall j :: 0 <= j < |r| - 1 ==> r[j].offset < Horizon
    ensures |r| < |s| ==> r[|r| - 1].offset >= Horizon
  {
    if |s| == 0 then []
    else if s[0].offset >= Horizon then [s[0]]
    else [s[0]] + CutAtHorizon(s[1..])
  }

  /** The int32 cast of every row: offsets kept, values truncated toward
      zero. */
  function CastAll(s: seq<Sample>): (r: seq<Pair>)
    ensures |r| == |s|
    ensures forall j :: 0 <= j < |s| ==> r[j].offset == s[j].offset
    ensures forall j :: 0 <= j < |s| ==> r[j].value == TruncateTowardZero(s[j].value)
  {
    seq(|s|, j requires 0 <= j < |s| => Pair(s[j].offset, TruncateTowardZero(s[j].value)))
  }

  /** The fallback when no row was produced: hours 0 to 23 (from -1 when
      negatives are kept), each with value 0. */
  function ZeroFill(keepNeg: bool): (r: seq<Pair>)
    ensures |r| == if keepNeg then 25 else 24
    ensures r[0].offset == (if keepNeg then -1 else 0) && r[|r| - 1].offset == Horizon
    ensures forall j :: 0 <= j < |r| - 1 ==> r[j + 1].offset == r[j].offset + 1
    ensures forall j :: 0 <= j < |r| ==> r[j].value == 0
  {
    var bottom := if keepNeg then -1 else 0;
    seq(24 - bottom, j => Pair(bottom + j, 0))
  }

  /** The array returned for already-read records: the cast of the rows of
      `Stream` up to the first one at or past hour 23, or the zero-filled
      day when there are no rows at all. It is never empty, and only its
      last row can be at or past hour 23. */
  function Align(es: seq<Entry>, ref: int, divide: bool, keepNeg: bool): (r: seq<Pair>)
    ensures |r| > 0
    ensures forall j :: 0 <= j < |r| - 1 ==> r[j].offset < Horizon
    ensures var s := Stream(es, ref, divide, keepNeg);
      |s| == 0 ==> r == ZeroFill(keepNeg)
    ensures var s := Stream(es, ref, divide, keepNeg);
      |s| > 0 ==>
        && |r| <= |s|
        && (forall j :: 0 <= j < |r| ==> r[j] == Pair(s[j].offset, TruncateTowardZero(s[j].value)))
        && (|r| < |s| ==> r[|r| - 1].offset >= Horizon)
  {
    var s := Stream(es, ref, divide, keepNeg);
    if |s| == 0 then ZeroFill(keepNeg) else CastAll(CutAtHorizon(s))
  }

  // ---------------------------------------------------------------------
  // Reading the records lazily

  /** Whether some hour of the record is at or past the horizon (its last
      hour is the latest). Such an hour is never skipped, so the walk stops
      inside this record. */
  predicate ReachesHorizon(e: Entry, ref: int) {
    e.hours > 0 && HourOffset(e.start, ref, e.hours - 1) >= Horizon
  }

  function Prepend(es: seq<Entry>, r: Result<seq<Entry>, ForecastError>): Result<seq<Entry>, ForecastError> {
    match r
    case Ok(rest) => Ok(es + rest)
    case Err(err) => Err(err)
  }

  /** Reading one record: its `validTime` parsed, or the error Python
      raises for it. */
  function ReadRecord(raw: RawValue): (r: Result<Entry, ForecastError>)
    ensures r.Ok? <==> ParseValidTime(raw.validTime).Some?
    ensures r.Err? ==> r.error == MalformedValidTime(raw.validTime)
    ensures r.Ok? ==>
      r.value.value == raw.value && ParseValidTime(raw.validTime) == Some((r.value.start, r.value.hours))
  {
    match ParseValidTime(raw.validTime)
    case None => Err(MalformedValidTime(raw.validTime))
    case Some(tv) => Ok(Entry(tv.0, tv.1, raw.value))
  }

  /** The records as read, when every record reads without error (every
      `validTime` is well formed). */
  function ReadEntries(raws: seq<RawValue>): (es: seq<Entry>)
    requires forall j :: 0 <= j < |raws| ==> ReadRecord(raws[j]).Ok?
    ensures |es| == |raws|
    ensures forall j :: 0 <= j < |raws| ==> ReadRecord(raws[j]) == Ok(es[j])
  {
    seq(|raws|, j requires 0 <= j < |raws| => ReadRecord(raws[j]).value)
  }

  /** What reading each record would give. Reading is pure, so the only
      effect of Python reading lazily is which error, if any, is raised;
      `FirstRecords` accounts for that. */
  function ReadAll(raws: seq<RawValue>): (outcomes: seq<Result<Entry, ForecastError>>)
    ensures |outcomes| == |raws|
    ensures forall j :: 0 <= j < |raws| ==> outcomes[j] == ReadRecord(raws[j])
  {
    seq(|raws|, j requires 0 <= j < |raws| => ReadRecord(raws[j]))
  }

  /** The records the walk actually reads: in order, up to and including the
      first one that reaches the horizon. The first malformed `validTime`
      among them makes the call fail (Python raises `ValueError`); records
      after the one reaching the horizon are never read. */
  function FirstRecords(outcomes: seq<Result<Entry, ForecastError>>, ref: int): Result<seq<Entry>, ForecastError>
    decreases |outcomes|
  {
    if |outcomes| == 0 then Ok([])
    else
      match outcomes[0]
      case Err(err) => Err(err)
      case Ok(e) =>
        if ReachesHorizon(e, ref) then Ok([e])
        else Prepend([e], FirstRecords(outcomes[1..], ref))
  }

  /** Every record before index `k` was read without error and stays
      before the horizon. */
  predicate ReadBefore(outcomes: seq<Result<Entry, ForecastError>>, k: nat, ref: int)
    requires k <= |outcomes|
  {
    forall j :: 0 <= j < k ==> outcomes[j].Ok? && !ReachesHorizon(outcomes[j].value, ref)
  }

  /** The engine's result given what reading each record gives. */
  function AlignRead(outcomes: seq<Result<Entry, ForecastError>>, ref: int, divide: bool, keepNeg: bool): Result<seq<Pair>, ForecastError> {
    match FirstRecords(outcomes, ref)
    case Ok(es) => Ok(Align(es, ref, divide, keepNeg))
    case Err(err) => Err(err)
  }

  /** What the lazy read gives: either the records in order up to and
      including the first one reaching the horizon (all of them when none
      does), or the error of the first malformed record, when no record
      before it reaches the horizon. */
  lemma {:induction false} FirstRecordsShape(outcomes: seq<Result<Entry, ForecastError>>, ref: int)
    ensures var r := FirstRecords(outcomes, ref);
      r.Ok? ==>
        && |r.value| <= |outcomes|
        && (forall j :: 0 <= j < |r.value| ==> outcomes[j] == Ok(r.value[j]))
        && (forall j :: 0 <= j < |r.value| - 1 ==> !ReachesHorizon(r.value[j], ref))
        && (|r.value| < |outcomes| ==> |r.value| > 0 && ReachesHorizon(r.value[|r.value| - 1], ref))
    ensures var r := FirstRecords(outcomes, ref);
      r.Err? ==> exists k :: 0 <= k < |outcomes| && outcomes[k] == Err(r.error) && ReadBefore(outcomes, k, ref)
    decreases |outcomes|
  {
    if |outcomes| > 0 && outcomes[0].Ok? && !ReachesHorizon(outcomes[0].value, ref) {
      var e := outcomes[0].value;
      var rest := outcomes[1..];
      FirstRecordsShape(rest, ref);
      match FirstRecords(rest, ref) {
        case Ok(es) =>
          assert FirstRecords(outcomes, ref) == Ok([e] + es);
          assert forall j :: 0 < j <= |es| ==> outcomes[j] == rest[j - 1];
        case Err(err) =>
          var k :| 0 <= k < |rest| && rest[k] == Err(err) && ReadBefore(rest, k, ref);
          assert outcomes[k + 1] == Err(err);
          assert forall j :: 0 < j <= k ==> outcomes[j] == rest[j - 1];
          assert ReadBefore(outcomes, k + 1, ref);
      }
    }
  }

  /** `time_value_pairs_to_individual_forecast(values, divide, keep_negative)`
      with the forecast center passed as `ref`. The array is never empty and
      only its last row can be at or past hour 23; a failure names the first
      malformed `validTime`, and every record before it is well formed and
      stays before the horizon. */
  function ForecastArray(raws: seq<RawValue>, ref: int, divide: bool, keepNeg: bool): (r: Result<seq<Pair>, ForecastError>)
    ensures r.Ok? ==> |r.value| > 0 && forall j :: 0 <= j < |r.value| - 1 ==> r.value[j].offset < Horizon
    ensures r.Err? ==>
      exists k :: 0 <= k < |raws| && ReadRecord(raws[k]) == Err(r.error) && ReadBefore(ReadAll(raws), k, ref)
  {
    var r := AlignRead(ReadAll(raws), ref, divide, keepNeg);
    if r.Err? then FirstFailure(raws, ref); r else r
  }

  /** A failed read is the failure of a record read, and every record
      before it was read without reaching the horizon. */
  lemma FirstFailure(raws: seq<RawValue>, ref: int)
    requires FirstRecords(ReadAll(raws), ref).Err?
    ensures var err := FirstRecords(ReadAll(raws), ref).error;
      exists k :: 0 <= k < |raws| && ReadRecord(raws[k]) == Err(err) && ReadBefore(ReadAll(raws), k, ref)
  {
    var outcomes := ReadAll(raws);
    var err := FirstRecords(outcomes, ref).error;
    FirstRecordsShape(outcomes, ref);
    var k :| 0 <= k < |outcomes| && outcomes[k] == Err(err) && ReadBefore(outcomes, k, ref);
    assert outcomes[k] == ReadRecord(raws[k]);
  }



  // ---------------------------------------------------------------------
  // Facts about the rows

  lemma {:induction false} StreamAppend(a: seq<Entry>, b: seq<Entry>, ref: int, divide: bool, keepNeg: bool)
    ensures Stream(a + b, ref, divide, keepNeg) == Stream(a, ref, divide, keepNeg) + Stream(b, ref, divide, keepNeg)
    decreases |b|
  {
    if |b| == 0 {
      assert a + b == a;
    } else {
      var b' := b[..|b| - 1];
      assert (a + b)[..|a + b| - 1] == a + b';
      assert (a + b)[|a + b| - 1] == b[|b| - 1];
      StreamAppend(a, b', ref, divide, keepNeg);
    }
  }

  /** The rows of records followed by one more. */
  lemma StreamSnoc(es: seq<Entry>, e: Entry, ref: int, divide: bool, keepNeg: bool)
    ensures Stream(es + [e], ref, divide, keepNeg) == Stream(es, ref, divide, keepNeg) + RecordSamples(e, ref, divide, keepNeg)
  {
    assert (es + [e])[..|es|] == es;
  }

  /** Shape of the rows of one record. With `base` the offset of its first
      hour, the hours before the reference form a prefix of the record's
      hours; `skip` of them are dropped (none when negatives are kept) and
      the rest appear at consecutive offsets, all with the same value. */
  lemma {:induction false} DeltaSamplesShape(e: Entry, ref: int, divide: bool, keepNeg: bool, k: nat)
    requires k <= e.hours
    ensures var base := HourOffset(e.start, ref, 0);
      var skip := if keepNeg || base >= 0 then 0 else if -base < k then -base else k;
      var r := DeltaSamples(e, ref, divide, keepNeg, k);
      && |r| == k - skip
      && forall j :: 0 <= j < |r| ==> r[j] == Sample(base + skip + j, SampleValue(e, divide))
    decreases k
  {
    if k > 0 {
      DeltaSamplesShape(e, ref, divide, keepNeg, k - 1);
      HourOffsetShift(e.start, ref, k - 1);
    }
  }

  lemma RecordSamplesShape(e: Entry, ref: int, divide: bool, keepNeg: bool)
    ensures var base := HourOffset(e.start, ref, 0);
      var skip := if keepNeg || base >= 0 then 0 else if -base < e.hours then -base else e.hours;
      var r := RecordSamples(e, ref, divide, keepNeg);
      && |r| == e.hours - skip
      && forall j :: 0 <= j < |r| ==> r[j] == Sample(base + skip + j, SampleValue(e, divide))
  {
    DeltaSamplesShape(e, ref, divide, keepNeg, e.hours);
  }

  /** The rows of the first `k` hours are a prefix of those of the first `m`. */
  lemma {:induction false} DeltaSamplesPrefix(e: Entry, ref: int, divide: bool, keepNeg: bool, k: nat, m: nat)
    requires k <= m <= e.hours
    ensures var a := DeltaSamples(e, ref, divide, keepNeg, k);
      var b := DeltaSamples(e, ref, divide, keepNeg, m);
      |a| <= |b| && b[..|a|] == a
    decreases m - k
  {
    if k < m {
      DeltaSamplesPrefix(e, ref, divide, keepNeg, k, m - 1);
    }
  }

  /** A record reaching the horizon ends with a row at or past it. */
  lemma ReachingRecordEndsAtHorizon(e: Entry, ref: int, divide: bool, keepNeg: bool)
    ensures var r := RecordSamples(e, ref, divide, keepNeg);
      ReachesHorizon(e, ref) ==> |r| > 0 && r[|r| - 1].offset >= Horizon
  {
  }

  /** Rows that all stay before the horizon are kept whole. */
  lemma CutBelowHorizon(s: seq<Sample>)
    requires forall j :: 0 <= j < |s| ==> s[j].offset < Horizon
    ensures CutAtHorizon(s) == s
  {
  }

  /** Once the rows so far include one at or past the horizon, whatever
      follows does not change the cut. */
  lemma {:induction false} CutIgnoresTail(a: seq<Sample>, b: seq<Sample>)
    requires exists j :: 0 <= j < |a| && a[j].offset >= Horizon
    ensures CutAtHorizon(a + b) == CutAtHorizon(a)
    decreases |a|
  {
    assert (a + b)[0] == a[0];
    if a[0].offset < Horizon {
      var j :| 0 <= j < |a| && a[j].offset >= Horizon;
      assert a[1..][j - 1] == a[j];
      assert (a + b)[1..] == a[1..] + b;
      CutIgnoresTail(a[1..], b);
    }
  }

  /** Records after one that reaches the horizon never affect the result. */
  lemma AlignIgnoresLaterRecords(a: seq<Entry>, b: seq<Entry>, ref: int, divide: bool, keepNeg: bool)
    requires |a| > 0 && ReachesHorizon(a[|a| - 1], ref)
    ensures Align(a + b, ref, divide, keepNeg) == Align(a, ref, divide, keepNeg)
  {
    StreamAppend(a, b, ref, divide, keepNeg);
    var last := RecordSamples(a[|a| - 1], ref, divide, keepNeg);
    ReachingRecordEndsAtHorizon(a[|a| - 1], ref, divide, keepNeg);
    var s := Stream(a, ref, divide, keepNeg);
    assert s == Stream(a[..|a| - 1], ref, divide, keepNeg) + last;
    assert s[|s| - 1] == last[|last| - 1];
    CutIgnoresTail(s, Stream(b, ref, divide, keepNeg));
  }

  /** What the lazy read returns when every record is well formed: the
      records up to the first one reaching the horizon, or all of them. */
  lemma {:induction false} FirstRecordsWhenAllRead(outcomes: seq<Result<Entry, ForecastError>>, es: seq<Entry>, ref: int)
    requires |es| == |outcomes|
    requires forall j :: 0 <= j < |outcomes| ==> outcomes[j] == Ok(es[j])
    ensures FirstRecords(outcomes, ref).Ok?
    ensures var p := FirstRecords(outcomes, ref).value;
      && |p| <= |es| && p == es[..|p|]
      && (|p| < |es| ==> |p| > 0 && ReachesHorizon(p[|p| - 1], ref))
    decreases |outcomes|
  {
    if |outcomes| > 0 && !ReachesHorizon(es[0], ref) {
      FirstRecordsWhenAllRead(outcomes[1..], es[1..], ref);
      assert es == [es[0]] + es[1..];
    }
  }

  /** When every `validTime` is well formed, the engine's result is the
      alignment of all the records: reading lazily loses nothing. */
  lemma AlignReadWhenAllRead(outcomes: seq<Result<Entry, ForecastError>>, es: seq<Entry>, ref: int, divide: bool, keepNeg: bool)
    requires |es| == |outcomes|
    requires forall j :: 0 <= j < |outcomes| ==> outcomes[j] == Ok(es[j])
    ensures AlignRead(outcomes, ref, divide, keepNeg) == Ok(Align(es, ref, divide, keepNeg))
  {
    FirstRecordsWhenAllRead(outcomes, es, ref);
    var p := FirstRecords(outcomes, ref).value;
    if |p| < |es| {
      assert es == p + es[|p|..];
      AlignIgnoresLaterRecords(p, es[|p|..], ref, divide, keepNeg);
    } else {
      assert p == es;
    }
  }

  // ---------------------------------------------------------------------
  // The loop the Python code runs

  lemma PrependAssoc(a: seq<Entry>, b: seq<Entry>, r: Result<seq<Entry>, ForecastError>)
    ensures Prepend(a, Prepend(b, r)) == Prepend(a + b, r)
  {
    match r
    case Ok(rest) =>
      assert a + (b + rest) == (a + b) + rest;
    case Err(_) =>
  }

  /** The rows of the records read so far followed by those of the first
      `k` hours of `e` are a prefix of the rows of the records read so far
      and `e`. */
  lemma StreamThroughHour(read: seq<Entry>, e: Entry, k: nat, ref: int, divide: bool, keepNeg: bool)
    requires k <= e.hours
    ensures var done := DeltaSamples(e, ref, divide, keepNeg, k);
      var all := RecordSamples(e, ref, divide, keepNeg);
      |done| <= |all| &&
      Stream(read + [e], ref, divide, keepNeg) == Stream(read, ref, divide, keepNeg) + done + all[|done|..]
  {
    var all := RecordSamples(e, ref, divide, keepNeg);
    var done := DeltaSamples(e, ref, divide, keepNeg, k);
    DeltaSamplesPrefix(e, ref, divide, keepNeg, k, e.hours);
    assert all == done + all[|done|..];
    StreamSnoc(read, e, ref, divide, keepNeg);
  }

  /** When the record at index `i` reaches the horizon, the records read are
      those before it and itself. */
  lemma FirstRecordsStopAt(outcomes: seq<Result<Entry, ForecastError>>, i: nat, read: seq<Entry>, e: Entry, ref: int)
    requires i < |outcomes| && outcomes[i] == Ok(e)
    requires FirstRecords(outcomes, ref) == Prepend(read, FirstRecords(outcomes[i..], ref))
    requires ReachesHorizon(e, ref)
    ensures FirstRecords(outcomes, ref) == Ok(read + [e])
  {
    assert outcomes[i..][0] == outcomes[i];
  }

  /** The loop's state when a row at or past the horizon has just been
      appended: the rows so far are the whole result. */
  lemma StopAtHorizon(outcomes: seq<Result<Entry, ForecastError>>, i: nat, read: seq<Entry>, e: Entry,
                      delta: nat, rows: seq<Sample>, ref: int, divide: bool, keepNeg: bool)
    requires i < |outcomes| && outcomes[i] == Ok(e)
    requires FirstRecords(outcomes, ref) == Prepend(read, FirstRecords(outcomes[i..], ref))
    requires delta < e.hours && HourOffset(e.start, ref, delta) >= Horizon
    requires rows == Stream(read, ref, divide, keepNeg) + DeltaSamples(e, ref, divide, keepNeg, delta + 1)
    requires |rows| > 0 && rows[|rows| - 1].offset >= Horizon
    requires forall j :: 0 <= j < |rows| - 1 ==> rows[j].offset < Horizon
    ensures AlignRead(outcomes, ref, divide, keepNeg) == Ok(CastAll(rows))
  {
    HourOffsetShift(e.start, ref, delta);
    HourOffsetShift(e.start, ref, e.hours - 1);
    FirstRecordsStopAt(outcomes, i, read, e, ref);
    StreamThroughHour(read, e, delta + 1, ref, divide, keepNeg);
    var all := RecordSamples(e, ref, divide, keepNeg);
    var tail := all[|DeltaSamples(e, ref, divide, keepNeg, delta + 1)|..];
    var s := Stream(read + [e], ref, divide, keepNeg);
    assert s == rows + tail;
    CutIgnoresTail(rows, tail);
    assert CutAtHorizon(s) == rows;
  }

  /** The loop's state before any record is read. */
  lemma StartWalk(outcomes: seq<Result<Entry, ForecastError>>, ref: int)
    ensures FirstRecords(outcomes, ref) == Prepend([], FirstRecords(outcomes[0..], ref))
  {
    assert outcomes[0..] == outcomes;
    match FirstRecords(outcomes, ref) {
      case Ok(es) => assert [] + es == es;
      case Err(_) =>
    }
  }

  /** The loop's state when the record at index `i` is malformed: the call
      fails with its error. */
  lemma FailAt(outcomes: seq<Result<Entry, ForecastError>>, i: nat, read: seq<Entry>, ref: int, divide: bool, keepNeg: bool)
    requires i < |outcomes| && outcomes[i].Err?
    requires FirstRecords(outcomes, ref) == Prepend(read, FirstRecords(outcomes[i..], ref))
    ensures AlignRead(outcomes, ref, divide, keepNeg) == Err(outcomes[i].error)
  {
    assert outcomes[i..][0] == outcomes[i];
  }

  /** The loop's state after all hours of a record were walked without
      reaching the horizon: the record joins those already read. */
  lemma FinishRecord(outcomes: seq<Result<Entry, ForecastError>>, i: nat, read: seq<Entry>, e: Entry,
                     rows: seq<Sample>, ref: int, divide: bool, keepNeg: bool)
    requires i < |outcomes| && outcomes[i] == Ok(e)
    requires FirstRecords(outcomes, ref) == Prepend(read, FirstRecords(outcomes[i..], ref))
    requires rows == Stream(read, ref, divide, keepNeg) + DeltaSamples(e, ref, divide, keepNeg, e.hours)
    requires forall j :: 0 <= j < |rows| ==> rows[j].offset < Horizon
    ensures rows == Stream(read + [e], ref, divide, keepNeg)
    ensures FirstRecords(outcomes, ref) == Prepend(read + [e], FirstRecords(outcomes[i + 1..], ref))
  {
    StreamSnoc(read, e, ref, divide, keepNeg);
    ReachingRecordEndsAtHorizon(e, ref, divide, keepNeg);
    var last := RecordSamples(e, ref, divide, keepNeg);
    assert rows == Stream(read, ref, divide, keepNeg) + last;
    assert |last| > 0 ==> rows[|rows| - 1] == last[|last| - 1];
    assert !ReachesHorizon(e, ref);
    assert outcomes[i..][0] == outcomes[i] && outcomes[i..][1..] == outcomes[i + 1..];
    PrependAssoc(read, [e], FirstRecords(outcomes[i + 1..], ref));
  }

  /** The loop's state after every record was walked without reaching the
      horizon: the rows, or the zero-filled day when there are none. */
  lemma FinishAll(outcomes: seq<Result<Entry, ForecastError>>, read: seq<Entry>, rows: seq<Sample>,
                  ref: int, divide: bool, keepNeg: bool)
    requires FirstRecords(outcomes, ref) == Prepend(read, FirstRecords(outcomes[|outcomes|..], ref))
    requires rows == Stream(read, ref, divide, keepNeg)
    requires forall j :: 0 <= j < |rows| ==> rows[j].offset < Horizon
    ensures |rows| > 0 ==> AlignRead(outcomes, ref, divide, keepNeg) == Ok(CastAll(rows))
    ensures |rows| == 0 ==> AlignRead(outcomes, ref, divide, keepNeg) == Ok(ZeroFill(keepNeg))
  {
    assert outcomes[|outcomes|..] == [];
    assert read + [] == read;
    assert CutAtHorizon(rows) == rows;
  }

  /** The inner loop of the engine: the hours of one record in order, each
      appended unless it is negative and negatives are skipped, stopping
      right after a row at or past the horizon. `stopped` tells whether it
      stopped, and `delta` is then the hour it stopped at. */
  method WalkRecord(e: Entry, ref: int, divide: bool, keepNeg: bool, before: seq<Sample>)
    returns (rows: seq<Sample>, stopped: bool, delta: nat)
    requires forall j :: 0 <= j < |before| ==> before[j].offset < Horizon
    ensures stopped ==>
      && delta < e.hours && HourOffset(e.start, ref, delta) >= Horizon
      && rows == before + DeltaSamples(e, ref, divide, keepNeg, delta + 1)
      && |rows| > 0 && rows[|rows| - 1].offset >= Horizon
      && (forall j :: 0 <= j < |rows| - 1 ==> rows[j].offset < Horizon)
    ensures !stopped ==>
      && rows == before + RecordSamples(e, ref, divide, keepNeg)
      && (forall j :: 0 <= j < |rows| ==> rows[j].offset < Horizon)
  {
    rows := before;
    delta := 0;
    while delta < e.hours
      invariant 0 <= delta <= e.hours
      invariant rows == before + DeltaSamples(e, ref, divide, keepNeg, delta)
      invariant forall j :: 0 <= j < |rows| ==> rows[j].offset < Horizon
    {
      var hours := HourOffset(e.start, ref, delta);
      if keepNeg || hours >= 0 {
        var value := if divide then e.value / e.hours as real else e.value;
        rows := rows + [Sample(hours, value)];
        if hours >= Horizon {
          return rows, true, delta;
        }
      }
      delta := delta + 1;
    }
    return rows, false, delta;
  }

  /** `time_value_pairs_to_individual_forecast`, as written: records in
      input order, hours of each record in order, negative offsets skipped
      unless kept, a return as soon as a row at or past hour 23 has been
      appended, and the zero-filled day when nothing was appended. */
  method TimeValuePairsToForecast(raws: seq<RawValue>, ref: int, divide: bool, keepNeg: bool)
    returns (r: Result<seq<Pair>, ForecastError>)
    ensures r == ForecastArray(raws, ref, divide, keepNeg)
  {
    ghost var outcomes := ReadAll(raws);
    var rows: seq<Sample> := [];
    ghost var read: seq<Entry> := [];
    var i := 0;
    StartWalk(outcomes, ref);
    while i < |raws|
      invariant 0 <= i <= |raws|
      invariant rows == Stream(read, ref, divide, keepNeg)
      invariant forall j :: 0 <= j < |rows| ==> rows[j].offset < Horizon
      invariant FirstRecords(outcomes, ref) == Prepend(read, FirstRecords(outcomes[i..], ref))
    {
      var outcome := ReadRecord(raws[i]);
      if outcome.Err? {
        FailAt(outcomes, i, read, ref, divide, keepNeg);
        return Err(outcome.error);
      }
      var e := outcome.value;
      var stopped, delta;
      rows, stopped, delta := WalkRecord(e, ref, divide, keepNeg, rows);
      if stopped {
        StopAtHorizon(outcomes, i, read, e, delta, rows, ref, divide, keepNeg);
        return Ok(CastAll(rows));
      }
      FinishRecord(outcomes, i, read, e, rows, ref, divide, keepNeg);
      read := read + [e];
      i := i + 1;
    }
    FinishAll(outcomes, read, rows, ref, divide, keepNeg);
    if |rows| > 0 {
      return Ok(CastAll(rows));
    }
    return Ok(ZeroFill(keepNeg));
  }

  // ---------------------------------------------------------------------
  // Worked cases

  lemma StreamOfOne(a: Entry, ref: int, divide: bool, keepNeg: bool)
    ensures Stream([a], ref, divide, keepNeg) == RecordSamples(a, ref, divide, keepNeg)
  {
    assert [a][..0] == [];
  }

  lemma StreamOfTwo(a: Entry, b: Entry, ref: int, divide: bool, keepNeg: bool)
    ensures Stream([a, b], ref, divide, keepNeg) == RecordSamples(a, ref, divide, keepNeg) + RecordSamples(b, ref, divide, keepNeg)
  {
    StreamOfOne(a, ref, divide, keepNeg);
    assert [a, b][..1] == [a];
  }

  /** A 3-hour total of 30 starting at the reference, divided: 10 per hour. */
  lemma SpreadTotalExample()
    ensures Align([Entry(0, 3, 30.0)], 0, true, false) == [Pair(0, 10), Pair(1, 10), Pair(2, 10)]
  {
    var e := Entry(0, 3, 30.0);
    StreamOfOne(e, 0, true, false);
    SpreadTotalRows();
    var rows := [Sample(0, 10.0), Sample(1, 10.0), Sample(2, 10.0)];
    assert CutAtHorizon(rows) == rows;
    assert TruncateTowardZero(10.0) == 10;
  }

  lemma SpreadTotalRows()
    ensures RecordSamples(Entry(0, 3, 30.0), 0, true, false) == [Sample(0, 10.0), Sample(1, 10.0), Sample(2, 10.0)]
  {
    var e := Entry(0, 3, 30.0);
    assert SampleValue(e, true) == 10.0;
    assert DeltaSamples(e, 0, true, false, 1) == [Sample(0, 10.0)];
    assert DeltaSamples(e, 0, true, false, 2) == [Sample(0, 10.0), Sample(1, 10.0)];
  }

  /** Records are taken in input order, not sorted: a record at hour 23
      listed first hides the one at hour 0 listed after it. */
  lemma InputOrderExample()
    ensures Align([Entry(23 * SecondsPerHour, 1, 5.0), Entry(0, 1, 7.0)], 0, false, false) == [Pair(23, 5)]
    ensures Align([Entry(0, 1, 7.0), Entry(23 * SecondsPerHour, 1, 5.0)], 0, false, false) == [Pair(0, 7), Pair(23, 5)]
  {
    var late := Entry(23 * SecondsPerHour, 1, 5.0);
    var early := Entry(0, 1, 7.0);
    StreamOfTwo(late, early, 0, false, false);
    StreamOfTwo(early, late, 0, false, false);
    assert RecordSamples(late, 0, false, false) == [Sample(23, 5.0)];
    assert RecordSamples(early, 0, false, false) == [Sample(0, 7.0)];
    assert CutAtHorizon([Sample(23, 5.0), Sample(0, 7.0)]) == [Sample(23, 5.0)];
    assert CutAtHorizon([Sample(0, 7.0), Sample(23, 5.0)]) == [Sample(0, 7.0), Sample(23, 5.0)];
  }

  /** Hours that no record covers are missing, not zero, and the row that
      ends the walk can be well past hour 23. */
  lemma GapExample()
    ensures Align([Entry(0, 1, 1.0), Entry(30 * SecondsPerHour, 1, 2.0)], 0, false, false) == [Pair(0, 1), Pair(30, 2)]
  {
    var a := Entry(0, 1, 1.0);
    var b := Entry(30 * SecondsPerHour, 1, 2.0);
    StreamOfTwo(a, b, 0, false, false);
    assert RecordSamples(a, 0, false, false) == [Sample(0, 1.0)];
    assert RecordSamples(b, 0, false, false) == [Sample(30, 2.0)];
    assert CutAtHorizon([Sample(0, 1.0), Sample(30, 2.0)]) == [Sample(0, 1.0), Sample(30, 2.0)];
  }

  /** A record entirely before the reference: skipped, so the day is
      zero-filled, unless negatives are kept. */
  lemma NegativeOnlyExample()
    ensures Align([Entry(-2 * SecondsPerHour, 1, 4.0)], 0, false, false) == ZeroFill(false)
    ensures Align([Entry(-2 * SecondsPerHour, 1, 4.0)], 0, false, true) == [Pair(-2, 4)]
  {
    var e := Entry(-2 * SecondsPerHour, 1, 4.0);
    StreamOfOne(e, 0, false, false);
    StreamOfOne(e, 0, false, true);
    assert RecordSamples(e, 0, false, false) == [];
    assert RecordSamples(e, 0, false, true) == [Sample(-2, 4.0)];
  }

  /** The int32 cast truncates toward zero: -7 over 2 hours is -3 per hour. */
  lemma TruncationExample()
    ensures Align([Entry(0, 2, -7.0)], 0, true, false) == [Pair(0, -3), Pair(1, -3)]
  {
    var e := Entry(0, 2, -7.0);
    StreamOfOne(e, 0, true, false);
    assert RecordSamples(e, 0, true, false) == [Sample(0, -3.5), Sample(1, -3.5)];
    assert TruncateTowardZero(-3.5) == -3;
  }

  /** A malformed record after one that reaches hour 23 is never read; one
      before it fails the call. */
  lemma LazyReadExample()
    ensures AlignRead([Ok(Entry(23 * SecondsPerHour, 1, 5.0)), Err(MalformedValidTime("x"))], 0, false, false)
      == Ok([Pair(23, 5)])
    ensures AlignRead([Ok(Entry(0, 1, 5.0)), Err(MalformedValidTime("x"))], 0, false, false)
      == Err(MalformedValidTime("x"))
  {
    var late := Entry(23 * SecondsPerHour, 1, 5.0);
    StreamOfOne(late, 0, false, false);
    assert RecordSamples(late, 0, false, false) == [Sample(23, 5.0)];
    assert ReachesHorizon(late, 0);
    var first := [Ok(late), Err(MalformedValidTime("x"))];
    assert FirstRecords(first, 0) == Ok([late]);
    assert CutAtHorizon([Sample(23, 5.0)]) == [Sample(23, 5.0)];
    assert Align([late], 0, false, false) == [Pair(23, 5)];
    var early := Entry(0, 1, 5.0);
    var second := [Ok(early), Err(MalformedValidTime("x"))];
    assert !ReachesHorizon(early, 0);
    assert second[1..] == [Err(MalformedValidTime("x"))];
    assert FirstRecords(second[1..], 0) == Err(MalformedValidTime("x"));
  }
}
