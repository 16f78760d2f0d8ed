/** `ThreeNumberSummary`: the three numbers fed to the predictor, read from
    the first eight rows of two forecast arrays and from one observation,
    and the prediction made from them. */
module Summary {
  import opened Results
  import opened Numeric
  import opened Calendar
  import opened Alignment
  import opened Records
  import opened Predictor

  /** How many leading rows of a forecast array the summary reads. */
  const WindowRows: nat := 8

  datatype ThreeNumberSummary = ThreeNumberSummary(
    quantitativePrecipitation: IndividualForecast,
    precipitationLast6Hours: IndividualObservation,
    temperature: IndividualForecast)

  /** `array[:8]`: the first eight rows, or all of them when there are fewer. */
  function Window(rows: seq<Pair>): (w: seq<Pair>)
    ensures |w| == if |rows| < WindowRows then |rows| else WindowRows
    ensures w == rows[..|w|]
  {
    if |rows| < WindowRows then rows else rows[..WindowRows]
  }

  /** The sum of the value column. */
  function ColumnSum(rows: seq<Pair>): int
    decreases |rows|
  {
    if |rows| == 0 then 0 else ColumnSum(rows[..|rows| - 1]) + rows[|rows| - 1].value
  }

  /** Bounds on every value bound the sum. */
  lemma {:induction false} ColumnSumBounds(rows: seq<Pair>, lo: int, hi: int)
    requires forall j :: 0 <= j < |rows| ==> lo <= rows[j].value <= hi
    ensures |rows| * lo <= ColumnSum(rows) <= |rows| * hi
    decreases |rows|
  {
    if |rows| > 0 {
      ColumnSumBounds(rows[..|rows| - 1], lo, hi);
    }
  }

  /** `model_a_data_today`: snowfall is the sum of the first (up to) eight
      precipitation values, snow on the ground is the six-hour precipitation
      observation, and temperature is the mean of the first (up to) eight
      temperature values. Rows are taken by position, whatever their
      offsets. */
  function ModelADataToday(s: ThreeNumberSummary): (r: (real, real, real))
    requires |s.temperature.rows| > 0
    ensures r.0 == ColumnSum(Window(s.quantitativePrecipitation.rows)) as real
    ensures r.1 == s.precipitationLast6Hours.value as real
    ensures var w := Window(s.temperature.rows);
      r.2 * |w| as real == ColumnSum(w) as real
  {
    var qpf := Window(s.quantitativePrecipitation.rows);
    var temp := Window(s.temperature.rows);
    (ColumnSum(qpf) as real, s.precipitationLast6Hours.value as real, ColumnSum(temp) as real / |temp| as real)
  }

  /** The temperature is a mean: it lies between the least and the greatest
      of the values averaged. */
  lemma TemperatureWithinWindow(s: ThreeNumberSummary, lo: int, hi: int)
    requires |s.temperature.rows| > 0
    requires forall j :: 0 <= j < |Window(s.temperature.rows)| ==> lo <= Window(s.temperature.rows)[j].value <= hi
    ensures lo as real <= ModelADataToday(s).2 <= hi as real
  {
    var w := Window(s.temperature.rows);
    ColumnSumBounds(w, lo, hi);
    MeanBetween(ColumnSum(w), |w|, ModelADataToday(s).2, lo, hi);
  }

  /** A mean of whole numbers lies between bounds on their sum. */
  lemma MeanBetween(sum: int, n: int, mean: real, lo: int, hi: int)
    requires n > 0 && mean * n as real == sum as real
    requires n * lo <= sum <= n * hi
    ensures lo as real <= mean <= hi as real
  {
    assert (n * lo) as real == n as real * lo as real;
    assert (n * hi) as real == n as real * hi as real;
  }

  /** The window is positional. A temperature series (negatives dropped)
      whose first record starts three hours after the reference has its
      first row at hour 3, so the eight rows averaged are hours 3 to 10. */
  lemma WindowIsPositional()
    ensures var w := Window(Align([Entry(3 * SecondsPerHour, 10, 20.0)], 0, false, false));
      && |w| == 8
      && (forall j :: 0 <= j < 8 ==> w[j].offset == 3 + j)
      && ColumnSum(w) == 160
  {
    var a := Align([Entry(3 * SecondsPerHour, 10, 20.0)], 0, false, false);
    LateStartRows();
    var w := Window(a);
    assert forall j :: 0 <= j < 8 ==> w[j] == a[j];
    ColumnSumBounds(w, 20, 20);
  }

  /** The array of one 10-hour record of 20 starting at hour 3. */
  lemma LateStartRows()
    ensures var a := Align([Entry(3 * SecondsPerHour, 10, 20.0)], 0, false, false);
      |a| == 10 && forall j :: 0 <= j < 10 ==> a[j] == Pair(3 + j, 20)
  {
    var e := Entry(3 * SecondsPerHour, 10, 20.0);
    StreamOfOne(e, 0, false, false);
    RecordSamplesShape(e, 0, false, false);
    var s := Stream([e], 0, false, false);
    assert |s| == 10 && forall j :: 0 <= j < 10 ==> s[j] == Sample(3 + j, 20.0);
    CutBelowHorizon(s);
    assert TruncateTowardZero(20.0) == 20;
  }


  /** `ThreeNumberSummary(forecast, observations)` from the JSON the program
      reads: the temperature series with the default flags, the
      precipitation series divided over the hours of each record, and the
      six-hour precipitation observation. The temperature series is built
      first, so its error is the one raised when both fail. */
  function MakeSummary(forecast: map<string, QuantityJson>, observations: map<string, ObservationJson>, ref: int)
    : (r: Result<ThreeNumberSummary, ForecastError>)
    requires "temperature" in forecast && "quantitativePrecipitation" in forecast
    requires "precipitationLast6Hours" in observations
    ensures var t := MakeIndividualForecast("temperature", forecast, ref, false, false);
      var q := MakeIndividualForecast("quantitativePrecipitation", forecast, ref, true, false);
      && (r.Ok? <==> t.Ok? && q.Ok?)
      && (t.Err? ==> r == Err(t.error))
      && (t.Ok? && q.Err? ==> r == Err(q.error))
      && (r.Ok? ==> r.value.temperature == t.value && r.value.quantitativePrecipitation == q.value)
    ensures r.Ok? ==>
      && |r.value.temperature.rows| > 0
      && !r.value.temperature.divided && !r.value.temperature.keptNegative
      && r.value.quantitativePrecipitation.divided && !r.value.quantitativePrecipitation.keptNegative
      && r.value.precipitationLast6Hours == MakeIndividualObservation("precipitationLast6Hours", observations)
  {
    match MakeIndividualForecast("temperature", forecast, ref, false, false)
    case Err(err) => Err(err)
    case Ok(temperature) =>
      match MakeIndividualForecast("quantitativePrecipitation", forecast, ref, true, false)
      case Err(err) => Err(err)
      case Ok(qpf) =>
        Ok(ThreeNumberSummary(qpf, MakeIndividualObservation("precipitationLast6Hours", observations), temperature))
  }

  /** `model_a(*model_a_data_today())`. */
  function PredictToday(s: ThreeNumberSummary, p: Parameters, sigma: real -> real): (r: real)
    requires |s.temperature.rows| > 0
    requires var d := ModelADataToday(s); ShortCircuit(d.0, d.1) || WellShaped(p)
    ensures r <= 0.99 && !(0.51 <= r <= 0.85)
  {
    var d := ModelADataToday(s);
    ModelA(d.0, d.1, d.2, p, sigma)
  }

  /** The prediction is 0 exactly when at most 5 mm of precipitation is
      forecast in the window and at most 5 mm was observed over six hours:
      both are whole numbers, and 0.2 inch is 5.08 mm. */
  lemma PredictTodayZero(s: ThreeNumberSummary, p: Parameters, sigma: real -> real)
    requires |s.temperature.rows| > 0
    requires var d := ModelADataToday(s); ShortCircuit(d.0, d.1) || WellShaped(p)
    requires forall z :: 0.0 < sigma(z) < 1.0
    ensures PredictToday(s, p, sigma) == 0.0 <==>
      ColumnSum(Window(s.quantitativePrecipitation.rows)) <= 5 && s.precipitationLast6Hours.value <= 5
  {
    var d := ModelADataToday(s);
    ModelARange(d.0, d.1, d.2, p, sigma);
    MmToInBelowThreshold(d.0);
    MmToInBelowThreshold(d.1);
  }

  /** `Location`'s prediction: the summary built from the forecast and
      observation JSON, then `model_a` of its three numbers. It fails only
      when a forecast series fails, and a prediction is at most 0.99 and
      never in [0.51, 0.85]. */
  function PredictFromJson(forecast: map<string, QuantityJson>, observations: map<string, ObservationJson>, ref: int,
                           p: Parameters, sigma: real -> real): (r: Result<real, ForecastError>)
    requires "temperature" in forecast && "quantitativePrecipitation" in forecast
    requires "precipitationLast6Hours" in observations
    requires WellShaped(p)
    ensures r.Ok? <==> MakeSummary(forecast, observations, ref).Ok?
    ensures r.Err? ==> r.error == MakeSummary(forecast, observations, ref).error
    ensures r.Ok? ==> r.value <= 0.99 && !(0.51 <= r.value <= 0.85)
  {
    match MakeSummary(forecast, observations, ref)
    case Err(err) => Err(err)
    case Ok(s) => Ok(PredictToday(s, p, sigma))
  }
}
