/** The per-quantity records built from the weather service's JSON:
    `IndividualForecast` (one aligned forecast series), `IndividualObservation`
    (one observed value) and the choice of the apparent temperature among
    the observations. */
module Records {
  import opened Results
  import opened Numeric
  import opened ValidTime
  import opened Alignment

  // ---------------------------------------------------------------------
  // Forecast series

  /** One quantity of the gridpoint forecast: an optional unit of measure
      and its `values` records. */
  datatype QuantityJson = QuantityJson(uom: Option<string>, values: seq<RawValue>)

  /** `IndividualForecast`: the unit (when given), the aligned array (`rows`) and the
      two flags it was built with. */
  datatype IndividualForecast = IndividualForecast(uom: Option<string>, rows: seq<Pair>, divided: bool, keptNegative: bool)

  /** `IndividualForecast(name, json_data, divide, keep_negative)` with the
      forecast center passed as `ref`. A quantity without a unit gets
      `None`; a malformed `validTime` among the records read fails the
      construction. */
  function MakeIndividualForecast(name: string, json: map<string, QuantityJson>, ref: int, divide: bool, keepNeg: bool)
    : (r: Result<IndividualForecast, ForecastError>)
    requires name in json
    ensures r.Ok? <==> ForecastArray(json[name].values, ref, divide, keepNeg).Ok?
    ensures r.Err? ==> r.error == ForecastArray(json[name].values, ref, divide, keepNeg).error
    ensures r.Ok? ==>
      && r.value.uom == json[name].uom
      && r.value.rows == ForecastArray(json[name].values, ref, divide, keepNeg).value
      && r.value.divided == divide && r.value.keptNegative == keepNeg
    ensures r.Ok? ==>
      && |r.value.rows| > 0
      && forall j :: 0 <= j < |r.value.rows| - 1 ==> r.value.rows[j].offset < Horizon
  {
    match ForecastArray(json[name].values, ref, divide, keepNeg)
    case Ok(rows) => Ok(IndividualForecast(json[name].uom, rows, divide, keepNeg))
    case Err(err) => Err(err)
  }

  /** When every `validTime` is well formed the forecast is built, and its
      array is the alignment of all the records as read. */
  lemma ForecastOfWellFormed(name: string, json: map<string, QuantityJson>, ref: int, divide: bool, keepNeg: bool)
    requires name in json
    requires forall j :: 0 <= j < |json[name].values| ==> ParseValidTime(json[name].values[j].validTime).Some?
    ensures var r := MakeIndividualForecast(name, json, ref, divide, keepNeg);
      r.Ok? && r.value.rows == Align(ReadEntries(json[name].values), ref, divide, keepNeg)
  {
    var raws := json[name].values;
    var es := ReadEntries(raws);
    AlignReadWhenAllRead(ReadAll(raws), es, ref, divide, keepNeg);
  }

  // ---------------------------------------------------------------------
  // Observations

  /** One observed quantity: its unit code, its value (`None` for JSON
      `null`) and its quality-control flag when present. */
  datatype ObservationJson = ObservationJson(unitCode: string, value: Option<real>, qualityControl: Option<string>)

  /** `IndividualObservation`: unit, value as an `int`, quality-control flag. */
  datatype IndividualObservation = IndividualObservation(uom: string, value: int, qc: string)

  /** `IndividualObservation(name, json_data)`: a null value becomes 0 (the
      `TypeError` of `int(None)` is caught), a number is truncated toward
      zero by `int()`, and a missing quality-control flag becomes `""`. */
  function MakeIndividualObservation(name: string, json: map<string, ObservationJson>): (r: IndividualObservation)
    requires name in json
    ensures r.uom == json[name].unitCode
    ensures json[name].value.None? ==> r.value == 0
    ensures json[name].value.Some? ==>
      var x := json[name].value.value;
      && (0.0 <= x ==> 0 <= r.value && r.value as real <= x < r.value as real + 1.0)
      && (x < 0.0 ==> r.value <= 0 && r.value as real - 1.0 < x <= r.value as real)
    ensures json[name].qualityControl.None? ==> r.qc == ""
    ensures json[name].qualityControl.Some? ==> r.qc == json[name].qualityControl.value
  {
    var o := json[name];
    var value := match o.value
      case None => 0
      case Some(x) => TruncateTowardZero(x);
    var qc := match o.qualityControl
      case None => ""
      case Some(q) => q;
    IndividualObservation(o.unitCode, value, qc)
  }

  /** A whole-number observation is kept exactly. */
  lemma ObservationOfWholeNumber(name: string, json: map<string, ObservationJson>, k: int)
    requires name in json && json[name].value == Some(k as real)
    ensures MakeIndividualObservation(name, json).value == k
  {
    TruncateIntegral(k);
  }

  /** Whether the wind chill is present with a non-null value. */
  predicate WindChillUsable(json: map<string, ObservationJson>) {
    "windChill" in json && json["windChill"].value.Some?
  }

  /** The apparent temperature of `Observations`: the wind chill when it is
      present and not null, otherwise the heat index, whether or not that is
      null. Without a usable wind chill the heat index must be present
      (Python raises `KeyError` otherwise). */
  function ApparentTemperature(json: map<string, ObservationJson>): (r: IndividualObservation)
    requires WindChillUsable(json) || "heatIndex" in json
    ensures WindChillUsable(json) ==> r == MakeIndividualObservation("windChill", json)
    ensures !WindChillUsable(json) ==> r == MakeIndividualObservation("heatIndex", json)
  {
    if "windChill" in json && json["windChill"].value.Some? then
      MakeIndividualObservation("windChill", json)
    else if "windChill" !in json && "heatIndex" in json && json["heatIndex"].value.Some? then
      MakeIndividualObservation("heatIndex", json)
    else
      // the fallback taken when neither branch set the apparent temperature
      MakeIndividualObservation("heatIndex", json)
  }

  /** A wind chill that is present but null does not hide the heat index,
      and a present heat index is ignored when the wind chill is usable. */
  lemma ApparentTemperatureExamples(unit: string)
    ensures var json := map["windChill" := ObservationJson(unit, None, None),
                            "heatIndex" := ObservationJson(unit, Some(30.7), None)];
      ApparentTemperature(json) == IndividualObservation(unit, 30, "")
    ensures var json := map["windChill" := ObservationJson(unit, Some(-4.5), Some("V")),
                            "heatIndex" := ObservationJson(unit, Some(30.0), None)];
      ApparentTemperature(json) == IndividualObservation(unit, -4, "V")
    ensures var json := map["heatIndex" := ObservationJson(unit, None, None)];
      ApparentTemperature(json) == IndividualObservation(unit, 0, "")
  {
    assert TruncateTowardZero(30.7) == 30;
    assert TruncateTowardZero(-4.5) == -4;
  }
}
