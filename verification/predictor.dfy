/** The snow-day predictor `model_a`, over exact reals.

    Inputs are the forecast snowfall and the observed snow in millimetres
    and the temperature in degrees Celsius. When both snow amounts are
    under 0.2 inch the answer is 0 straight away; otherwise the features are
    converted to imperial units, the temperature is floored at 10 F, the
    features are standardised, passed through a 26 x 4 layer, gated
    (the first 25 outputs scaled by the sigmoid of the 26th, plus a bias
    of 1), reduced by a 26-weight layer and squashed by the sigmoid. A
    probability in [0.51, 0.85] is replaced by its complement, and the
    result is capped at 0.99.

    The sigmoid is a parameter `sigma`, and the learned numbers are a
    `Parameters` value instead of being read from a file. */
module Predictor {

  // ---------------------------------------------------------------------
  // Unit conversions

  /** `c_to_f`: degrees Celsius to degrees Fahrenheit. */
  function CToF(c: real): (f: real)
    ensures FToC(f) == c
    ensures c < -40.0 ==> f < c
    ensures c > -40.0 ==> f > c
  {
    c * 9.0 / 5.0 + 32.0
  }

  /** The inverse conversion, used as an independent reference. */
  function FToC(f: real): real {
    (f - 32.0) * 5.0 / 9.0
  }

  lemma CToFMonotone(a: real, b: real)
    ensures a <= b <==> CToF(a) <= CToF(b)
  {
  }

  /** `mm_to_in`: millimetres to inches. */
  function MmToIn(mm: real): (inches: real)
    ensures InToMm(inches) == mm
    ensures mm < 0.0 <==> inches < 0.0
  {
    mm / 25.4
  }

  function InToMm(inches: real): real {
    inches * 25.4
  }

  /** The short-circuit threshold of 0.2 inch is 5.08 mm. */
  lemma MmToInBelowThreshold(mm: real)
    ensures MmToIn(mm) < 0.2 <==> mm < 5.08
  {
  }

  // ---------------------------------------------------------------------
  // Parameters and vectors

  /** The learned numbers: means and standard deviations of the first
      three features, the 26 x 4 first layer and the 26 second-layer
      weights. */
  datatype Parameters = Parameters(means: seq<real>, stdevs: seq<real>, fc1: seq<seq<real>>, fc2: seq<real>)

  /** Shapes for which every step is defined: `(*means, 0)` and
      `(*stdevs, 1)` must have the length 4 of the feature vector, the
      first layer must map 4 features to 26 outputs and the second must
      take 26. A zero standard deviation makes numpy divide by zero; it is
      excluded here. */
  predicate WellShaped(p: Parameters) {
    && |p.means| == 3 && |p.stdevs| == 3
    && (forall i :: 0 <= i < 3 ==> p.stdevs[i] != 0.0)
    && |p.fc1| == 26 && (forall i :: 0 <= i < 26 ==> |p.fc1[i]| == 4)
    && |p.fc2| == 26
  }

  function Dot(a: seq<real>, b: seq<real>): real
    requires |a| == |b|
    decreases |a|
  {
    if |a| == 0 then 0.0 else Dot(a[..|a| - 1], b[..|b| - 1]) + a[|a| - 1] * b[|b| - 1]
  }

  /** A dot product with a zero vector is zero. */
  lemma {:induction false} DotZero(a: seq<real>, b: seq<real>)
    requires |a| == |b|
    requires forall i :: 0 <= i < |a| ==> a[i] == 0.0
    ensures Dot(a, b) == 0.0
    decreases |a|
  {
    if |a| > 0 {
      DotZero(a[..|a| - 1], b[..|b| - 1]);
    }
  }

  // ---------------------------------------------------------------------
  // The steps

  /** Whether both snow amounts are under 0.2 inch. */
  predicate ShortCircuit(snowfallMm: real, prevSnowMm: real) {
    MmToIn(snowfallMm) < 0.2 && MmToIn(prevSnowMm) < 0.2
  }

  /** The short circuit in the millimetres the model is given: both amounts
      under 5.08 mm. */
  lemma ShortCircuitInMillimetres(snowfallMm: real, prevSnowMm: real)
    ensures ShortCircuit(snowfallMm, prevSnowMm) <==> snowfallMm < 5.08 && prevSnowMm < 5.08
  {
    MmToInBelowThreshold(snowfallMm);
    MmToInBelowThreshold(prevSnowMm);
  }

  /** The Fahrenheit temperature, floored at 10. */
  function FlooredTemperature(tempC: real): (t: real)
    ensures t >= 10.0 && t >= CToF(tempC)
    ensures t == 10.0 || t == CToF(tempC)
  {
    if CToF(tempC) >= 10.0 then CToF(tempC) else 10.0
  }

  /** `(snowfall_in, prev_snow_in, temp_f, 1)`. */
  function Features(snowfallMm: real, prevSnowMm: real, tempC: real): (x: seq<real>)
    ensures |x| == 4 && x[3] == 1.0
    ensures x[0] == MmToIn(snowfallMm) && x[1] == MmToIn(prevSnowMm) && x[2] == FlooredTemperature(tempC)
  {
    [MmToIn(snowfallMm), MmToIn(prevSnowMm), FlooredTemperature(tempC), 1.0]
  }

  /** `(x - (*means, 0)) / (*stdevs, 1)`: each of the first three features
      centred and scaled; the bias feature is centred on 0 and scaled by 1,
      so it stays as it is. */
  function Standardize(x: seq<real>, means: seq<real>, stdevs: seq<real>): (y: seq<real>)
    requires |x| == 4 && |means| == 3 && |stdevs| == 3
    requires forall i :: 0 <= i < 3 ==> stdevs[i] != 0.0
    ensures |y| == 4
    ensures forall i :: 0 <= i < 3 ==> y[i] * stdevs[i] + means[i] == x[i]
    ensures y[3] == x[3]
  {
    var m := means + [0.0];
    var s := stdevs + [1.0];
    seq(4, i requires 0 <= i < 4 => (x[i] - m[i]) / s[i])
  }

  /** The first layer: one dot product per row. */
  function Layer(w: seq<seq<real>>, x: seq<real>): (z: seq<real>)
    requires forall i :: 0 <= i < |w| ==> |w[i]| == |x|
    ensures |z| == |w|
    ensures forall i :: 0 <= i < |w| ==> z[i] == Dot(w[i], x)
  {
    seq(|w|, i requires 0 <= i < |w| => Dot(w[i], x))
  }

  /** `append(z1[:25] * sigmoid(z1[25:]), 1.0)`: the first 25 outputs scaled
      by the gate, and a bias of 1. */
  function Gate(z: seq<real>, sigma: real -> real): (g: seq<real>)
    requires |z| == 26
    ensures |g| == 26 && g[25] == 1.0
    ensures forall i :: 0 <= i < 25 ==> g[i] == z[i] * sigma(z[25])
  {
    var gate := sigma(z[25]);
    seq(25, i requires 0 <= i < 25 => z[i] * gate) + [1.0]
  }

  /** With a gate strictly between 0 and 1, each gated output keeps its
      sign and moves toward 0. */
  lemma GateShrinks(z: seq<real>, sigma: real -> real, i: nat)
    requires |z| == 26 && i < 25
    requires 0.0 < sigma(z[25]) < 1.0
    ensures var g := Gate(z, sigma);
      && (z[i] > 0.0 ==> 0.0 < g[i] < z[i])
      && (z[i] < 0.0 ==> z[i] < g[i] < 0.0)
      && (z[i] == 0.0 ==> g[i] == 0.0)
  {
    var k := sigma(z[25]);
    var g := Gate(z, sigma);
    Shrink(z[i], k, g[i]);
  }

  /** Scaling by a factor strictly between 0 and 1 keeps the sign and
      moves toward 0. */
  lemma Shrink(x: real, k: real, y: real)
    requires 0.0 < k < 1.0 && y == x * k
    ensures x > 0.0 ==> 0.0 < y < x
    ensures x < 0.0 ==> x < y < 0.0
    ensures x == 0.0 ==> y == 0.0
  {
    var j := 1.0 - k;
    assert x - y == x * j;
    if x > 0.0 {
      MulPositive(x, j);
      MulPositive(x, k);
    } else if x < 0.0 {
      MulPositive(-x, j);
      MulPositive(-x, k);
      assert -x * k == -y;
    }
  }

  lemma MulPositive(a: real, b: real)
    requires a > 0.0 && b > 0.0
    ensures a * b > 0.0
  {
  }

  /** A probability in [0.51, 0.85] is replaced by its complement. */
  function Invert(p: real): (q: real)
    ensures !(0.51 <= q <= 0.85)
    ensures 0.51 <= p <= 0.85 ==> q == 1.0 - p
    ensures !(0.51 <= p <= 0.85) ==> q == p
  {
    if 0.51 <= p <= 0.85 then 1.0 - p else p
  }

  /** Inverting twice is inverting once: the complement of a value in the
      band lies below it. */
  lemma InvertIdempotent(p: real)
    ensures Invert(Invert(p)) == Invert(p)
  {
  }

  /** `min(p, 0.99)`. */
  function Clamp(p: real): (q: real)
    ensures q <= 0.99 && q <= p
    ensures q == p || q == 0.99
  {
    if p < 0.99 then p else 0.99
  }

  /** The raw score `z2` before the final sigmoid. */
  function Score(snowfallMm: real, prevSnowMm: real, tempC: real, p: Parameters, sigma: real -> real): real
    requires WellShaped(p)
  {
    var x := Standardize(Features(snowfallMm, prevSnowMm, tempC), p.means, p.stdevs);
    Dot(p.fc2, Gate(Layer(p.fc1, x), sigma))
  }

  /** `model_a(snowfall_mm, prev_snow_mm, temp_c)`. The parameters only need
      their shapes when the short circuit does not apply. */
  function ModelA(snowfallMm: real, prevSnowMm: real, tempC: real, p: Parameters, sigma: real -> real): (r: real)
    requires ShortCircuit(snowfallMm, prevSnowMm) || WellShaped(p)
    ensures r <= 0.99
    ensures !(0.51 <= r <= 0.85)
    ensures ShortCircuit(snowfallMm, prevSnowMm) ==> r == 0.0
  {
    if ShortCircuit(snowfallMm, prevSnowMm) then 0.0
    else Clamp(Invert(sigma(Score(snowfallMm, prevSnowMm, tempC, p, sigma))))
  }

  // ---------------------------------------------------------------------
  // Properties of the predictor

  /** With a sigmoid into (0, 1) the result is a probability in [0, 0.99],
      and it is 0 exactly when the short circuit applies. */
  lemma ModelARange(snowfallMm: real, prevSnowMm: real, tempC: real, p: Parameters, sigma: real -> real)
    requires ShortCircuit(snowfallMm, prevSnowMm) || WellShaped(p)
    requires forall z :: 0.0 < sigma(z) < 1.0
    ensures var r := ModelA(snowfallMm, prevSnowMm, tempC, p, sigma);
      && 0.0 <= r <= 0.99
      && (r == 0.0 <==> ShortCircuit(snowfallMm, prevSnowMm))
  {
    if !ShortCircuit(snowfallMm, prevSnowMm) {
      var s := sigma(Score(snowfallMm, prevSnowMm, tempC, p, sigma));
      assert 0.0 < s < 1.0;
      assert Invert(s) > 0.0;
    }
  }

  /** All temperatures at or below 10 F look the same to the model. */
  lemma ColdTemperaturesAgree(snowfallMm: real, prevSnowMm: real, t1: real, t2: real, p: Parameters, sigma: real -> real)
    requires ShortCircuit(snowfallMm, prevSnowMm) || WellShaped(p)
    requires CToF(t1) <= 10.0 && CToF(t2) <= 10.0
    ensures ModelA(snowfallMm, prevSnowMm, t1, p, sigma) == ModelA(snowfallMm, prevSnowMm, t2, p, sigma)
  {
    assert Features(snowfallMm, prevSnowMm, t1) == Features(snowfallMm, prevSnowMm, t2);
  }

  /** With all second-layer weights zero the score is 0, whatever the
      inputs, so the answer is the sigmoid of 0 inverted and capped. */
  lemma ZeroSecondLayer(snowfallMm: real, prevSnowMm: real, tempC: real, p: Parameters, sigma: real -> real)
    requires WellShaped(p) && !ShortCircuit(snowfallMm, prevSnowMm)
    requires forall i :: 0 <= i < 26 ==> p.fc2[i] == 0.0
    ensures ModelA(snowfallMm, prevSnowMm, tempC, p, sigma) == Clamp(Invert(sigma(0.0)))
  {
    var x := Standardize(Features(snowfallMm, prevSnowMm, tempC), p.means, p.stdevs);
    DotZero(p.fc2, Gate(Layer(p.fc1, x), sigma));
  }

  /** A sigmoid of 0.6 at 0 lands in the band, so 10 mm of snowfall gives
      0.4 under zero second-layer weights. */
  lemma InvertedBandExample(p: Parameters)
    requires WellShaped(p)
    requires forall i :: 0 <= i < 26 ==> p.fc2[i] == 0.0
    ensures ModelA(10.0, 0.0, 0.0, p, z => 0.6) == 0.4
  {
    ZeroSecondLayer(10.0, 0.0, 0.0, p, z => 0.6);
  }
}
