/** The per-quantity smoothing law of the BME280 polling sensor, over exact
    reals: the filter coefficient derived from the constructor's percentage,
    the Celsius-to-Fahrenheit scaling, and the bootstrap-or-blend update. */
module Filter {

  /** Arduino `byte`: the filter constant is passed as an unsigned 8-bit value. */
  newtype Byte = x: int | 0 <= x < 256

  /** The stored value meaning "no sample yet"; the update tests it by equality. */
  const Sentinel: real := -1.0

  /** The smallest coefficient the constructor lets through. */
  const MinAlpha: real := 0.05

  function Min(x: real, y: real): real { if x <= y then x else y }

  function Max(x: real, y: real): real { if x <= y then y else x }

  function Abs(x: real): real { if x < 0.0 then -x else x }

  /** Independent reading of the clamp: the percentage actually in effect is
      the given one raised to at least 5 and capped at 100, except that 0
      stands for 100 (no smoothing). */
  function EffectivePercent(filterConstant: Byte): (p: int)
    ensures 5 <= p <= 100
  {
    if filterConstant == 0 then 100
    else if filterConstant < 5 then 5
    else if filterConstant > 100 then 100
    else filterConstant as int
  }

  /** The smoothing coefficient derived from the filter-constant percentage:
      a fraction between 0.05 and 1, never the percentage itself. */
  function Alpha(filterConstant: Byte): (a: real)
    ensures MinAlpha <= a <= 1.0
    ensures a == EffectivePercent(filterConstant) as real / 100.0
    ensures a == 1.0 <==> filterConstant == 0 || filterConstant >= 100
    ensures a == MinAlpha <==> 1 <= filterConstant <= 5
  {
    if filterConstant <= 0 || filterConstant >= 100 then 1.0
    else if filterConstant <= 5 then 0.05
    else filterConstant as real / 100.0
  }

  /** The constructor's boundary cases. */
  lemma AlphaBoundaries()
    ensures Alpha(0) == 1.0
    ensures Alpha(1) == 0.05
    ensures Alpha(5) == 0.05
    ensures Alpha(6) == 0.06
    ensures Alpha(50) == 0.5
    ensures Alpha(99) == 0.99
    ensures Alpha(100) == 1.0
    ensures Alpha(255) == 1.0
  {
  }

  /** A larger non-zero percentage never smooths harder. */
  lemma AlphaMonotone(lo: Byte, hi: Byte)
    requires 0 < lo <= hi
    ensures Alpha(lo) <= Alpha(hi)
  {
  }

  /** Celsius to Fahrenheit, as applied to the raw temperature reading. */
  function Fahrenheit(celsius: real): (f: real)
    ensures (f - 32.0) / 1.8 == celsius
  {
    celsius * 1.8 + 32.0
  }

  /** The temperature sample that enters the filter: the raw Celsius reading,
      scaled to Fahrenheit unless Celsius reporting is selected. */
  function TemperatureSample(inCelsius: bool, celsius: real): (t: real)
    ensures inCelsius ==> t == celsius
    ensures !inCelsius ==> (t - 32.0) / 1.8 == celsius
  {
    if inCelsius then celsius else Fahrenheit(celsius)
  }

  /** The exponential moving average: weight `alpha` on the new sample and
      `1 - alpha` on the current value. */
  function Blend(alpha: real, current: real, sample: real): real {
    alpha * sample + (1.0 - alpha) * current
  }

  /** Blending Fahrenheit values is blending Celsius values and converting:
      one blend step gives the same temperature in either unit. */
  lemma FahrenheitCommutesWithBlend(alpha: real, current: real, celsius: real)
    ensures Blend(alpha, Fahrenheit(current), Fahrenheit(celsius))
            == Fahrenheit(Blend(alpha, current, celsius))
  {
  }

  /** One quantity's update: bootstrap to the sample while the value is the
      sentinel, blend otherwise. */
  function Update(alpha: real, current: real, sample: real): (r: real)
    ensures current == Sentinel ==> r == sample
    ensures current != Sentinel ==> r - sample == (1.0 - alpha) * (current - sample)
    ensures alpha == 1.0 ==> r == sample
  {
    if current == Sentinel then sample else Blend(alpha, current, sample)
  }

  /** One update gives the same temperature in either unit as long as
      neither stored value is exactly the sentinel. */
  lemma UpdateCommutesAwayFromSentinel(alpha: real, current: real, celsius: real)
    requires current != Sentinel && Fahrenheit(current) != Sentinel
    ensures Update(alpha, Fahrenheit(current), Fahrenheit(celsius))
            == Fahrenheit(Update(alpha, current, celsius))
  {
    FahrenheitCommutesWithBlend(alpha, current, celsius);
  }

  /** The two units part ways at the sentinel: a Celsius value of -1.0
      bootstraps, while the same temperature kept in Fahrenheit (30.2)
      blends; and a Fahrenheit value of -1.0 (-55/3 in Celsius) bootstraps
      while its Celsius counterpart blends. */
  lemma UnitsPartAtSentinel()
    ensures Update(0.5, Fahrenheit(-1.0), Fahrenheit(9.0)) != Fahrenheit(Update(0.5, -1.0, 9.0))
    ensures Fahrenheit(-55.0 / 3.0) == Sentinel
    ensures Update(0.5, Sentinel, Fahrenheit(9.0)) != Fahrenheit(Update(0.5, -55.0 / 3.0, 9.0))
  {
  }

  /** With a coefficient in [0, 1] a blended value lies between the current
      value and the sample. */
  lemma BlendBetween(alpha: real, current: real, sample: real)
    requires 0.0 <= alpha <= 1.0
    ensures Min(current, sample) <= Blend(alpha, current, sample) <= Max(current, sample)
  {
    var d := sample - current;
    assert Blend(alpha, current, sample) == current + alpha * d;
    if d >= 0.0 {
      assert 0.0 <= alpha * d <= d by { assert (1.0 - alpha) * d >= 0.0; }
    } else {
      assert d <= alpha * d <= 0.0 by { assert (1.0 - alpha) * d <= 0.0; }
    }
  }

  /** Whichever branch the update takes, the distance to the sample shrinks
      at least by the factor `1 - alpha`. */
  lemma UpdateContracts(alpha: real, current: real, sample: real)
    requires 0.0 <= alpha <= 1.0
    ensures Abs(Update(alpha, current, sample) - sample) <= (1.0 - alpha) * Abs(current - sample)
  {
    var r := Update(alpha, current, sample);
    if current != Sentinel {
      if current >= sample {
        assert r - sample >= 0.0;
      } else {
        assert r - sample <= 0.0;
      }
    } else {
      assert (1.0 - alpha) * Abs(current - sample) >= 0.0;
    }
  }

  /** In particular no update moves a value away from its sample. */
  lemma UpdateNoFarther(alpha: real, current: real, sample: real)
    requires 0.0 <= alpha <= 1.0
    ensures Abs(Update(alpha, current, sample) - sample) <= Abs(current - sample)
  {
    UpdateContracts(alpha, current, sample);
    assert (1.0 - alpha) * Abs(current - sample) <= Abs(current - sample);
  }

  /** The value after `n` updates with the same sample. */
  function UpdateRepeatedly(alpha: real, current: real, sample: real, n: nat): real {
    if n == 0 then current else Update(alpha, UpdateRepeatedly(alpha, current, sample, n - 1), sample)
  }

  /** Under a constant sample the distance to it never grows from one update
      to a later one, even when an intermediate value hits the sentinel. */
  lemma {:induction false} UpdateRepeatedlyNeverFarther(alpha: real, current: real, sample: real, m: nat, n: nat)
    requires 0.0 <= alpha <= 1.0 && m <= n
    ensures Abs(UpdateRepeatedly(alpha, current, sample, n) - sample)
            <= Abs(UpdateRepeatedly(alpha, current, sample, m) - sample)
  {
    if m < n {
      UpdateRepeatedlyNeverFarther(alpha, current, sample, m, n - 1);
      UpdateNoFarther(alpha, UpdateRepeatedly(alpha, current, sample, n - 1), sample);
    }
  }
}
