/** The confidence scorer (`confidence_score`): a low-minutes player is
    capped at 60 points of hit rate; otherwise a weighted sum of a z-score of
    recent form, the hit rate, the home/away delta, minutes and stability is
    scaled to 0..100 and rounded to one decimal. Inputs are floats that may
    be NaN (`None`), combined with Python's `min`/`max`, which return their
    first argument unless the second compares strictly smaller/greater. */
module Confidence {
  import opened Table

  /** A float that may be NaN (`None`). */
  type Float = Option<real>

  /** The fields of a metrics row the scorer reads. */
  datatype ScoreRow = ScoreRow(
    minutesAvgLast5: Float,
    hitRateLast10: Float,
    avgLast10: Float,
    avgSeason: Float,
    stdLast10: Float,
    homeAwayDelta: Float)

  const LowMinutes: real := 24.0
  const LowMinutesCap: real := 60.0
  const FullGameMinutes: real := 36.0
  const StdScale: real := 10.0

  const FormWeight: real := 0.35
  const HitRateWeight: real := 0.30
  const VenueWeight: real := 0.15
  const MinutesWeight: real := 0.10
  const StabilityWeight: real := 0.10

  // ---------------------------------------------------------------------
  // Python float operations

  /** `a < b`; every comparison with NaN is false. */
  predicate Less(a: Float, b: Float)
  {
    a.Some? && b.Some? && a.value < b.value
  }

  /** Python `min(a, b)`: `b` only when `b < a`. */
  function PyMin(a: Float, b: Float): (r: Float)
    ensures r == a || r == b
    ensures a.Some? && b.Some? ==> r.Some? && r.value <= a.value && r.value <= b.value
    ensures a.None? || b.None? ==> r == a
  {
    if Less(b, a) then b else a
  }

  /** Python `max(a, b)`: `b` only when `b > a`. */
  function PyMax(a: Float, b: Float): (r: Float)
    ensures r == a || r == b
    ensures a.Some? && b.Some? ==> r.Some? && r.value >= a.value && r.value >= b.value
    ensures a.None? || b.None? ==> r == a
  {
    if Less(a, b) then b else a
  }

  function Plus(a: Float, b: Float): Float
  {
    if a.Some? && b.Some? then Some(a.value + b.value) else None
  }

  function Minus(a: Float, b: Float): Float
  {
    if a.Some? && b.Some? then Some(a.value - b.value) else None
  }

  function Scale(k: real, a: Float): Float
  {
    if a.Some? then Some(k * a.value) else None
  }

  /** `a / b` for a divisor that is NaN or non-zero. */
  function Over(a: Float, b: Float): Float
    requires b.None? || b.value != 0.0
  {
    if a.Some? && b.Some? then Some(a.value / b.value) else None
  }

  /** `np.clip(x, lo, hi)`; NaN stays NaN. */
  function Clip(x: Float, lo: real, hi: real): (r: Float)
    requires lo <= hi
    ensures r.None? <==> x.None?
    ensures r.Some? ==> lo <= r.value <= hi
    ensures r.Some? && lo <= x.value <= hi ==> r == x
    ensures r.Some? && x.value < lo ==> r.value == lo
    ensures r.Some? && x.value > hi ==> r.value == hi
  {
    if x.None? then None
    else if x.value < lo then Some(lo)
    else if x.value > hi then Some(hi)
    else x
  }

  /** The integer nearest `y`, ties to the even one. */
  function RoundHalfEven(y: real): (n: int)
    ensures (n as real) - 0.5 <= y <= (n as real) + 0.5
    ensures y - (n as real) == 0.5 ==> n % 2 == 0
    ensures (n as real) - y == 0.5 ==> n % 2 == 0
  {
    var k := y.Floor;
    var f := y - k as real;
    if f < 0.5 then k
    else if f > 0.5 then k + 1
    else if k % 2 == 0 then k
    else k + 1
  }

  /** Python `round(x, 1)`: the nearest multiple of a tenth, ties to even; NaN stays NaN. */
  function RoundTenth(x: Float): (r: Float)
    ensures r.None? <==> x.None?
    ensures r.Some? ==> -0.05 <= r.value - x.value <= 0.05
    ensures r.Some? ==> r.value * 10.0 == (r.value * 10.0).Floor as real
  {
    if x.None? then None
    else
      var n := RoundHalfEven(x.value * 10.0);
      assert (n as real / 10.0) * 10.0 == n as real;
      Some(n as real / 10.0)
  }

  // ---------------------------------------------------------------------
  // The score

  /** The weighted score before scaling (lines 8 to 16 of the scorer). */
  function WeightedScore(row: ScoreRow): Float
  {
    var z := Over(Minus(row.avgLast10, row.avgSeason), PyMax(row.stdLast10, Some(1.0)));
    var stability := Minus(Some(1.0), PyMin(Over(row.stdLast10, Some(StdScale)), Some(1.0)));
    Plus(Plus(Plus(Plus(
      Scale(FormWeight, z),
      Scale(HitRateWeight, row.hitRateLast10)),
      Scale(VenueWeight, row.homeAwayDelta)),
      Over(Scale(MinutesWeight, row.minutesAvgLast5), Some(FullGameMinutes))),
      Scale(StabilityWeight, stability))
  }

  /** `confidence_score(row, line)`; `line` does not enter the result. */
  function ConfidenceScore(row: ScoreRow, line: real): (s: Float)
    ensures Less(row.minutesAvgLast5, Some(LowMinutes)) ==>
      s.Some? && s.value <= LowMinutesCap &&
      (row.hitRateLast10.Some? ==> s.value == LowMinutesCapped(row.hitRateLast10.value))
    ensures !Less(row.minutesAvgLast5, Some(LowMinutes)) ==>
      (s.None? <==> WeightedScore(row).None?) &&
      (s.Some? ==> 0.0 <= s.value <= 100.0 && s.value * 10.0 == (s.value * 10.0).Floor as real)
  {
    if Less(row.minutesAvgLast5, Some(LowMinutes)) then
      PyMin(Some(LowMinutesCap), Scale(100.0, row.hitRateLast10))
    else
      var s := RoundTenth(Clip(Scale(100.0, WeightedScore(row)), 0.0, 100.0));
      if s.Some? then
        RoundTenthWithin(Clip(Scale(100.0, WeightedScore(row)), 0.0, 100.0).value, 0.0, 100.0);
        s
      else s
  }

  /** The low-minutes score for a present hit rate: min(60, 100·hr). */
  function LowMinutesCapped(hr: real): (c: real)
    ensures c <= LowMinutesCap && c <= 100.0 * hr
    ensures c == LowMinutesCap || c == 100.0 * hr
  {
    if 100.0 * hr < LowMinutesCap then 100.0 * hr else LowMinutesCap
  }

  // ---------------------------------------------------------------------
  // Real-valued reference and properties

  /** Python `max` on present floats. */
  function MaxReal(a: real, b: real): real
  {
    if a < b then b else a
  }

  /** Python `min` on present floats. */
  function MinReal(a: real, b: real): real
  {
    if b < a then b else a
  }

  /** The weighted score of present inputs, written on reals. */
  function Weighted(minutes: real, hitRate: real, avg10: real, season: real, std: real, delta: real): real
  {
    FormWeight * ((avg10 - season) / MaxReal(std, 1.0)) +
    HitRateWeight * hitRate +
    VenueWeight * delta +
    MinutesWeight * minutes / FullGameMinutes +
    StabilityWeight * (1.0 - MinReal(std / StdScale, 1.0))
  }

  predicate AllPresent(row: ScoreRow)
  {
    && row.minutesAvgLast5.Some? && row.hitRateLast10.Some? && row.avgLast10.Some?
    && row.avgSeason.Some? && row.stdLast10.Some? && row.homeAwayDelta.Some?
  }

  /** A NaN anywhere in the row makes the weighted score NaN; with every
      input present it is the real-valued weighted sum. */
  lemma WeightedScoreOfPresent(row: ScoreRow)
    ensures WeightedScore(row).Some? <==> AllPresent(row)
    ensures AllPresent(row) ==>
      WeightedScore(row) == Some(Weighted(
        row.minutesAvgLast5.value, row.hitRateLast10.value, row.avgLast10.value,
        row.avgSeason.value, row.stdLast10.value, row.homeAwayDelta.value))
  {
    if AllPresent(row) {
      var std := row.stdLast10.value;
      PyMinMaxOfPresent(std, 1.0);
      PyMinMaxOfPresent(std / StdScale, 1.0);
    }
  }

  /** On present floats Python's `min` and `max` are the real ones. */
  lemma PyMinMaxOfPresent(a: real, b: real)
    ensures PyMin(Some(a), Some(b)) == Some(MinReal(a, b))
    ensures PyMax(Some(a), Some(b)) == Some(MaxReal(a, b))
  {
  }

  /** The z-score divisor `max(std, 1)` is at least 1 and at least the spread. */
  lemma ZDivisorBounds(std: real)
    ensures MaxReal(std, 1.0) >= 1.0 && MaxReal(std, 1.0) >= std
    ensures MaxReal(std, 1.0) == 1.0 || MaxReal(std, 1.0) == std
  {
  }

  /** The stability term lies in [0, 1] for a non-negative spread, and is 0
      from a spread of 10 on. */
  lemma StabilityBounds(std: real)
    ensures 1.0 - MinReal(std / StdScale, 1.0) >= 0.0
    ensures std >= 0.0 ==> 1.0 - MinReal(std / StdScale, 1.0) <= 1.0
    ensures std >= StdScale ==> 1.0 - MinReal(std / StdScale, 1.0) == 0.0
  {
  }

  /** Each extra unit of hit rate adds exactly 0.30 to the weighted score. */
  lemma HitRateSlope(minutes: real, hr1: real, hr2: real, avg10: real, season: real, std: real, delta: real)
    ensures Weighted(minutes, hr2, avg10, season, std, delta) - Weighted(minutes, hr1, avg10, season, std, delta)
      == HitRateWeight * (hr2 - hr1)
  {
  }

  /** Rounding to the nearest integer keeps the order. */
  lemma RoundHalfEvenMonotone(y1: real, y2: real)
    requires y1 <= y2
    ensures RoundHalfEven(y1) <= RoundHalfEven(y2)
  {
    if y1 < y2 {
      var n1, n2 := RoundHalfEven(y1), RoundHalfEven(y2);
      assert (n1 as real) <= y1 + 0.5 < y2 + 0.5 <= (n2 as real) + 1.0;
    }
  }

  /** Rounding a value that lies between two multiples of a tenth to a
      tenth stays between them. */
  lemma RoundTenthWithin(x: real, lo: real, hi: real)
    requires lo <= x <= hi
    requires lo * 10.0 == (lo * 10.0).Floor as real && hi * 10.0 == (hi * 10.0).Floor as real
    ensures lo <= RoundTenth(Some(x)).value <= hi
  {
    RoundHalfEvenMonotone(lo * 10.0, x * 10.0);
    RoundHalfEvenMonotone(x * 10.0, hi * 10.0);
    RoundHalfEvenOfWhole(lo * 10.0);
    RoundHalfEvenOfWhole(hi * 10.0);
  }

  /** A whole number rounds to itself. */
  lemma RoundHalfEvenOfWhole(y: real)
    requires y == y.Floor as real
    ensures RoundHalfEven(y) as real == y
  {
  }

  /** `round(x, 1)` keeps the order. */
  lemma RoundTenthMonotone(x1: real, x2: real)
    requires x1 <= x2
    ensures RoundTenth(Some(x1)).value <= RoundTenth(Some(x2)).value
  {
    RoundHalfEvenMonotone(x1 * 10.0, x2 * 10.0);
  }

  /** With low minutes the score depends on the hit rate alone; a NaN hit
      rate then scores the full cap of 60, because Python's `min` keeps its
      first argument when the comparison with NaN fails. */
  lemma LowMinutesScore(row: ScoreRow, other: ScoreRow, line: real, otherLine: real)
    requires Less(row.minutesAvgLast5, Some(LowMinutes)) && Less(other.minutesAvgLast5, Some(LowMinutes))
    requires row.hitRateLast10 == other.hitRateLast10
    ensures ConfidenceScore(row, line) == ConfidenceScore(other, otherLine)
    ensures row.hitRateLast10.None? ==> ConfidenceScore(row, line) == Some(LowMinutesCap)
  {
  }

  /** On the full path the score is the weighted score scaled to a
      percentage, clipped to [0, 100] and rounded to a tenth: it is within
      0.05 of the clipped percentage. */
  lemma FullScoreNearClipped(row: ScoreRow, line: real)
    requires !Less(row.minutesAvgLast5, Some(LowMinutes)) && AllPresent(row)
    ensures
      var w := Weighted(
        row.minutesAvgLast5.value, row.hitRateLast10.value, row.avgLast10.value,
        row.avgSeason.value, row.stdLast10.value, row.homeAwayDelta.value);
      var clipped := if 100.0 * w < 0.0 then 0.0 else if 100.0 * w > 100.0 then 100.0 else 100.0 * w;
      ConfidenceScore(row, line).Some? && -0.05 <= ConfidenceScore(row, line).value - clipped <= 0.05
  {
    WeightedScoreOfPresent(row);
  }

  /** A higher hit rate never lowers the score, all else equal, on either path. */
  lemma ScoreMonotoneInHitRate(row: ScoreRow, hr1: real, hr2: real, line: real)
    requires hr1 <= hr2
    requires AllPresent(row)
    ensures
      var s1 := ConfidenceScore(row.(hitRateLast10 := Some(hr1)), line);
      var s2 := ConfidenceScore(row.(hitRateLast10 := Some(hr2)), line);
      s1.Some? && s2.Some? && s1.value <= s2.value
  {
    var r1, r2 := row.(hitRateLast10 := Some(hr1)), row.(hitRateLast10 := Some(hr2));
    if !Less(row.minutesAvgLast5, Some(LowMinutes)) {
      WeightedScoreOfPresent(r1);
      WeightedScoreOfPresent(r2);
      var m, a, se, sd, d :=
        row.minutesAvgLast5.value, row.avgLast10.value, row.avgSeason.value,
        row.stdLast10.value, row.homeAwayDelta.value;
      HitRateSlope(m, hr1, hr2, a, se, sd, d);
      var c1 := Clip(Scale(100.0, WeightedScore(r1)), 0.0, 100.0);
      var c2 := Clip(Scale(100.0, WeightedScore(r2)), 0.0, 100.0);
      assert c1.value <= c2.value;
      RoundTenthMonotone(c1.value, c2.value);
    }
  }

  /** A full-minutes player in line with their season, with no spread and
      no venue edge, hitting 60% of the last ten scores 38.0:
      0.30·0.6 + 0.10·36/36 + 0.10·(1 − 0) = 0.38. */
  lemma SteadyStarterScore(line: real)
    ensures ConfidenceScore(ScoreRow(Some(36.0), Some(0.6), Some(20.0), Some(20.0), Some(0.0), Some(0.0)), line)
      == Some(38.0)
  {
    var row := ScoreRow(Some(36.0), Some(0.6), Some(20.0), Some(20.0), Some(0.0), Some(0.0));
    WeightedScoreOfPresent(row);
    assert Weighted(36.0, 0.6, 20.0, 20.0, 0.0, 0.0) == 0.38;
    assert RoundHalfEven(380.0) == 380;
  }

  /** A bench player averaging 20 minutes who hit 8 of the last ten is
      capped at 60; hitting 4 of ten scores 40. */
  lemma BenchPlayerCapped(row: ScoreRow, line: real)
    requires row.minutesAvgLast5 == Some(20.0)
    ensures ConfidenceScore(row.(hitRateLast10 := Some(0.8)), line) == Some(60.0)
    ensures ConfidenceScore(row.(hitRateLast10 := Some(0.4)), line) == Some(40.0)
  {
  }
}
