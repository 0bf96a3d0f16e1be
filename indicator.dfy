/** Classification of the latest relative-strength-index value into the
    investment signal shown under the analysis heading. The index itself is
    computed by a foreign library; the model receives its series as input. */
module Indicator {
  import opened Wrappers

  datatype Signal = Oversold | Neutral | Overbought | Undefined

  /** Below this the latest value reads as oversold. */
  const OversoldBelow: real := 30.0
  /** Above this the latest value reads as overbought. */
  const OverboughtAbove: real := 70.0

  /** The last element of the index series, absent when the series is empty. */
  function Latest(rsi: seq<real>): (latest: Option<real>)
    ensures latest.None? <==> |rsi| == 0
    ensures latest.Some? ==> latest.value == rsi[|rsi| - 1]
  {
    if |rsi| == 0 then None else Some(rsi[|rsi| - 1])
  }

  /** The three bands partition the present values and an absent value is
      never in any band; both thresholds belong to the neutral band. */
  function Classify(latest: Option<real>): (signal: Signal)
    ensures signal == Undefined <==> latest.None?
    ensures signal == Oversold <==> latest.Some? && latest.value < OversoldBelow
    ensures signal == Overbought <==> latest.Some? && latest.value > OverboughtAbove
    ensures signal == Neutral <==>
      latest.Some? && OversoldBelow <= latest.value <= OverboughtAbove
  {
    match latest
    case None => Undefined
    case Some(v) =>
      if v < OversoldBelow then Oversold
      else if v > OverboughtAbove then Overbought
      else Neutral
  }

  /** A proof device, not part of the page: orders the three bands along the
      index scale and puts Undefined below them, so that `ClassifyMonotone`
      can also say a present value is never Undefined. */
  function Rank(signal: Signal): int {
    match signal
    case Oversold => 0
    case Neutral => 1
    case Overbought => 2
    case Undefined => -1
  }

  /** A higher index value never gives a lower band. */
  lemma ClassifyMonotone(a: real, b: real)
    requires a <= b
    ensures 0 <= Rank(Classify(Some(a))) <= Rank(Classify(Some(b)))
  {
  }

  /** An empty series, and only an empty series, cannot be classified. */
  lemma EmptySeriesUndefined(rsi: seq<real>)
    ensures Classify(Latest(rsi)) == Undefined <==> rsi == []
  {
  }

  /** The values either side of each threshold. */
  lemma ClassifyAtThresholds()
    ensures Classify(Some(29.99)) == Oversold
    ensures Classify(Some(30.0)) == Neutral
    ensures Classify(Some(70.0)) == Neutral
    ensures Classify(Some(70.01)) == Overbought
  {
  }
}
