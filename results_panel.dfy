/** The results panel: a stateless function from `DetectionResults` to one of
    three views. */
module ResultsPanel {
  import opened Wrappers
  import opened Detection
  import Rounding

  /** The qualitative label under the progress bar. */
  datatype Rate = Low | Moderate | High

  /** What the panel shows. A populated view carries the counts it prints, the
      percentage, the label, and the image URL when the image block is shown. */
  datatype View =
    | Loading
    | Empty
    | Populated(totalFrames: nat, anomalousFrames: nat, percentage: nat, rate: Rate, image: Option<string>)

  /** `anomalyPercentage`: 0 without frames, otherwise the share of anomalous
      frames in percent rounded to the nearest integer, ties up. */
  function AnomalyPercentage(results: DetectionResults): (pct: nat)
    ensures results.totalFrames == 0 ==> pct == 0
    ensures results.totalFrames > 0 ==>
      -(results.totalFrames as int) <= 2 * (100 * results.anomalousFrames - pct * results.totalFrames) < results.totalFrames
    ensures results.anomalousFrames <= results.totalFrames ==> pct <= 100
  {
    if results.totalFrames > 0 then
      var pct := Rounding.RoundHalfUp(100 * results.anomalousFrames, results.totalFrames);
      PercentAtMostHundred(results.anomalousFrames, results.totalFrames, pct);
      pct
    else 0
  }

  lemma PercentAtMostHundred(a: nat, t: nat, pct: int)
    requires 0 < t
    requires -(t as int) <= 2 * (100 * a - pct * t) < t
    ensures a <= t ==> pct <= 100
  {
    if a <= t && pct > 100 {
      Rounding.MulMono(101, pct, t);
    }
  }

  /** The label thresholds: below 5 is low, below 15 moderate, otherwise high. */
  function RateOf(pct: int): (rate: Rate)
    ensures rate == Low <==> pct < 5
    ensures rate == Moderate <==> 5 <= pct < 15
    ensures rate == High <==> 15 <= pct
  {
    if pct < 5 then Low
    else if pct < 15 then Moderate
    else High
  }

  /** `results.resultImage && <image block>`: the block is rendered only for a
      truthy URL, so neither an absent nor an empty string shows it. */
  function ShownImage(resultImage: Option<string>): (shown: Option<string>)
    ensures shown.Some? <==> resultImage.Some? && resultImage.value != ""
    ensures shown.Some? ==> shown == resultImage
  {
    if resultImage.Some? && resultImage.value != "" then resultImage else None
  }

  /** The panel. Processing wins over everything else; without frames the
      prompt is shown; otherwise the statistics. */
  function Render(results: DetectionResults): (v: View)
    ensures v == Loading <==> results.processing
    ensures v == Empty <==> !results.processing && results.totalFrames == 0
    ensures v.Populated? <==> !results.processing && results.totalFrames != 0
    ensures v.Populated? ==>
      && v.totalFrames == results.totalFrames
      && v.anomalousFrames == results.anomalousFrames
      && v.percentage == AnomalyPercentage(results)
      && v.rate == RateOf(v.percentage)
      && v.image == ShownImage(results.resultImage)
  {
    var pct := AnomalyPercentage(results);
    if results.processing then Loading
    else if results.totalFrames == 0 && !results.processing then Empty
    else Populated(results.totalFrames, results.anomalousFrames, pct, RateOf(pct), ShownImage(results.resultImage))
  }

  /** The label read straight off the frame counts: high exactly when
      anomalous/total >= 14.5%, low exactly when it is below 4.5%. */
  lemma {:induction false} RateFromFrames(a: nat, t: nat)
    requires t > 0
    ensures RateOf(Rounding.RoundHalfUp(100 * a, t)) == High <==> 200 * a >= 29 * t
    ensures RateOf(Rounding.RoundHalfUp(100 * a, t)) == Low <==> 200 * a < 9 * t
  {
    var pct := Rounding.RoundHalfUp(100 * a, t);
    if pct >= 15 {
      Rounding.MulMono(15, pct, t);
    } else {
      Rounding.MulMono(pct, 14, t);
    }
    if pct < 5 {
      Rounding.MulMono(pct, 4, t);
    } else {
      Rounding.MulMono(5, pct, t);
    }
  }

  /** Every populated view agrees with the rounding rule and the thresholds. */
  lemma PopulatedViewIsConsistent(results: DetectionResults)
    requires Render(results).Populated?
    ensures Render(results).percentage == Rounding.RoundHalfUp(100 * results.anomalousFrames, results.totalFrames)
    ensures Render(results).rate == High <==> 200 * results.anomalousFrames >= 29 * results.totalFrames
    ensures Render(results).rate == Low <==> 200 * results.anomalousFrames < 9 * results.totalFrames
  {
    var v := Render(results);
    Rounding.RoundHalfUpUnique(100 * results.anomalousFrames, results.totalFrames, v.percentage);
    RateFromFrames(results.anomalousFrames, results.totalFrames);
  }
}
