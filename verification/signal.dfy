/** The rule-based buy/sell/neutral signal of the market picture: a weighted
    score of order-book imbalance, VWAP drift and funding. */
module Signal {
  import opened Wrappers
  import opened Json

  datatype Label = Buy | Sell | Neutral

  /** Why the score moved; the formatted text of each reason is not modelled. */
  datatype Reason = ImbalanceReason(imb: real) | DriftReason(drift: real) | FundingReason(funding: real)

  datatype Verdict = Verdict(decision: Label, score: real, confidence: real, reasons: seq<Reason>)

  /** The funding term: absent when the feature is `None` or `float()` fails. */
  function FundingValue(funding: Json): Option<real> {
    if funding.JNull? then None else PyFloat(funding)
  }

  function Abs(x: real): real {
    if x < 0.0 then -x else x
  }

  /** `0.5·imb + 0.3·10·drift − 0.2·funding`, each missing term counting 0. */
  function Score(imb: real, drift: Option<real>, funding: Option<real>): real {
    0.5 * imb
      + (if drift.Some? then 0.3 * drift.value * 10.0 else 0.0)
      + (if funding.Some? then 0.2 * -funding.value else 0.0)
  }

  function LabelOf(score: real, theta: real): (l: Label)
    ensures l == Buy <==> score > theta
    ensures l == Sell <==> !(score > theta) && score < -theta
  {
    if score > theta then Buy else if score < -theta then Sell else Neutral
  }

  /** `min(0.99, max(0.0, abs(score)))`. */
  function Confidence(score: real): (c: real)
    ensures 0.0 <= c <= 0.99
    ensures c == Abs(score) || c == 0.99
    ensures Abs(score) <= 0.99 ==> c == Abs(score)
  {
    var a := Abs(score);
    if a < 0.99 then a else 0.99
  }

  /** `_score_signal` on the features the market picture passes in: the
      order-book imbalance (a float, `or 0.0`), the VWAP drift when it is a
      number, and the funding field of the asset context. Rounding of the
      score and confidence is not modelled. */
  function ScoreSignal(imb: real, drift: Option<real>, funding: Json, theta: real): (s: Verdict)
    ensures s.score == Score(imb, drift, FundingValue(funding))
    ensures s.decision == LabelOf(s.score, theta)
    ensures 0.0 <= s.confidence <= 0.99
    ensures |s.reasons| <= 4
    ensures (exists i :: 0 <= i < |s.reasons| && s.reasons[i].ImbalanceReason?) <==> Abs(imb) > 0.05
    ensures (exists i :: 0 <= i < |s.reasons| && s.reasons[i].DriftReason?) <==> drift.Some?
    ensures (exists i :: 0 <= i < |s.reasons| && s.reasons[i].FundingReason?) <==> FundingValue(funding).Some?
  {
    var f := FundingValue(funding);
    var r1 := if Abs(imb) > 0.05 then [ImbalanceReason(imb)] else [];
    var r2 := if drift.Some? then [DriftReason(drift.value)] else [];
    var r3 := if f.Some? then [FundingReason(f.value)] else [];
    var reasons := r1 + r2 + r3;
    assert forall i :: 0 <= i < |r1| ==> reasons[i] == r1[i];
    assert forall i :: 0 <= i < |r2| ==> reasons[|r1| + i] == r2[i];
    assert forall i :: 0 <= i < |r3| ==> reasons[|r1| + |r2| + i] == r3[i];
    assert forall i :: 0 <= i < |reasons| ==> (reasons[i].ImbalanceReason? <==> i < |r1|);
    assert forall i :: 0 <= i < |reasons| ==> (reasons[i].DriftReason? <==> |r1| <= i < |r1| + |r2|);
    assert forall i :: 0 <= i < |reasons| ==> (reasons[i].FundingReason? <==> |r1| + |r2| <= i);
    assert |r1| > 0 ==> reasons[0].ImbalanceReason?;
    assert |r2| > 0 ==> reasons[|r1|].DriftReason?;
    assert |r3| > 0 ==> reasons[|r1| + |r2|].FundingReason?;
    var score := Score(imb, drift, f);
    Verdict(LabelOf(score, theta), score, Confidence(score), reasons)
  }

  /** Flipping the sign of every input flips the score. */
  lemma ScoreAntisymmetric(imb: real, drift: Option<real>, funding: Option<real>)
    ensures Score(-imb, if drift.Some? then Some(-drift.value) else None,
                  if funding.Some? then Some(-funding.value) else None)
      == -Score(imb, drift, funding)
  {
  }

  /** With a non-negative threshold, negating the score exchanges buy and sell. */
  lemma LabelMirror(score: real, theta: real)
    requires theta >= 0.0
    ensures LabelOf(score, theta) == Buy <==> LabelOf(-score, theta) == Sell
    ensures LabelOf(score, theta) == Neutral <==> LabelOf(-score, theta) == Neutral
  {
  }

  /** Raising the score never turns a buy into anything else, and lowering
      it never turns a sell into anything else. */
  lemma LabelMonotone(s1: real, s2: real, theta: real)
    requires s1 <= s2
    ensures LabelOf(s1, theta) == Buy ==> LabelOf(s2, theta) == Buy
    ensures LabelOf(s2, theta) == Sell && theta >= 0.0 ==> LabelOf(s1, theta) == Sell
  {
  }

  /** More order-book imbalance never lowers the score. */
  lemma ScoreMonotoneInImbalance(i1: real, i2: real, drift: Option<real>, funding: Option<real>)
    requires i1 <= i2
    ensures Score(i1, drift, funding) <= Score(i2, drift, funding)
  {
  }

  /** The worked example: a fully bid book alone scores 0.5, a buy with
      confidence 0.5 at the default threshold 0.15. */
  lemma ExampleFullyBidBook()
    ensures var s := ScoreSignal(1.0, None, JNull, 0.15);
      s.decision == Buy && s.score == 0.5 && s.confidence == 0.5 && s.reasons == [ImbalanceReason(1.0)]
  {
  }
}
