/** The sentiment decision in `Program.PredictSentiment`: the model's output
    row carries a two-entry prediction vector, and the review is reported
    positive when the entry for the positive class is above one half. */
module Sentiment {

  /** The number of classes the model's "Prediction/Softmax" output declares. */
  const ClassCount: nat := 2

  /** The index of the positive class in the prediction vector. */
  const PositiveIndex: nat := 1

  /** The decision threshold; a score equal to it is not positive. */
  const Threshold: real := 0.5

  /** The output row of the prediction engine. The entries are the model's
      single-precision scores, taken here as exact reals. */
  datatype MovieReviewSentimentPrediction = MovieReviewSentimentPrediction(Prediction: seq<real>)

  /** The declared shape of the output row. */
  predicate WellShaped(p: MovieReviewSentimentPrediction) {
    |p.Prediction| == ClassCount
  }

  /** Whether the review is reported positive ("Yes." rather than "No."):
      the comparison of the positive score with the threshold. */
  function IsPositive(p: MovieReviewSentimentPrediction): bool
    requires WellShaped(p)
  {
    p.Prediction[PositiveIndex] > Threshold
  }

  /** The boundary is strict: a positive score of exactly one half is "No.",
      and every score above it is "Yes.", whatever the other entry holds.
      The three sample distributions [0.3, 0.7], [0.9, 0.1] and [0.5, 0.5]
      are "Yes.", "No." and "No.". */
  lemma DecisionBoundary(negative: real, positive: real)
    ensures !IsPositive(MovieReviewSentimentPrediction([negative, 0.5]))
    ensures positive > 0.5 ==> IsPositive(MovieReviewSentimentPrediction([negative, positive]))
    ensures positive <= 0.5 ==> !IsPositive(MovieReviewSentimentPrediction([negative, positive]))
    ensures IsPositive(MovieReviewSentimentPrediction([0.3, 0.7]))
    ensures !IsPositive(MovieReviewSentimentPrediction([0.9, 0.1]))
    ensures !IsPositive(MovieReviewSentimentPrediction([0.5, 0.5]))
  {
  }

  /** Only the positive entry matters: two well-shaped predictions with the same
      positive score get the same decision, and a higher positive score never
      turns "Yes." into "No.". */
  lemma DecisionDependsOnPositiveScore(p: MovieReviewSentimentPrediction, q: MovieReviewSentimentPrediction)
    requires WellShaped(p) && WellShaped(q)
    ensures p.Prediction[1] == q.Prediction[1] ==> IsPositive(p) == IsPositive(q)
    ensures p.Prediction[1] <= q.Prediction[1] && IsPositive(p) ==> IsPositive(q)
  {
  }
}
