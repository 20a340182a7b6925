/** The configuration constants, with the defaults the bot ships with. */
module Config {

  /** Per-field clipping limits of the language-model context. */
  const MaxPrBodyLength: nat := 1200
  const MaxCommentLength: nat := 1500
  const MaxReviewLength: nat := 2000
  const MaxDiffHunkLength: nat := 1200
  const MaxPatchLength: nat := 1200
  const MaxInlineCommentLength: nat := 400

  /** Retry tuning of the language-model gateway. */
  const RetryInitialDelay: real := 0.35
  const RetryMaxDelay: real := 2.0
  const RetryMaxAttempts: int := 12
  const RetryJitter: real := 0.10

  /** The three confidence thresholds, tunable independently. */
  datatype Thresholds = Thresholds(goodChange: real, badQuestion: real, badChange: real)

  const DefaultThresholds := Thresholds(0.7, 0.55, 0.55)
}
