/**
 * The two generation services: a code suggestion for a change request and
 * the autonomous whole-PR review. The language model is a parameter
 * `generate(request, attempt)` giving, for each attempt, either the reply
 * text (absent when the model returned none) or the failure it raised; the
 * prompt wording is not modelled, only what each request carries.
 */
module CodeGeneration {
  import opened Wrappers
  import opened Text
  import opened Models
  import opened Config
  import opened Helpers
  import opened GeminiClient

  /** What a suggestion prompt carries: the comment to satisfy and the PR context. */
  datatype SuggestionRequest = SuggestionRequest(reviewerComment: string, context: string)

  /** What a wizard prompt carries besides the fixed instructions: the PR context. */
  datatype WizardRequest = WizardRequest(context: string)

  const NoIssuesText := "\U{2705}" + " No significant issues detected in this PR."

  /** Python truthiness of an `Optional[str]`: present and non-empty. */
  predicate HasText(o: Option<string>) {
    o.Some? && o.value != ""
  }

  /**
   * `(reviewer_comment_override or payload.comment_body or payload.review_body or "").strip()`:
   * the first non-empty source, stripped.
   */
  function ReviewerComment(p: ReviewPayload, override: Option<string>): (r: string)
    ensures HasText(override) ==> r == Strip(override.value)
    ensures !HasText(override) && HasText(p.commentBody) ==> r == Strip(p.commentBody.value)
    ensures !HasText(override) && !HasText(p.commentBody) && HasText(p.reviewBody) ==> r == Strip(p.reviewBody.value)
    ensures !HasText(override) && !HasText(p.commentBody) && !HasText(p.reviewBody) ==> r == ""
  {
    Strip(OrText(override, OrText(p.commentBody, OrText(p.reviewBody, ""))))
  }

  /** The prompt contents for a suggestion. */
  function SuggestionRequestFor(p: ReviewPayload, override: Option<string>): SuggestionRequest {
    SuggestionRequest(ReviewerComment(p, override), LlmContext(p))
  }

  /** `extract_first_fenced_code_block((resp.text or "").strip())`. */
  function SuggestionFromReply(text: Option<string>): (r: string)
    ensures StartsWith(r, Fence)
    ensures text.None? ==> r == EmptyDiffBlock
  {
    ExtractFirstFencedCodeBlock(Strip(OrElse(text, "")))
  }

  /** One attempt of the suggestion call: the model's reply, post-processed, or its failure. */
  function SuggestionAttempt(generate: (SuggestionRequest, nat) -> Outcome<Option<string>>,
                             request: SuggestionRequest, attempt: nat): (r: Outcome<string>)
    ensures r.Ok? <==> generate(request, attempt).Ok?
    ensures r.Ok? ==> r.value == SuggestionFromReply(generate(request, attempt).value) && StartsWith(r.value, Fence)
    ensures r.Err? ==> r.error == generate(request, attempt).error
  {
    match generate(request, attempt)
    case Ok(text) => Ok(SuggestionFromReply(text))
    case Err(e) => Err(e)
  }

  /**
   * `generate_code_suggestion(payload, cls, reviewer_comment_override)`:
   * one call through the retry wrapper. Whatever it returns is a fenced
   * block extracted from the reply of the attempt it stopped at.
   */
  function GenerateCodeSuggestion(p: ReviewPayload, cls: Classification, override: Option<string>,
                                  generate: (SuggestionRequest, nat) -> Outcome<Option<string>>): (r: RetryRun<string>)
    ensures r.outcome.Ok? ==> StartsWith(r.outcome.value, Fence)
    ensures r.outcome == SuggestionAttempt(generate, SuggestionRequestFor(p, override), r.calls)
    ensures 1 <= r.calls <= Max(1, RetryMaxAttempts)
  {
    var request := SuggestionRequestFor(p, override);
    var fn := (k: nat) => SuggestionAttempt(generate, request, k);
    var r := Retry(fn, RetryMaxAttempts);
    assert r.outcome == SuggestionAttempt(generate, request, r.calls);
    r
  }

  /** A first attempt answering with no text yields the empty diff block after that one call. */
  lemma MissingReplyGivesEmptyDiff(p: ReviewPayload, cls: Classification, override: Option<string>,
                                   generate: (SuggestionRequest, nat) -> Outcome<Option<string>>)
    requires generate(SuggestionRequestFor(p, override), 1) == Ok(None)
    ensures GenerateCodeSuggestion(p, cls, override, generate) == RetryRun(Ok(EmptyDiffBlock), 1)
  {
    var request := SuggestionRequestFor(p, override);
    var fn := (k: nat) => SuggestionAttempt(generate, request, k);
    assert fn(1) == Ok(EmptyDiffBlock);
    RetryEndsAt(fn, IsTransientError, RetryMaxAttempts, 1, 1);
  }

  /** The classification passed in plays no part in the suggestion. */
  lemma SuggestionIgnoresClassification(p: ReviewPayload, c1: Classification, c2: Classification,
                                        override: Option<string>,
                                        generate: (SuggestionRequest, nat) -> Outcome<Option<string>>)
    ensures GenerateCodeSuggestion(p, c1, override, generate) == GenerateCodeSuggestion(p, c2, override, generate)
  {
  }

  /** `(resp.text or "").strip()`, with the fixed sentence standing in for an empty review. */
  function WizardFromReply(text: Option<string>): (r: string)
    ensures r != ""
    ensures Strip(OrElse(text, "")) == "" ==> r == NoIssuesText
    ensures Strip(OrElse(text, "")) != "" ==> r == Strip(text.value)
  {
    var result := Strip(OrElse(text, ""));
    if result == "" then NoIssuesText else result
  }

  /** The prompt contents for the wizard review. */
  function WizardRequestFor(p: ReviewPayload): WizardRequest {
    WizardRequest(LlmContext(p))
  }

  /** One attempt of the wizard call. */
  function WizardAttempt(generate: (WizardRequest, nat) -> Outcome<Option<string>>,
                         request: WizardRequest, attempt: nat): (r: Outcome<string>)
    ensures r.Ok? <==> generate(request, attempt).Ok?
    ensures r.Ok? ==> r.value == WizardFromReply(generate(request, attempt).value) && r.value != ""
    ensures r.Err? ==> r.error == generate(request, attempt).error
  {
    match generate(request, attempt)
    case Ok(text) => Ok(WizardFromReply(text))
    case Err(e) => Err(e)
  }

  /**
   * `run_wizard_full_review(payload)`: one call through the retry wrapper;
   * a successful review is never empty.
   */
  function RunWizardFullReview(p: ReviewPayload, generate: (WizardRequest, nat) -> Outcome<Option<string>>): (r: RetryRun<string>)
    ensures r.outcome.Ok? ==> r.outcome.value != ""
    ensures r.outcome == WizardAttempt(generate, WizardRequestFor(p), r.calls)
    ensures 1 <= r.calls <= Max(1, RetryMaxAttempts)
  {
    var request := WizardRequestFor(p);
    var fn := (k: nat) => WizardAttempt(generate, request, k);
    var r := Retry(fn, RetryMaxAttempts);
    assert r.outcome == WizardAttempt(generate, request, r.calls);
    r
  }

  /** A first attempt that answers ends the run with that reply; an empty one becomes the no-issues sentence. */
  lemma FirstWizardReplyIsReturned(p: ReviewPayload, generate: (WizardRequest, nat) -> Outcome<Option<string>>,
                                   reply: Option<string>)
    requires generate(WizardRequestFor(p), 1) == Ok(reply)
    ensures RunWizardFullReview(p, generate) == RetryRun(Ok(WizardFromReply(reply)), 1)
    ensures reply.None? ==> WizardFromReply(reply) == NoIssuesText
  {
    var request := WizardRequestFor(p);
    var fn := (k: nat) => WizardAttempt(generate, request, k);
    RetryEndsAt(fn, IsTransientError, RetryMaxAttempts, 1, 1);
    assert Strip("") == "";
  }

  /** Stripping the reply first means the text returned never starts or ends with whitespace. */
  lemma WizardReviewIsTrimmed(text: Option<string>)
    ensures !IsSpace(WizardFromReply(text)[0]) && !IsSpace(WizardFromReply(text)[|WizardFromReply(text)| - 1])
  {
    if Strip(OrElse(text, "")) == "" {
      NoIssuesTextTrimmed();
    }
  }

  lemma NoIssuesTextTrimmed()
    ensures !IsSpace(NoIssuesText[0]) && !IsSpace(NoIssuesText[|NoIssuesText| - 1])
  {
    FirstOfAppend("\U{2705}", " No significant issues detected in this PR.");
  }
}
