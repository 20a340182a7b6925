/**
 * `analyze_review`: the decision tree that turns one review event into the
 * one comment the bot posts. The language-model steps (the wizard review,
 * the classifier, the two clarifiers and the code suggestion) are given as
 * their outcomes; the result records, besides the comment, which of them
 * the tree invoked and in what order.
 */
module Analyze {
  import opened Wrappers
  import opened Text
  import opened Models
  import opened Config
  import opened Formatting
  import opened Helpers
  import opened CodeGeneration

  /** A language-model step the decision tree may invoke. */
  datatype Step = Wizard | Classify | ClarifyQuestion | ClarifyChange | Suggest(override: Option<string>)

  /**
   * The outcomes of the steps for this event. The suggestion depends on the
   * comment override it is given; the others on the payload alone.
   */
  datatype Llm = Llm(
    wizard: Outcome<string>,
    classify: Outcome<Classification>,
    clarifyQuestion: Outcome<ClarifiedQuestion>,
    clarifyChange: Outcome<ClarifiedChange>,
    suggest: Option<string> -> Outcome<string>)

  /** Which of the bot's comments is posted, with what it shows. */
  datatype Rendering =
    | Silent
    | WizardReview(suggestions: string)
    | WizardFailure(error: Raised)
    | DebugNote(cls: Classification)
    | SuggestionBlock(block: string)
    | QuestionNote(cls: Classification, cq: ClarifiedQuestion)
    | BadChangeNote(cls: Classification, request: string, block: string)

  /** The comment chosen and the steps taken to produce it. */
  datatype Reply = Reply(rendering: Rendering, steps: seq<Step>)

  const WizardBanner := "\U{1F9D9}\U{200D}\U{2642}\U{FE0F}" + " **ContextWizard Autonomous Review**\n\n"
  const WizardDisclaimer := "\n\n---\n_This is an AI-generated code review. Please verify all suggestions before applying._"
  const WizardErrorLead := "\U{274C}" + " **Wizard Review Error**\n\nFailed to complete autonomous review: "

  /** The wizard's review framed by the banner and the disclaimer. */
  function WizardOutput(suggestions: string): string {
    WizardBanner + suggestions + WizardDisclaimer
  }

  lemma WizardOutputFramed(suggestions: string)
    ensures StartsWith(WizardOutput(suggestions), WizardBanner) && EndsWith(WizardOutput(suggestions), WizardDisclaimer)
  {
    var out := WizardOutput(suggestions);
    assert out[..|WizardBanner|] == WizardBanner;
    EndsWithAppend(WizardBanner + suggestions, WizardDisclaimer);
  }

  /** The wizard's failure: the fixed lead and at most 200 characters of the error. */
  function WizardError(e: Raised): (r: string)
    ensures StartsWith(r, WizardErrorLead) && |r| <= |WizardErrorLead| + 200
    ensures r[|WizardErrorLead|..] == if |e.message| <= 200 then e.message else e.message[..200]
  {
    WizardErrorLead + Take(e.message, 200)
  }

  /** The stand-in classification used when the classifier itself fails. */
  function ClassificationFailed(e: Raised): (c: Classification)
    ensures c.category == Unknown && c.needsReply && !c.needsClarification && c.confidence == 0.0
  {
    Classification(Unknown, true, false, 0.0, "Classification failed: " + e.typeName)
  }

  /** The stand-in classification for a failing step after classification. */
  function StepFailed(prefix: string, e: Raised): (c: Classification)
    ensures c.category == Unknown && c.needsReply && !c.needsClarification && c.confidence == 0.0
    ensures |prefix| <= |c.shortReason| <= |prefix| + 160
    ensures c.shortReason[..|prefix|] == prefix
    ensures c.shortReason[|prefix|..] == if |e.message| <= 160 then e.message else e.message[..160]
  {
    Classification(Unknown, true, false, 0.0, prefix + Take(e.message, 160))
  }

  const SuggestionFailedPrefix := "Suggestion generation failed: "
  const QuestionFailedPrefix := "Question clarification failed: "
  const ChangeFailedPrefix := "BAD_CHANGE processing failed: "

  /** `payload.inline_comment_count and payload.inline_comment_count > 0`. */
  predicate HasInlineComments(p: ReviewPayload) {
    p.inlineCommentCount.Some? && p.inlineCommentCount.value != 0 && p.inlineCommentCount.value > 0
  }

  predicate IsReviewableKind(kind: string) {
    kind == ReviewCommentKind || kind == ReviewKind || kind == IssueCommentKind
  }

  /** The text of a rendering, as posted on the pull request. */
  function Render(p: ReviewPayload, r: Rendering): (text: string)
    ensures r.Silent? ==> text == ""
    ensures r.WizardReview? ==> StartsWith(text, WizardBanner) && EndsWith(text, WizardDisclaimer)
    ensures r.WizardFailure? ==> StartsWith(text, WizardErrorLead)
    ensures r.SuggestionBlock? ==> text == r.block
  {
    if r.Silent? then ""
    else if r.WizardReview? then WizardOutputFramed(r.suggestions); WizardOutput(r.suggestions)
    else if r.WizardFailure? then WizardError(r.error)
    else if r.SuggestionBlock? then r.block
    else RenderNote(p, r)
  }

  /** The renderings that go through one of the three comment formatters. */
  function RenderNote(p: ReviewPayload, r: Rendering): string
    requires r.DebugNote? || r.QuestionNote? || r.BadChangeNote?
  {
    match r
    case DebugNote(cls) => FormatDebugComment(p, cls)
    case QuestionNote(cls, cq) => FormatClarificationQuestionComment(p, cls, cq)
    case BadChangeNote(cls, request, block) => FormatBadChangeWithSuggestionComment(cls, request, block)
  }

  /** The step sequences the decision tree can produce. */
  predicate IsTrace(steps: seq<Step>) {
    || steps == []
    || steps == [Wizard]
    || steps == [Classify]
    || steps == [Classify, Suggest(None)]
    || steps == [Classify, ClarifyQuestion]
    || steps == [Classify, ClarifyChange]
    || (|steps| == 3 && steps[..2] == [Classify, ClarifyChange] && steps[2].Suggest? && steps[2].override.Some?)
  }

  /** The branch for a classified event of a reviewable kind. */
  function Respond(p: ReviewPayload, llm: Llm, th: Thresholds, cls: Classification): (r: Reply)
    ensures r.steps != [] && r.steps[0] == Classify && IsTrace(r.steps)
  {
    if cls.category == Praise then Reply(DebugNote(cls), [Classify])
    else if cls.category == GoodChange && cls.confidence >= th.goodChange then
      match llm.suggest(None)
      case Ok(block) => Reply(SuggestionBlock(block), [Classify, Suggest(None)])
      case Err(e) => Reply(DebugNote(StepFailed(SuggestionFailedPrefix, e)), [Classify, Suggest(None)])
    else if cls.category == BadQuestion && cls.confidence >= th.badQuestion then
      match llm.clarifyQuestion
      case Ok(cq) => Reply(QuestionNote(cls, cq), [Classify, ClarifyQuestion])
      case Err(e) => Reply(DebugNote(StepFailed(QuestionFailedPrefix, e)), [Classify, ClarifyQuestion])
    else if cls.category == BadChange && cls.confidence >= th.badChange then
      match llm.clarifyChange
      case Err(e) => Reply(DebugNote(StepFailed(ChangeFailedPrefix, e)), [Classify, ClarifyChange])
      case Ok(cc) =>
        var steps := [Classify, ClarifyChange, Suggest(Some(cc.clarifiedRequest))];
        match llm.suggest(Some(cc.clarifiedRequest))
        case Ok(block) => Reply(BadChangeNote(cls, cc.clarifiedRequest, block), steps)
        case Err(e) => Reply(DebugNote(StepFailed(ChangeFailedPrefix, e)), steps)
    else if cls.category == GoodQuestion then Reply(DebugNote(cls), [Classify])
    else Reply(DebugNote(cls), [Classify])
  }

  /** `analyze_review(payload)`: exactly one comment per event. */
  function AnalyzeReview(p: ReviewPayload, llm: Llm, th: Thresholds): (r: Reply)
    ensures IsTrace(r.steps)
    ensures (r.steps == [] || r.steps == [Wizard]) <==> (p.kind == WizardReviewKind || (p.kind == ReviewKind && HasInlineComments(p)))
  {
    if p.kind == WizardReviewKind then
      match llm.wizard
      case Ok(suggestions) => Reply(WizardReview(suggestions), [Wizard])
      case Err(e) => Reply(WizardFailure(e), [Wizard])
    else if p.kind == ReviewKind && HasInlineComments(p) then
      Reply(Silent, [])
    else
      match llm.classify
      case Err(e) => Reply(DebugNote(ClassificationFailed(e)), [Classify])
      case Ok(cls) =>
        if !IsReviewableKind(p.kind) then Reply(DebugNote(cls), [Classify])
        else Respond(p, llm, th, cls)
  }

  /** `analyze_review(payload)` as posted: the text of the chosen rendering. */
  function AnalyzeReviewComment(p: ReviewPayload, llm: Llm, th: Thresholds): (r: string)
    ensures p.kind == ReviewKind && HasInlineComments(p) ==> r == ""
    ensures p.kind == WizardReviewKind && llm.wizard.Err? ==> StartsWith(r, WizardErrorLead)
  {
    Render(p, AnalyzeReview(p, llm, th).rendering)
  }

  /** A wizard command runs the wizard review alone, and frames its result or its error. */
  lemma WizardCommandSkipsClassifier(p: ReviewPayload, llm: Llm, th: Thresholds)
    requires p.kind == WizardReviewKind
    ensures AnalyzeReview(p, llm, th).steps == [Wizard]
    ensures llm.wizard.Ok? ==> AnalyzeReview(p, llm, th).rendering == WizardReview(llm.wizard.value)
    ensures llm.wizard.Err? ==> AnalyzeReview(p, llm, th).rendering == WizardFailure(llm.wizard.error)
  {
  }

  /**
   * A review that carries inline comments is answered with nothing and no
   * step runs; a review whose count is absent or zero is classified.
   */
  lemma ReviewWithInlineCommentsIsSkipped(p: ReviewPayload, llm: Llm, th: Thresholds)
    requires p.kind == ReviewKind
    ensures p.inlineCommentCount.Some? && p.inlineCommentCount.value > 0
            ==> AnalyzeReview(p, llm, th) == Reply(Silent, [])
    ensures (p.inlineCommentCount.None? || p.inlineCommentCount.value <= 0)
            ==> AnalyzeReview(p, llm, th).steps[0] == Classify
  {
  }

  /** A failing classifier ends the run with the debug note of the stand-in classification. */
  lemma ClassifierFailureGivesUnknown(p: ReviewPayload, llm: Llm, th: Thresholds)
    requires p.kind != WizardReviewKind && !(p.kind == ReviewKind && HasInlineComments(p))
    requires llm.classify.Err?
    ensures AnalyzeReview(p, llm, th) == Reply(DebugNote(ClassificationFailed(llm.classify.error)), [Classify])
  {
  }

  /** Which comment a successfully classified event of a reviewable kind gets when its step succeeds. */
  lemma ClassifiedOutcomes(p: ReviewPayload, llm: Llm, th: Thresholds)
    requires p.kind != WizardReviewKind && !(p.kind == ReviewKind && HasInlineComments(p))
    requires llm.classify.Ok? && IsReviewableKind(p.kind)
    ensures var cls := llm.classify.value;
            var r := AnalyzeReview(p, llm, th).rendering;
            && (cls.category == GoodChange && cls.confidence >= th.goodChange && llm.suggest(None).Ok?
                ==> r == SuggestionBlock(llm.suggest(None).value))
            && (cls.category == BadQuestion && cls.confidence >= th.badQuestion && llm.clarifyQuestion.Ok?
                ==> r == QuestionNote(cls, llm.clarifyQuestion.value))
            && (cls.category == BadChange && cls.confidence >= th.badChange && llm.clarifyChange.Ok?
                && llm.suggest(Some(llm.clarifyChange.value.clarifiedRequest)).Ok?
                ==> r == BadChangeNote(cls, llm.clarifyChange.value.clarifiedRequest,
                                       llm.suggest(Some(llm.clarifyChange.value.clarifiedRequest)).value))
  {
  }

  /**
   * Every other classified event gets the debug note of its own
   * classification: events of another kind, praise, good questions,
   * unknowns, and anything below its threshold.
   */
  lemma DebugForTheRest(p: ReviewPayload, llm: Llm, th: Thresholds)
    requires p.kind != WizardReviewKind && !(p.kind == ReviewKind && HasInlineComments(p))
    requires llm.classify.Ok?
    requires var cls := llm.classify.value;
             || !IsReviewableKind(p.kind)
             || cls.category == Praise || cls.category == GoodQuestion || cls.category == Unknown
             || (cls.category == GoodChange && cls.confidence < th.goodChange)
             || (cls.category == BadQuestion && cls.confidence < th.badQuestion)
             || (cls.category == BadChange && cls.confidence < th.badChange)
    ensures AnalyzeReview(p, llm, th) == Reply(DebugNote(llm.classify.value), [Classify])
  {
  }

  /** A failing step after classification ends in the debug note of an UNKNOWN with confidence 0. */
  lemma StepFailureGivesUnknown(p: ReviewPayload, llm: Llm, th: Thresholds)
    requires p.kind != WizardReviewKind && !(p.kind == ReviewKind && HasInlineComments(p))
    requires llm.classify.Ok? && IsReviewableKind(p.kind)
    ensures var cls := llm.classify.value;
            var r := AnalyzeReview(p, llm, th);
            && (cls.category == GoodChange && cls.confidence >= th.goodChange && llm.suggest(None).Err?
                ==> r.rendering == DebugNote(StepFailed(SuggestionFailedPrefix, llm.suggest(None).error)))
            && (cls.category == BadQuestion && cls.confidence >= th.badQuestion && llm.clarifyQuestion.Err?
                ==> r.rendering == DebugNote(StepFailed(QuestionFailedPrefix, llm.clarifyQuestion.error)))
            && (cls.category == BadChange && cls.confidence >= th.badChange && llm.clarifyChange.Err?
                ==> r == Reply(DebugNote(StepFailed(ChangeFailedPrefix, llm.clarifyChange.error)), [Classify, ClarifyChange]))
            && (cls.category == BadChange && cls.confidence >= th.badChange && llm.clarifyChange.Ok?
                && llm.suggest(Some(llm.clarifyChange.value.clarifiedRequest)).Err?
                ==> r == Reply(DebugNote(StepFailed(ChangeFailedPrefix, llm.suggest(Some(llm.clarifyChange.value.clarifiedRequest)).error)),
                               [Classify, ClarifyChange, Suggest(Some(llm.clarifyChange.value.clarifiedRequest))]))
  {
  }

  /**
   * The suggestion is asked for only by a confident good change, without an
   * override, or after a successful change clarification, with its request.
   */
  lemma SuggestFollowsClarification(p: ReviewPayload, llm: Llm, th: Thresholds, o: Option<string>)
    requires Suggest(o) in AnalyzeReview(p, llm, th).steps
    ensures llm.classify.Ok?
    ensures o.Some? ==> llm.clarifyChange.Ok? && o == Some(llm.clarifyChange.value.clarifiedRequest)
                        && llm.classify.value.category == BadChange
    ensures o.None? ==> llm.classify.value.category == GoodChange && llm.classify.value.confidence >= th.goodChange
  {
    var r := AnalyzeReview(p, llm, th);
    assert r.steps != [] && r.steps[0] == Classify;
    assert p.kind != WizardReviewKind;
  }

  /**
   * The good-change threshold is inclusive: at exactly the threshold the
   * suggestion is tried, just below it the debug note is posted.
   */
  lemma GoodChangeThresholdInclusive(p: ReviewPayload, llm: Llm, c: Classification)
    requires p.kind == ReviewCommentKind && llm.classify == Ok(c) && c.category == GoodChange
    ensures c.confidence == DefaultThresholds.goodChange
            ==> AnalyzeReview(p, llm, DefaultThresholds).steps == [Classify, Suggest(None)]
    ensures c.confidence < DefaultThresholds.goodChange
            ==> AnalyzeReview(p, llm, DefaultThresholds).steps == [Classify]
  {
  }

  /** Whether a classification gets acted on rises with the confidence, never the other way. */
  lemma ActingIsMonotoneInConfidence(p: ReviewPayload, llm: Llm, th: Thresholds, c: Classification, d: Classification)
    requires IsReviewableKind(p.kind) && !(p.kind == ReviewKind && HasInlineComments(p))
    requires c.category == d.category && c.confidence <= d.confidence
    ensures |AnalyzeReview(p, llm.(classify := Ok(c)), th).steps| > 1
            ==> |AnalyzeReview(p, llm.(classify := Ok(d)), th).steps| > 1
  {
  }

  /** A posted code block is exactly what the suggestion step returned, for the override it was given. */
  lemma BlocksComeFromSuggest(p: ReviewPayload, llm: Llm, th: Thresholds)
    ensures var r := AnalyzeReview(p, llm, th).rendering;
            && (r.SuggestionBlock? ==> llm.suggest(None) == Ok(r.block))
            && (r.BadChangeNote? ==> llm.suggest(Some(r.request)) == Ok(r.block))
  {
  }

  /**
   * With the suggestion step served by the code-suggestion service, every
   * code block the bot posts, alone or under a clarified change, is fenced.
   */
  lemma PostedSuggestionsAreFenced(p: ReviewPayload, llm: Llm, th: Thresholds, c: Classification,
                                   generate: (SuggestionRequest, nat) -> Outcome<Option<string>>)
    requires forall o: Option<string> :: llm.suggest(o) == GenerateCodeSuggestion(p, c, o, generate).outcome
    ensures var r := AnalyzeReview(p, llm, th).rendering;
            (r.SuggestionBlock? || r.BadChangeNote?) ==> StartsWith(r.block, Fence)
  {
    var r := AnalyzeReview(p, llm, th).rendering;
    BlocksComeFromSuggest(p, llm, th);
    if r.SuggestionBlock? {
      assert llm.suggest(None) == GenerateCodeSuggestion(p, c, None, generate).outcome;
    } else if r.BadChangeNote? {
      assert llm.suggest(Some(r.request)) == GenerateCodeSuggestion(p, c, Some(r.request), generate).outcome;
    }
  }

  /** A wizard command whose review step returns `review` posts it inside the banner. */
  lemma WizardReviewIsFramed(p: ReviewPayload, llm: Llm, th: Thresholds, review: string)
    requires p.kind == WizardReviewKind && llm.wizard == Ok(review)
    ensures AnalyzeReviewComment(p, llm, th) == WizardOutput(review)
  {
    WizardCommandSkipsClassifier(p, llm, th);
  }

  /**
   * The wizard command end to end, with the wizard step served by the
   * review service: when the first attempt answers, its stripped reply is
   * posted inside the banner, and an empty reply posts the no-issues
   * sentence there.
   */
  lemma WizardReplyIsPostedInBanner(p: ReviewPayload, llm: Llm, th: Thresholds,
                                    generate: (WizardRequest, nat) -> Outcome<Option<string>>, reply: Option<string>)
    requires p.kind == WizardReviewKind
    requires llm.wizard == RunWizardFullReview(p, generate).outcome
    requires generate(WizardRequestFor(p), 1) == Ok(reply)
    ensures AnalyzeReviewComment(p, llm, th) == WizardOutput(WizardFromReply(reply))
    ensures reply.None? ==> AnalyzeReviewComment(p, llm, th) == WizardOutput(NoIssuesText)
  {
    FirstWizardReplyIsReturned(p, generate, reply);
    WizardReviewIsFramed(p, llm, th, WizardFromReply(reply));
  }
}
