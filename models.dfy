/** The request payloads and the structured results the language model returns. */
module Models {
  import opened Wrappers

  /** One changed file of the pull request. */
  datatype FileInfo = FileInfo(
    filename: string,
    status: Option<string>,
    additions: Option<int>,
    deletions: Option<int>,
    changes: Option<int>,
    patch: Option<string>)

  /** One inline comment attached to a submitted review. */
  datatype ReviewCommentInfo = ReviewCommentInfo(
    id: int,
    body: string,
    path: Option<string>,
    diffHunk: Option<string>,
    position: Option<int>,
    line: Option<int>,
    originalLine: Option<int>,
    userLogin: Option<string>)

  /** The event kinds the bot distinguishes. */
  const ReviewCommentKind := "review_comment"
  const ReviewKind := "review"
  const IssueCommentKind := "issue_comment"
  const WizardReviewKind := "wizard_review_command"

  /** The inbound event; only `kind`, `prNumber` and `repoFullName` are required. */
  datatype ReviewPayload = ReviewPayload(
    kind: string,
    reviewBody: Option<string>,
    reviewState: Option<string>,
    commentBody: Option<string>,
    commentPath: Option<string>,
    commentDiffHunk: Option<string>,
    commentPosition: Option<int>,
    commentId: Option<int>,
    reviewerLogin: Option<string>,
    prNumber: int,
    prTitle: Option<string>,
    prBody: Option<string>,
    prAuthorLogin: Option<string>,
    repoFullName: string,
    repoOwner: Option<string>,
    repoName: Option<string>,
    files: Option<seq<FileInfo>>,
    reviewComments: Option<seq<ReviewCommentInfo>>,
    inlineCommentCount: Option<int>)

  /** The six labels the classifier may return. */
  datatype Category = Praise | GoodChange | BadChange | GoodQuestion | BadQuestion | Unknown

  /** The label as it appears on the wire and in rendered comments. */
  function CategoryName(c: Category): (r: string)
    ensures r != [] && forall i :: 0 <= i < |r| ==> 'A' <= r[i] <= 'Z' || r[i] == '_'
  {
    match c
    case Praise => "PRAISE"
    case GoodChange => "GOOD_CHANGE"
    case BadChange => "BAD_CHANGE"
    case GoodQuestion => "GOOD_QUESTION"
    case BadQuestion => "BAD_QUESTION"
    case Unknown => "UNKNOWN"
  }

  /** A model-reported confidence, validated to lie in [0, 1]. */
  type Confidence = c: real | 0.0 <= c <= 1.0

  datatype Classification = Classification(
    category: Category,
    needsReply: bool,
    needsClarification: bool,
    confidence: Confidence,
    shortReason: string)

  datatype ClarifiedQuestion = ClarifiedQuestion(
    clarifiedQuestion: string,
    confidence: Confidence,
    shortReason: string)

  datatype ClarifiedChange = ClarifiedChange(
    clarifiedRequest: string,
    confidence: Confidence,
    shortReason: string)

  /** `Literal["inline", "thread"]`. */
  datatype CommentType = Inline | Thread

  /** A row of the pending-comments table; `code` is its primary key. */
  datatype PendingComment = PendingComment(
    code: string,
    commentId: int,
    commentType: CommentType,
    owner: string,
    repo: string,
    prNumber: int,
    installationId: int,
    expiresAt: int)
}
