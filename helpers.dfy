/** Text helpers: clipping, fenced-block extraction and the language-model context. */
module Helpers {
  import opened Wrappers
  import opened Text
  import opened Models
  import opened Config

  // ---------------------------------------------------------------- clip

  const TruncationMarker := "\n\U{2026}(truncated)\U{2026}"

  /** `clip(s, n)`: absent or empty text is "", text that fits is kept, longer text is cut at `n` and marked. */
  function Clip(s: Option<string>, n: nat): (r: string)
    ensures (s.None? || s.value == "") ==> r == ""
    ensures s.Some? && |s.value| <= n ==> r == s.value
    ensures s.Some? && |s.value| > n ==> r == s.value[..n] + TruncationMarker
    ensures |r| <= n + |TruncationMarker|
  {
    match s
    case None => ""
    case Some(t) => if t == "" then "" else if |t| <= n then t else t[..n] + TruncationMarker
  }

  /** Clipping twice to the same limit changes nothing more. */
  lemma ClipIdempotent(s: Option<string>, n: nat)
    ensures Clip(Some(Clip(s, n)), n) == Clip(s, n)
  {
    if s.Some? && |s.value| > n {
      var once := s.value[..n] + TruncationMarker;
      assert once[..n] == s.value[..n];
    }
  }

  // ---------------------------------------------------- fenced code blocks

  const Fence := "```"
  const ClosingFence := "\n```"
  const EmptyDiffBlock := "```diff\n```"

  /** The characters of the class `[a-zA-Z0-9_-]`. */
  predicate IsTagChar(c: char) {
    ('a' <= c <= 'z') || ('A' <= c <= 'Z') || ('0' <= c <= '9') || c == '_' || c == '-'
  }

  /** The end of the longest run of tag characters starting at `k`. */
  function TagEnd(t: string, k: nat): (e: nat)
    requires k <= |t|
    ensures k <= e <= |t|
    ensures forall j :: k <= j < e ==> IsTagChar(t[j])
    ensures e == |t| || !IsTagChar(t[e])
    decreases |t| - k
  {
    if k < |t| && IsTagChar(t[k]) then TagEnd(t, k + 1) else k
  }

  /**
   * The pattern ```` ```[a-zA-Z0-9_-]*\n.*?\n``` ```` (dot matching newlines)
   * matches `t[start..end]` with its tag ending at the newline `nl`.
   */
  ghost predicate MatchesVia(t: string, start: int, nl: int, end: int) {
    && OccursAt(t, Fence, start)
    && start + 3 <= nl < |t|
    && (forall j :: start + 3 <= j < nl ==> IsTagChar(t[j]))
    && t[nl] == '\n'
    && nl + 1 <= end - 4
    && OccursAt(t, ClosingFence, end - 4)
  }

  /** The pattern matches `t[start..end]`. */
  ghost predicate IsMatch(t: string, start: int, end: int) {
    exists nl | start + 3 <= nl < |t| :: MatchesVia(t, start, nl, end)
  }

  /** The end of the shortest match starting at `start`, if there is one. */
  function MatchEndAt(t: string, start: nat): (r: Option<nat>)
    ensures r.Some? ==> IsMatch(t, start, r.value)
    ensures forall end :: IsMatch(t, start, end) ==> r.Some? && r.value <= end
  {
    if !OccursAt(t, Fence, start) then None
    else
      var nl := TagEnd(t, start + 3);
      if nl < |t| && t[nl] == '\n' then
        match FindFrom(t, ClosingFence, nl + 1)
        case Some(j) =>
          assert MatchesVia(t, start, nl, j + 4);
          TagEndIsTheOnlyNewline(t, start, nl);
          Some(j + 4)
        case None =>
          TagEndIsTheOnlyNewline(t, start, nl);
          None
      else
        TagEndIsTheOnlyNewline(t, start, nl);
        None
  }

  /** Since a newline is not a tag character, every match puts its newline where the tag run ends. */
  lemma TagEndIsTheOnlyNewline(t: string, start: nat, nl: nat)
    requires OccursAt(t, Fence, start) && nl == TagEnd(t, start + 3)
    ensures forall nl', end :: MatchesVia(t, start, nl', end) ==> nl' == nl
  {
    forall nl', end | MatchesVia(t, start, nl', end)
      ensures nl' == nl
    {
      assert !IsTagChar(t[nl']);
    }
  }

  /** The leftmost start at or after `from` where the pattern matches, with its shortest end. */
  function FirstMatch(t: string, from: nat): (r: Option<(nat, nat)>)
    ensures r.Some? ==> from <= r.value.0 && IsMatch(t, r.value.0, r.value.1)
    ensures r.Some? ==> forall end :: IsMatch(t, r.value.0, end) ==> r.value.1 <= end
    ensures forall s, end :: from <= s && IsMatch(t, s, end) ==> r.Some? && r.value.0 <= s
    decreases |t| - from
  {
    if from + 3 > |t| then
      assert forall s, end :: from <= s && IsMatch(t, s, end) ==> OccursAt(t, Fence, s);
      None
    else
      match MatchEndAt(t, from)
      case Some(end) => Some((from, end))
      case None => FirstMatch(t, from + 1)
  }

  /** `extract_first_fenced_code_block(text)`: it never fails and always yields a fenced block. */
  function ExtractFirstFencedCodeBlock(text: string): (r: string)
    ensures StartsWith(r, Fence)
    ensures text == "" ==> r == EmptyDiffBlock
  {
    if text == "" then EmptyDiffBlock
    else
      match FirstMatch(text, 0)
      case Some((start, end)) =>
        MatchIsTrimmed(text, start, end);
        Strip(text[start..end])
      case None =>
        match FindFrom(text, Fence, 0)
        case Some(first) =>
          StripKeepsFence(text, first);
          Strip(text[first..])
        case None => WrapInFence(Strip(text))
  }

  /** The last resort of the extractor: the whole text inside a plain fence. */
  function WrapInFence(body: string): (r: string)
    ensures StartsWith(r, Fence)
  {
    var r := "```\n" + body + "\n```";
    assert r[..3] == Fence;
    r
  }

  /** A match begins and ends with a backtick, so stripping leaves it whole. */
  lemma MatchIsTrimmed(t: string, start: nat, end: nat)
    requires IsMatch(t, start, end)
    ensures start + 8 <= end <= |t|
    ensures Strip(t[start..end]) == t[start..end] && StartsWith(t[start..end], Fence)
  {
    var nl :| start + 3 <= nl < |t| && MatchesVia(t, start, nl, end);
    var m := t[start..end];
    assert t[start..start + 3] == Fence;
    assert m[0] == t[start] == '`';
    assert t[end - 4..end] == ClosingFence;
    assert t[end - 1] == t[end - 4..end][3] == '`';
    assert m[|m| - 1] == t[end - 1];
    StripKeepsTrimmed(m);
    assert m[..3] == t[start..start + 3];
  }

  /** Stripping the suffix from a fence on keeps the fence in front. */
  lemma StripKeepsFence(t: string, first: nat)
    requires OccursAt(t, Fence, first)
    ensures StartsWith(Strip(t[first..]), Fence)
  {
    var s := t[first..];
    assert s[..3] == t[first..first + 3];
    assert !IsSpace(s[0]) && !IsSpace(s[2]);
    StripOfTrimmedStart(s);
    var r := StripRight(s);
    assert |r| > 2;
    assert r[..3] == s[..3];
  }

  /** When the pattern matches, the extractor returns the leftmost, shortest match. */
  lemma ExtractReturnsFirstMatch(text: string, start: nat, end: nat)
    requires IsMatch(text, start, end)
    requires forall s, e :: IsMatch(text, s, e) ==> start < s || (start == s && end <= e)
    ensures ExtractFirstFencedCodeBlock(text) == text[start..end]
  {
    var m := FirstMatch(text, 0);
    assert m.Some?;
    assert m.value.0 == start;
    assert m.value.1 == end;
    MatchIsTrimmed(text, start, end);
  }

  /** With no match, the suffix from the first fence is returned, else the whole text is fenced. */
  lemma ExtractWithoutMatch(text: string)
    requires text != []
    requires forall s, e :: !IsMatch(text, s, e)
    ensures forall first :: OccursAt(text, Fence, first) && (forall j :: 0 <= j < first ==> !OccursAt(text, Fence, j))
              ==> ExtractFirstFencedCodeBlock(text) == Strip(text[first..])
    ensures !Contains(text, Fence) ==> ExtractFirstFencedCodeBlock(text) == WrapInFence(Strip(text))
  {
    var m := FirstMatch(text, 0);
    assert m.None?;
    var found := FindFrom(text, Fence, 0);
    forall first | OccursAt(text, Fence, first) && (forall j :: 0 <= j < first ==> !OccursAt(text, Fence, j))
      ensures found == Some(first)
    {
      assert found.Some?;
      assert first >= found.value;
      assert found.value >= first;
    }
    if !Contains(text, Fence) {
      assert found.None?;
    }
  }

  // ------------------------------------------------- language-model context

  const InlineIntro := "\n\nInline comments in this review (showing up to 5):\n"

  function Header(p: ReviewPayload): string {
    Strip("\nRepo: " + p.repoFullName
      + "\nPR: #" + IntToString(p.prNumber) + " \U{2014} " + OrText(p.prTitle, "")
      + "\nPR author: " + ShowText(p.prAuthorLogin)
      + "\nPR description (truncated):\n" + Clip(p.prBody, MaxPrBodyLength) + "\n")
  }

  predicate IsKnownKind(kind: string) {
    kind == ReviewCommentKind || kind == IssueCommentKind || kind == ReviewKind || kind == WizardReviewKind
  }

  /** The text an event of unrecognised kind shows: `comment_body or review_body or ""`. */
  function OtherEventText(p: ReviewPayload): string {
    OrText(p.commentBody, OrText(p.reviewBody, ""))
  }

  /** The opening lines of the event section for `kind`: the event name and who triggered it. */
  function EventHeading(kind: string): (r: string)
    ensures r != [] && r[|r| - 1] == ':'
  {
    if kind == ReviewCommentKind then "\n\nEvent: inline review comment\nReviewer:"
    else if kind == IssueCommentKind then "\n\nEvent: PR conversation comment (from conversation tab)\nCommenter:"
    else if kind == ReviewKind then "\n\nEvent: review submitted\nReviewer:"
    else if kind == WizardReviewKind then "\n\nEvent: Autonomous wizard review requested\nRequester:"
    else "\n\nEvent: " + kind + "\nUser:"
  }

  /** The rest of the event section for `kind`, after its heading; user text is clipped per field. */
  function EventDetails(p: ReviewPayload): string {
    var who := " " + ShowText(p.reviewerLogin);
    if p.kind == ReviewCommentKind then
      who + "\nFile path: " + OrText(p.commentPath, "")
        + "\nOriginal comment: " + Clip(Some(OrText(p.commentBody, "")), MaxCommentLength)
        + "\nDiff hunk (truncated):\n" + Clip(p.commentDiffHunk, MaxDiffHunkLength) + "\n"
    else if p.kind == IssueCommentKind then
      who + "\nComment text: " + Clip(Some(OrText(p.commentBody, "")), MaxCommentLength)
        + "\n\nContext: This is a general comment on the PR, not tied to a specific line of code."
        + "\nThe commenter may be asking a question, requesting changes, or providing feedback about the PR as a whole.\n"
    else if p.kind == ReviewKind then
      who + "\nState: " + ShowText(p.reviewState)
        + "\nReview body: " + Clip(Some(OrText(p.reviewBody, "")), MaxReviewLength) + "\n"
    else if p.kind == WizardReviewKind then
      who + "\nTask: Perform comprehensive code review of all changes\n"
    else
      who + "\nComment: " + Clip(Some(OtherEventText(p)), MaxCommentLength) + "\n"
  }

  /** The one event section chosen by `kind`; only an unrecognised kind without text adds none. */
  function EventSection(p: ReviewPayload): (r: string)
    ensures r == "" <==> !IsKnownKind(p.kind) && OtherEventText(p) == ""
    ensures r != "" ==> StartsWith(r, EventHeading(p.kind))
  {
    if IsKnownKind(p.kind) || OtherEventText(p) != "" then
      SectionOf(EventHeading(p.kind), EventDetails(p))
    else ""
  }

  /** A section `(heading + rest).rstrip()`; the heading ends with ':' and so survives. */
  function SectionOf(heading: string, rest: string): (r: string)
    requires heading != [] && heading[|heading| - 1] == ':'
    ensures StartsWith(r, heading)
  {
    var s := heading + rest;
    var r := StripRight(s);
    assert s[|heading| - 1] == ':';
    assert |r| >= |heading|;
    assert r[..|heading|] == s[..|heading|];
    r
  }

  /** `line or position`: a missing or zero line falls back to the position. */
  function LineOrPosition(c: ReviewCommentInfo): string {
    if c.line.Some? && c.line.value != 0 then IntToString(c.line.value) else ShowInt(c.position)
  }

  function InlineLine(c: ReviewCommentInfo): string {
    "- id=" + IntToString(c.id) + " file=" + ShowText(c.path) + " line=" + LineOrPosition(c)
      + " by " + ShowText(c.userLogin) + ": " + Clip(Some(c.body), MaxInlineCommentLength) + "\n"
  }

  /** The lines of the listed inline comments, in order. */
  function InlineLines(cs: seq<ReviewCommentInfo>): string {
    if cs == [] then "" else InlineLines(cs[..|cs| - 1]) + InlineLine(cs[|cs| - 1])
  }

  lemma InlineLinesExtend(cs: seq<ReviewCommentInfo>, i: nat)
    requires i < |cs|
    ensures InlineLines(cs[..i + 1]) == InlineLines(cs[..i]) + InlineLine(cs[i])
  {
    assert cs[..i + 1][..i] == cs[..i];
  }

  /** The inline-comment block: nothing for no comments, otherwise the first five. */
  function InlineBlock(cs: seq<ReviewCommentInfo>): string {
    if cs == [] then "" else InlineIntro + InlineLines(Take(cs, 5))
  }

  /** The line announcing how many files the pull request changes. */
  function FilesCountLine(count: nat): string {
    "Changed files: " + NatToString(count) + " (showing up to 6 patches, truncated)"
  }

  function FilesIntro(count: nat): string {
    "\n\n" + FilesCountLine(count) + "\n"
  }

  function FileEntry(f: FileInfo): string {
    "\n---\nFILE: " + f.filename + "\nSTATUS: " + ShowText(f.status)
      + " (+" + ShowInt(f.additions) + "/-" + ShowInt(f.deletions) + ", changes=" + ShowInt(f.changes) + ")\n"
      + "PATCH:\n" + Clip(f.patch, MaxPatchLength) + "\n"
  }

  /** The entries of the listed files, in order. */
  function FileEntries(fs: seq<FileInfo>): string {
    if fs == [] then "" else FileEntries(fs[..|fs| - 1]) + FileEntry(fs[|fs| - 1])
  }

  lemma FileEntriesExtend(fs: seq<FileInfo>, i: nat)
    requires i < |fs|
    ensures FileEntries(fs[..i + 1]) == FileEntries(fs[..i]) + FileEntry(fs[i])
  {
    assert fs[..i + 1][..i] == fs[..i];
  }

  /** The file block: nothing for no files, otherwise the total count and the first six. */
  function FilesBlock(fs: seq<FileInfo>): string {
    if fs == [] then "" else FilesIntro(|fs|) + FileEntries(Take(fs, 6))
  }

  /** The context `build_llm_context` assembles for a payload, before the final strip. */
  function ContextParts(p: ReviewPayload): string {
    Header(p) + EventSection(p) + InlineBlock(OrElse(p.reviewComments, [])) + FilesBlock(OrElse(p.files, []))
  }

  /** The context `build_llm_context` returns for a payload: its parts, stripped, so it neither starts nor ends with whitespace. */
  function LlmContext(p: ReviewPayload): (r: string)
    ensures Trimmed(r)
  {
    StripIsTrimmed(ContextParts(p));
    Strip(ContextParts(p))
  }

  /** The inline-comment loop: appends the intro and the first five comment lines, if there are comments. */
  method AppendInlineBlock(base: string, comments: seq<ReviewCommentInfo>) returns (r: string)
    ensures r == base + InlineBlock(comments)
  {
    r := base;
    if comments != [] {
      r := r + InlineIntro;
      var shown := Take(comments, 5);
      for i := 0 to |shown|
        invariant r == base + InlineIntro + InlineLines(shown[..i])
      {
        InlineLinesExtend(shown, i);
        AppendAssoc(base + InlineIntro, InlineLines(shown[..i]), InlineLine(shown[i]));
        r := r + InlineLine(shown[i]);
      }
      assert shown[..|shown|] == shown;
      AppendAssoc(base, InlineIntro, InlineLines(shown));
    }
  }

  /** The file loop: appends the count line and the first six file entries, if there are files. */
  method AppendFilesBlock(base: string, files: seq<FileInfo>) returns (r: string)
    ensures r == base + FilesBlock(files)
  {
    r := base;
    if files != [] {
      r := r + FilesIntro(|files|);
      var shown := Take(files, 6);
      for i := 0 to |shown|
        invariant r == base + FilesIntro(|files|) + FileEntries(shown[..i])
      {
        FileEntriesExtend(shown, i);
        AppendAssoc(base + FilesIntro(|files|), FileEntries(shown[..i]), FileEntry(shown[i]));
        r := r + FileEntry(shown[i]);
      }
      assert shown[..|shown|] == shown;
      AppendAssoc(base, FilesIntro(|files|), FileEntries(shown));
    }
  }

  /** `build_llm_context(payload)`: header, event section, inline comments, files, then strip. */
  method BuildLlmContext(p: ReviewPayload) returns (ctx: string)
    ensures ctx == LlmContext(p)
  {
    var base := Header(p);
    base := base + EventSection(p);
    base := AppendInlineBlock(base, OrElse(p.reviewComments, []));
    base := AppendFilesBlock(base, OrElse(p.files, []));
    ctx := Strip(base);
  }

  /** The header and the event section read neither the inline comments nor the files. */
  lemma OpeningIgnoresLists(p: ReviewPayload, q: ReviewPayload)
    requires p.(reviewComments := None, files := None) == q.(reviewComments := None, files := None)
    ensures Header(p) == Header(q) && EventSection(p) == EventSection(q)
  {
    assert p.kind == q.kind && p.reviewerLogin == q.reviewerLogin;
  }

  /** Inline comments after the fifth never reach the context. */
  lemma ContextListsAtMostFiveComments(p: ReviewPayload, cs: seq<ReviewCommentInfo>)
    ensures LlmContext(p.(reviewComments := Some(cs))) == LlmContext(p.(reviewComments := Some(Take(cs, 5))))
  {
    var p1 := p.(reviewComments := Some(cs));
    var p2 := p.(reviewComments := Some(Take(cs, 5)));
    OpeningIgnoresLists(p1, p2);
    assert Take(Take(cs, 5), 5) == Take(cs, 5);
    assert InlineBlock(cs) == InlineBlock(Take(cs, 5));
  }

  /** Files after the sixth never reach the context; only their number does. */
  lemma ContextListsAtMostSixFiles(p: ReviewPayload, fs: seq<FileInfo>, gs: seq<FileInfo>)
    requires |fs| == |gs| && Take(fs, 6) == Take(gs, 6)
    ensures LlmContext(p.(files := Some(fs))) == LlmContext(p.(files := Some(gs)))
  {
    var p1 := p.(files := Some(fs));
    var p2 := p.(files := Some(gs));
    OpeningIgnoresLists(p1, p2);
    assert FilesBlock(fs) == FilesBlock(gs);
  }

  /** The count line starts with a letter and ends with a parenthesis, so no strip reaches into it. */
  lemma CountLineTrimmed(count: nat)
    ensures FilesCountLine(count) != []
    ensures !IsSpace(FilesCountLine(count)[0]) && !IsSpace(FilesCountLine(count)[|FilesCountLine(count)| - 1])
  {
    var head := "Changed files: " + NatToString(count);
    var tail := " (showing up to 6 patches, truncated)";
    assert FilesCountLine(count) == head + tail;
    FirstOfAppend(head, tail);
    LastOfAppend(head, tail);
  }

  /** The file block, after whatever precedes it, holds the count line two characters in. */
  lemma FilesBlockHoldsCount(opening: string, count: nat, entries: string)
    ensures OccursAt(opening + FilesIntro(count) + entries, FilesCountLine(count), |opening| + 2)
  {
    var needle := FilesCountLine(count);
    var prefix := opening + "\n\n";
    var rest := "\n" + entries;
    assert opening + FilesIntro(count) + entries == prefix + needle + rest by {
      AppendAssoc("\n\n" + needle, "\n", entries);
      AppendAssoc("\n\n", needle, rest);
      AppendAssoc(opening, "\n\n", needle + rest);
      AppendAssoc(prefix, needle, rest);
      AppendAssoc(opening, FilesIntro(count), entries);
    }
    OccursInMiddle(prefix, needle, rest);
  }

  /** The "Changed files:" line reports the total number of files, not the number shown. */
  lemma ContextReportsFileCount(p: ReviewPayload)
    requires OrElse(p.files, []) != []
    ensures Contains(LlmContext(p), FilesCountLine(|OrElse(p.files, [])|))
  {
    var fs := OrElse(p.files, []);
    var opening := Header(p) + EventSection(p) + InlineBlock(OrElse(p.reviewComments, []));
    var whole := opening + FilesBlock(fs);
    assert FilesBlock(fs) == FilesIntro(|fs|) + FileEntries(Take(fs, 6));
    AppendAssoc(opening, FilesIntro(|fs|), FileEntries(Take(fs, 6)));
    FilesBlockHoldsCount(opening, |fs|, FileEntries(Take(fs, 6)));
    CountLineTrimmed(|fs|);
    StripKeepsInfix(whole, FilesCountLine(|fs|), |opening| + 2);
  }
}
