/**
 * The three comment bodies the bot posts: the classification-only debug
 * note, the clarified question, and the clarified change with its
 * suggested code. Each is a fixed list of lines joined by newlines and
 * stripped; the lists are short literals, so the joins are spelled out.
 */
module Formatting {
  import opened Wrappers
  import opened Text
  import opened Models

  /** `t[:limit] + "…"` when `t` is longer than `limit`, else `t`. */
  function Shorten(t: string, limit: nat): (r: string)
    ensures |t| <= limit ==> r == t
    ensures |t| > limit ==> |r| == limit + 1 && r[..limit] == t[..limit] && r[limit] == '\U{2026}'
  {
    if |t| > limit then t[..limit] + "\U{2026}" else t
  }

  /** `f"> {t}".replace("\n", "\n> ")`: the text as a Markdown block quote. */
  function QuoteLine(t: string): (r: string)
    ensures StartsWith(r, "> ")
    ensures forall i :: 0 <= i < |r| && r[i] == '\n' ==> i + 2 < |r| && r[i + 1] == '>' && r[i + 2] == ' '
  {
    QuoteKeepsLead(t);
    QuoteNewlines("> " + t)
  }

  /** The leading "> " has no newline in it, so quoting leaves it in place. */
  lemma QuoteKeepsLead(t: string)
    ensures StartsWith(QuoteNewlines("> " + t), "> ")
  {
    var s := "> " + t;
    assert s[0] == '>' && s[1..] == " " + t;
    assert (" " + t)[0] == ' ' && (" " + t)[1..] == t;
    assert QuoteNewlines(s) == ['>'] + ([' '] + QuoteNewlines(t));
  }

  /** Removing the quote marks gives back the quoted text, behind its leading "> ". */
  lemma QuoteLineRoundTrip(t: string)
    ensures Unquote(QuoteLine(t)) == "> " + t
  {
    UnquoteQuoteNewlines("> " + t);
  }

  /** A confidence in hundredths, rounded half up. */
  function Hundredths(c: Confidence): (h: nat)
    ensures h <= 100
  {
    (c * 100.0 + 0.5).Floor
  }

  /** `f"{c:.2f}"` for a confidence in [0, 1]: one digit, a point, two digits. */
  function FormatConf(c: Confidence): (r: string)
    ensures |r| == 4 && r[1] == '.'
    ensures forall i | 0 <= i < 4 && i != 1 :: '0' <= r[i] <= '9'
  {
    var h := Hundredths(c);
    [DigitChar(h / 100), '.', DigitChar(h / 10 % 10), DigitChar(h % 10)]
  }

  function DigitValue(d: char): nat {
    if '0' <= d <= '9' then d as nat - '0' as nat else 0
  }

  /** Reads a rendered "d.dd" back as a number of hundredths. */
  function ReadHundredths(r: string): nat
    requires |r| == 4
  {
    100 * DigitValue(r[0]) + 10 * DigitValue(r[2]) + DigitValue(r[3])
  }

  /** The rendered confidence reads back as the rounded confidence. */
  lemma FormatConfRoundTrip(c: Confidence)
    ensures ReadHundredths(FormatConf(c)) == Hundredths(c)
  {
    var h := Hundredths(c);
    var r := FormatConf(c);
    assert DigitValue(r[0]) == h / 100;
    assert DigitValue(r[2]) == h / 10 % 10;
    assert DigitValue(r[3]) == h % 10;
  }

  /** `f"- category: **{cls.category}**"`. */
  function CategoryLine(c: Category): string {
    "- category: **" + CategoryName(c) + "**"
  }

  const DebugTitle := "\U{1F9E0}" + " **ContextWizard (debug: classification only)**"
  const DebugFooter := "_(classification only; no follow-up action taken)_"
  const QuestionTitle := "\U{2753}" + " **ContextWizard (clarified question)**"
  /** The heading of the rewrite, with the newline the join puts after it. */
  const ProposedHeadingLine := "**Proposed clarified version:**\n"
  const SuggestedHeading := "2- **suggested code change:**"

  lemma TitlesStartTrimmed()
    ensures DebugTitle != [] && !IsSpace(DebugTitle[0])
    ensures QuestionTitle != [] && !IsSpace(QuestionTitle[0])
  {
  }

  /** The text a debug comment quotes: the review body for a review, otherwise the comment body. */
  function DebugOriginal(p: ReviewPayload): string {
    Strip(OrElse(if p.kind == ReviewKind then p.reviewBody else p.commentBody, ""))
  }

  /** The confidence line of the debug comment and the heading of the quote, with the blank line between. */
  function DebugConfidenceLines(cls: Classification): string {
    "\n- confidence: " + FormatConf(cls.confidence) + "\n\n**Original text:**\n"
  }

  /** The quoted original, a blank line and the footer. */
  function DebugQuoted(p: ReviewPayload): string {
    QuoteLine(Shorten(DebugOriginal(p), 500)) + "\n\n" + DebugFooter
  }

  /** The eight debug lines joined by newlines, before the final strip. */
  function DebugJoined(p: ReviewPayload, cls: Classification): string {
    DebugTitle + "\n" + CategoryLine(cls.category) + DebugConfidenceLines(cls) + DebugQuoted(p)
  }

  /** `format_debug_comment(payload, cls)`: the strip finds nothing to remove. */
  function FormatDebugComment(p: ReviewPayload, cls: Classification): (r: string)
    ensures r == DebugJoined(p, cls)
  {
    var joined := DebugJoined(p, cls);
    TitlesStartTrimmed();
    FirstOfAppend(DebugTitle, "\n");
    FirstOfAppend(DebugTitle + "\n", CategoryLine(cls.category));
    FirstOfAppend(DebugTitle + "\n" + CategoryLine(cls.category), DebugConfidenceLines(cls));
    FirstOfAppend(DebugTitle + "\n" + CategoryLine(cls.category) + DebugConfidenceLines(cls), DebugQuoted(p));
    LastOfAppend(QuoteLine(Shorten(DebugOriginal(p), 500)) + "\n\n", DebugFooter);
    LastOfAppend(DebugTitle + "\n" + CategoryLine(cls.category) + DebugConfidenceLines(cls), DebugQuoted(p));
    StripKeepsTrimmed(joined);
    Strip(joined)
  }

  /** Two category names followed by the closing "**" agree only when the names do. */
  lemma NameBeforeStars(n1: string, n2: string, rest1: string, rest2: string)
    requires forall i :: 0 <= i < |n1| ==> 'A' <= n1[i] <= 'Z' || n1[i] == '_'
    requires forall i :: 0 <= i < |n2| ==> 'A' <= n2[i] <= 'Z' || n2[i] == '_'
    requires n1 + "**" + rest1 == n2 + "**" + rest2
    ensures n1 == n2
  {
    var s1 := n1 + "**" + rest1;
    var s2 := n2 + "**" + rest2;
    assert s1[|n1|] == '*';
    assert s2[|n2|] == '*';
    assert |n1| == |n2|;
    assert n1 == s1[..|n1|] == s2[..|n2|] == n2;
  }

  /** Distinct categories have distinct names. */
  lemma CategoryNameInjective(c1: Category, c2: Category)
    requires CategoryName(c1) == CategoryName(c2)
    ensures c1 == c2
  {
  }

  /** A category line followed by anything starts with the category's name right after "- category: **". */
  lemma CategoryLineSplit(head: string, c: Category, rest: string)
    ensures head + CategoryLine(c) + rest == (head + "- category: **") + (CategoryName(c) + "**" + rest)
  {
    var n := CategoryName(c);
    AppendAssoc("- category: **", n, "**");
    AppendAssoc(head, "- category: **" + n + "**", rest);
    AppendAssoc(head, "- category: **", n + "**");
    AppendAssoc(head + "- category: **", n + "**", rest);
    AppendAssoc(n, "**", rest);
  }

  /** Whatever precedes and follows them, two category lines in the same place name the same category. */
  lemma CategoryLinesAgree(head: string, c1: Category, c2: Category, rest1: string, rest2: string)
    requires head + CategoryLine(c1) + rest1 == head + CategoryLine(c2) + rest2
    ensures c1 == c2
  {
    CategoryLineSplit(head, c1, rest1);
    CategoryLineSplit(head, c2, rest2);
    CancelPrefix(head + "- category: **", CategoryName(c1) + "**" + rest1, CategoryName(c2) + "**" + rest2);
    NameBeforeStars(CategoryName(c1), CategoryName(c2), rest1, rest2);
    CategoryNameInjective(c1, c2);
  }

  /** The debug comment names the category: two comments that agree have the same category. */
  lemma DebugCommentDeterminesCategory(p: ReviewPayload, c1: Classification, c2: Classification)
    requires FormatDebugComment(p, c1) == FormatDebugComment(p, c2)
    ensures c1.category == c2.category
  {
    var head := DebugTitle + "\n";
    var line1, line2 := CategoryLine(c1.category), CategoryLine(c2.category);
    var rest1 := DebugConfidenceLines(c1) + DebugQuoted(p);
    var rest2 := DebugConfidenceLines(c2) + DebugQuoted(p);
    assert DebugJoined(p, c1) == head + line1 + rest1 by {
      AppendAssoc(head + line1, DebugConfidenceLines(c1), DebugQuoted(p));
    }
    assert DebugJoined(p, c2) == head + line2 + rest2 by {
      AppendAssoc(head + line2, DebugConfidenceLines(c2), DebugQuoted(p));
    }
    CategoryLinesAgree(head, c1.category, c2.category, rest1, rest2);
  }

  /**
   * The debug comment ends with the quoted original, which unquotes to
   * the original text (cut to 500 characters) behind its "> ".
   */
  lemma DebugCommentQuotesOriginal(p: ReviewPayload, cls: Classification)
    ensures EndsWith(FormatDebugComment(p, cls), QuoteLine(Shorten(DebugOriginal(p), 500)) + "\n\n" + DebugFooter)
    ensures Unquote(QuoteLine(Shorten(DebugOriginal(p), 500))) == "> " + Shorten(DebugOriginal(p), 500)
  {
    EndsWithAppend(DebugTitle + "\n" + CategoryLine(cls.category) + DebugConfidenceLines(cls), DebugQuoted(p));
    QuoteLineRoundTrip(Shorten(DebugOriginal(p), 500));
  }

  /** The text a clarification quotes: `comment_body or review_body or ""`, stripped. */
  function QuestionOriginal(p: ReviewPayload): string {
    Strip(OrText(p.commentBody, OrText(p.reviewBody, "")))
  }

  /** The clarification's lines from the title through the quoted original and the blank line after it. */
  function QuestionLead(p: ReviewPayload, cls: Classification, cq: ClarifiedQuestion): string {
    QuestionTitle + "\n" + CategoryLine(cls.category) + "\n"
      + "- classification_confidence: " + FormatConf(cls.confidence) + "\n"
      + "- rewrite_confidence: " + FormatConf(cq.confidence) + "\n\n"
      + "**Original question:**\n" + QuoteLine(Shorten(QuestionOriginal(p), 800)) + "\n\n"
  }

  /** Everything the clarification holds before the quoted rewrite. */
  function QuestionHead(p: ReviewPayload, cls: Classification, cq: ClarifiedQuestion): string {
    QuestionLead(p, cls, cq) + ProposedHeadingLine
  }

  /**
   * `format_clarification_question_comment(payload, cls, cq)`: the final
   * strip can only trim whitespace the quoted rewrite ends with.
   */
  function FormatClarificationQuestionComment(p: ReviewPayload, cls: Classification, cq: ClarifiedQuestion): (r: string)
    ensures r == QuestionHead(p, cls, cq) + StripRight(QuoteLine(cq.clarifiedQuestion))
  {
    var head := QuestionHead(p, cls, cq);
    var last := QuoteLine(cq.clarifiedQuestion);
    QuestionHeadStart(p, cls, cq);
    FirstOfAppend(head, last);
    StripOfTrimmedStart(head + last);
    QuoteStartsWithMark(cq.clarifiedQuestion);
    StripRightAppend(head, last);
    Strip(head + last)
  }

  lemma QuestionHeadStart(p: ReviewPayload, cls: Classification, cq: ClarifiedQuestion)
    ensures QuestionHead(p, cls, cq) != [] && !IsSpace(QuestionHead(p, cls, cq)[0])
  {
    var lead := QuestionLead(p, cls, cq);
    TitlesStartTrimmed();
    assert lead[0] == QuestionTitle[0];
    FirstOfAppend(lead, ProposedHeadingLine);
  }

  /** A quoted line starts with the quote mark, so stripping its end never empties it. */
  lemma QuoteStartsWithMark(t: string)
    ensures |QuoteLine(t)| >= 2 && QuoteLine(t)[0] == '>'
    ensures StripRight(QuoteLine(t)) != []
  {
    var q := QuoteLine(t);
    assert ("> " + t)[0] == '>' && ("> " + t)[1] == ' ';
    assert q[0] == '>';
    assert !IsSpace(q[0]);
  }

  /**
   * A non-empty clarified question with no trailing whitespace appears whole at the
   * end of the comment, and unquotes back to itself behind "> ".
   */
  lemma ClarificationShowsRewrite(p: ReviewPayload, cls: Classification, cq: ClarifiedQuestion)
    requires cq.clarifiedQuestion != [] && !IsSpace(cq.clarifiedQuestion[|cq.clarifiedQuestion| - 1])
    ensures EndsWith(FormatClarificationQuestionComment(p, cls, cq),
                     ProposedHeadingLine + QuoteLine(cq.clarifiedQuestion))
    ensures Unquote(QuoteLine(cq.clarifiedQuestion)) == "> " + cq.clarifiedQuestion
  {
    var t := cq.clarifiedQuestion;
    var q := QuoteLine(t);
    QuoteEndsLikeText(t);
    StripRightTrimmed(q);
    AppendAssoc(QuestionLead(p, cls, cq), ProposedHeadingLine, q);
    EndsWithAppend(QuestionLead(p, cls, cq), ProposedHeadingLine + q);
    QuoteLineRoundTrip(t);
  }

  /** Quoting keeps the last character of a text that does not end in whitespace. */
  lemma QuoteEndsLikeText(t: string)
    requires t != [] && !IsSpace(t[|t| - 1])
    ensures !IsSpace(QuoteLine(t)[|QuoteLine(t)| - 1])
  {
    QuoteStartsWithMark(t);
    LastOfAppend("> ", t);
    QuoteNewlinesLast("> " + t);
  }

  /** `s.replace("\n", "\n> ")` ends with the same character as `s` unless that is a newline. */
  lemma {:induction false} QuoteNewlinesLast(s: string)
    requires s != [] && s[|s| - 1] != '\n'
    ensures QuoteNewlines(s) != [] && QuoteNewlines(s)[|QuoteNewlines(s)| - 1] == s[|s| - 1]
  {
    if |s| > 1 {
      QuoteNewlinesLast(s[1..]);
    }
  }

  /** Stripping the end of a line that ends in a non-space removes just its newline. */
  lemma StripRightNewline(h: string)
    requires h != [] && !IsSpace(h[|h| - 1])
    ensures StripRight(h + "\n") == h
  {
    var s := h + "\n";
    var r := StripRight(s);
    assert s[|h| - 1] == h[|h| - 1];
    assert IsSpace(s[|h|]);
    assert |r| == |h|;
    assert r == s[..|h|] == h;
  }

  /** Stripping the end of a string that already ends in a non-space changes nothing. */
  lemma StripRightTrimmed(s: string)
    requires s != [] && !IsSpace(s[|s| - 1])
    ensures StripRight(s) == s
  {
  }

  /**
   * `format_bad_change_with_suggestion_comment(cls, clarified_request, suggestion_block)`:
   * the clarified request, then the suggested code; when the suggestion is
   * blank the comment ends at the heading.
   */
  function FormatBadChangeWithSuggestionComment(cls: Classification, request: string, suggestion: string): (r: string)
    ensures r == "1- **clarified version:** " + request + "\n" + SuggestedHeading
                 + (if Strip(suggestion) == "" then "" else "\n" + Strip(suggestion))
  {
    var first := "1- **clarified version:** " + request;
    FirstOfAppend("1- **clarified version:** ", request);
    BadChangeStrip(first, SuggestedHeading, Strip(suggestion));
    Strip(first + "\n" + SuggestedHeading + "\n" + Strip(suggestion))
  }

  /** Stripping the joined lines trims at most the newline before a blank last line. */
  lemma BadChangeStrip(first: string, heading: string, block: string)
    requires first != [] && !IsSpace(first[0])
    requires heading != [] && !IsSpace(heading[|heading| - 1])
    requires block == [] || (!IsSpace(block[0]) && !IsSpace(block[|block| - 1]))
    ensures Strip(first + "\n" + heading + "\n" + block)
            == first + "\n" + heading + (if block == "" then "" else "\n" + block)
  {
    var joined := first + "\n" + heading + "\n" + block;
    assert joined[0] == first[0];
    StripOfTrimmedStart(joined);
    if block == "" {
      assert joined == (first + "\n") + (heading + "\n");
      StripRightNewline(heading);
      StripRightAppend(first + "\n", heading + "\n");
      assert first + "\n" + heading + "" == first + "\n" + heading;
    } else {
      StripRightTrimmed(block);
      StripRightAppend(first + "\n" + heading + "\n", block);
      AppendAssoc(first + "\n" + heading, "\n", block);
    }
  }
}
