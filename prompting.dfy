/**
 * The reply composer: the input sanitizer, the fixed system/prompt template
 * filled for one comment, and the clean-up of the model's raw output.
 */
module Prompting {
  import opened Wrappers
  import opened Text

  /** The two texts sent to the model for one comment. */
  datatype PromptParts = PromptParts(system: string, prompt: string)

  /** The default length caps of the sanitizer and of the final reply. */
  const SanitizeCap: int := 1200
  const DefaultReplyCap: int := 700

  /**
   * Sanitizes free text for the prompt: strip, collapse whitespace runs to one
   * space, keep at most `maxLen` characters (Python slice semantics).
   */
  function Sanitize(text: string, maxLen: int): (r: string)
    ensures 0 <= maxLen ==> |r| <= maxLen
    ensures SingleSpaced(r)
    ensures r == [] || !IsSpace(r[0])
  {
    var stripped := Strip(text);
    var collapsed := CollapseSpaces(stripped);
    var r := PyPrefix(collapsed, maxLen);
    SingleSpacedSlice(collapsed, 0, |r|);
    assert r != [] ==> r[0] == collapsed[0];
    r
  }

  /** With a positive cap, sanitizing gives the empty text exactly when the text is all whitespace. */
  lemma SanitizeBlank(text: string, maxLen: int)
    requires 0 < maxLen
    ensures Sanitize(text, maxLen) == [] <==> forall i :: 0 <= i < |text| ==> IsSpace(text[i])
  {
    StripEmpty(text);
  }

  /** When nothing is cut off, sanitizing keeps every visible character in order. */
  lemma SanitizeKeepsVisible(text: string, maxLen: int)
    requires |CollapseSpaces(Strip(text))| <= maxLen
    ensures Visible(Sanitize(text, maxLen)) == Visible(text)
  {
    VisibleStrip(text);
    VisibleCollapse(Strip(text));
    var collapsed := CollapseSpaces(Strip(text));
    assert PyPrefix(collapsed, maxLen) == collapsed[..|collapsed|] == collapsed;
  }

  const SystemOpening: string := "You are the Social Media Coordinator for '"
  const VoiceLabel: string := "'. Brand voice: "
  const Rules: string :=
    "Rules:\n"
    + "- Write ONE short reply (1-3 sentences).\n"
    + "- Be polite, natural, and on-brand.\n"
    + "- If the comment is a complaint, apologize and ask one clarifying question.\n"
    + "- If the comment asks for pricing/availability and you don't know, ask for location or link to DM.\n"
    + "- Do NOT mention you are an AI or model.\n"
    + "- Do NOT invent facts (hours, prices, policies).\n"
    + "- Avoid sensitive/personal data requests.\n"

  const PromptHead: string := "Write a reply to this Facebook comment.\n\nCommenter name: "
  const CommentLabel: string := "\nComment: "
  const PromptTail: string := "\n\nReply:"

  /** The commenter name shown to the model: sanitized, or "Unknown" when absent or blank. */
  function DisplayName(commenterName: Option<string>): (r: string)
    ensures r != [] && '\n' !in r
    ensures (commenterName.None? || Sanitize(commenterName.value, SanitizeCap) == []) ==> r == "Unknown"
    ensures commenterName.Some? && Sanitize(commenterName.value, SanitizeCap) != [] ==>
              r == Sanitize(commenterName.value, SanitizeCap)
  {
    var safe := Sanitize(commenterName.GetOr(""), SanitizeCap);
    assert '\n' in safe ==> IsSpace('\n');
    if safe == [] then "Unknown" else safe
  }

  /**
   * Builds the system and task texts for one comment. The brand name and voice are
   * inserted verbatim (not sanitized) ahead of the fixed rules block.
   */
  function BuildReplyPrompt(brandName: string, brandVoice: string, commentText: string,
                            commenterName: Option<string>): PromptParts
  {
    var safeComment := Sanitize(commentText, SanitizeCap);
    var safeName := DisplayName(commenterName);
    var system := SystemOpening + brandName + VoiceLabel + brandVoice + RulesBlock;
    var prompt := PromptHead + safeName + CommentLabel + safeComment + PromptTail;
    PromptParts(system, prompt)
  }

  /**
   * The system text opens with the coordinator line naming the brand and its voice,
   * and ends with the fixed rules block.
   */
  lemma SystemPromptShape(brandName: string, brandVoice: string, commentText: string, commenterName: Option<string>)
    ensures var system := BuildReplyPrompt(brandName, brandVoice, commentText, commenterName).system;
            && SystemOpening + brandName + VoiceLabel + brandVoice <= system
            && |system| == |SystemOpening + brandName + VoiceLabel + brandVoice| + |RulesBlock|
            && system[|system| - |RulesBlock|..] == RulesBlock
  {
    AppendParts(SystemOpening + brandName + VoiceLabel + brandVoice, RulesBlock);
  }

  /** The fixed text after the brand voice: a blank line and the rules. */
  const RulesBlock: string := "\n\n" + Rules

  lemma AppendParts(a: string, b: string)
    ensures a <= a + b
    ensures |a + b| == |a| + |b|
    ensures (a + b)[|a + b| - |b|..] == b
  {
    assert (a + b)[..|a|] == a;
  }

  /** The two fields of a task prompt. */
  datatype PromptFields = PromptFields(name: string, comment: string)

  /** The index of the first newline of `s`, or `|s|` when there is none. */
  function LineEnd(s: string): (k: nat)
    ensures k <= |s|
    ensures forall i :: 0 <= i < k ==> s[i] != '\n'
    ensures k < |s| ==> s[k] == '\n'
  {
    if s == [] || s[0] == '\n' then 0 else 1 + LineEnd(s[1..])
  }

  /** Reads the fields back out of `p = head + name + sep + comment + tail`, where the name ends at the first newline. */
  function ParseFields(p: string, head: string, sep: string, tail: string): Option<PromptFields> {
    if |p| < |head| + |tail| || p[..|head|] != head || p[|p| - |tail|..] != tail then None
    else
      var body := p[|head|..|p| - |tail|];
      var k := LineEnd(body);
      if sep <= body[k..] then Some(PromptFields(body[..k], body[k + |sep|..])) else None
  }

  /** Reads the commenter name and the comment back out of a task prompt. */
  function ParsePrompt(p: string): Option<PromptFields> {
    ParseFields(p, PromptHead, CommentLabel, PromptTail)
  }

  lemma ParseFieldsJoin(head: string, name: string, sep: string, comment: string, tail: string)
    requires '\n' !in name
    requires sep != [] && sep[0] == '\n'
    ensures ParseFields(head + name + sep + comment + tail, head, sep, tail) == Some(PromptFields(name, comment))
  {
    var p := head + name + sep + comment + tail;
    JoinSlices(head, name, sep, comment, tail);
    var body := p[|head|..|p| - |tail|];
    assert body == name + (sep + comment);
    LineEndOfJoin(name, sep + comment);
    JoinSplit(name, sep, comment);
  }

  lemma LineEndOfJoin(name: string, rest: string)
    requires '\n' !in name
    requires rest != [] && rest[0] == '\n'
    ensures LineEnd(name + rest) == |name|
  {
    var s := name + rest;
    assert s[|name|] == '\n';
    assert forall i :: 0 <= i < |name| ==> s[i] == name[i];
  }

  lemma JoinSlices(a: string, b: string, c: string, d: string, e: string)
    ensures var p := a + b + c + d + e;
            && |p| >= |a| + |e|
            && p[..|a|] == a
            && p[|p| - |e|..] == e
            && p[|a|..|p| - |e|] == b + (c + d)
  {
    var p := a + b + c + d + e;
    assert p == a + (b + (c + d)) + e;
  }

  lemma JoinSplit(b: string, c: string, d: string)
    ensures (b + (c + d))[..|b|] == b
    ensures (b + (c + d))[|b|..] == c + d
    ensures (b + (c + d))[|b| + |c|..] == d
  {
  }

  /**
   * The task prompt has a fixed line structure: the name and the comment can be read
   * back from it unchanged, whatever text the commenter wrote, because neither
   * sanitized field can contain a newline.
   */
  lemma PromptRoundTrip(brandName: string, brandVoice: string, commentText: string,
                        commenterName: Option<string>)
    ensures ParsePrompt(BuildReplyPrompt(brandName, brandVoice, commentText, commenterName).prompt)
            == Some(PromptFields(DisplayName(commenterName), Sanitize(commentText, SanitizeCap)))
  {
    var name := DisplayName(commenterName);
    var comment := Sanitize(commentText, SanitizeCap);
    ParseFieldsJoin(PromptHead, name, CommentLabel, comment, PromptTail);
  }

  /** The characters that the quote-stripping steps remove. */
  predicate IsDoubleQuote(c: char) {
    c == '"'
  }

  predicate IsSingleQuote(c: char) {
    c == '\''
  }

  /** The characters that survive the category filter. */
  predicate OutsideCategoryC(c: char) {
    !IsCategoryC(c)
  }

  /**
   * The clean-up before the length cap: strip whitespace, then the leading and
   * trailing runs of '"', then those of '\'', drop category C, collapse whitespace
   * and strip again.
   */
  function CleanReply(text: string): (r: string)
    ensures Tidy(r)
    ensures All(r, OutsideCategoryC)
  {
    Squash(Keep(Unquote(text), OutsideCategoryC))
  }

  /** Lines 55-56: whitespace, then runs of '"', then runs of '\'' stripped from both ends. */
  function Unquote(text: string): string {
    Trim(Trim(Strip(text), IsDoubleQuote), IsSingleQuote)
  }

  /** Text that is already clean comes out of the clean-up unchanged. */
  lemma CleanReplyOfClean(t: string)
    requires Tidy(t) && All(t, OutsideCategoryC)
    requires t == [] || (!IsDoubleQuote(t[0]) && !IsDoubleQuote(t[|t| - 1]))
    requires t == [] || (!IsSingleQuote(t[0]) && !IsSingleQuote(t[|t| - 1]))
    ensures CleanReply(t) == t
  {
    UnquoteUnpadded(t);
    KeepAll(t, OutsideCategoryC);
    SquashTidy(t);
    CleanSteps(t, t, t, t);
  }

  /** The clean-up of lines 55-58, one step after the other. */
  lemma CleanSteps(raw: string, unquoted: string, visible: string, t: string)
    requires Unquote(raw) == unquoted && Keep(unquoted, OutsideCategoryC) == visible
    requires All(visible, OutsideCategoryC) && Squash(visible) == t
    ensures CleanReply(raw) == t
  {
  }

  lemma UnquoteUnpadded(t: string)
    requires t == [] || (!IsSpace(t[0]) && !IsSpace(t[|t| - 1]))
    requires t == [] || (!IsDoubleQuote(t[0]) && !IsDoubleQuote(t[|t| - 1]))
    requires t == [] || (!IsSingleQuote(t[0]) && !IsSingleQuote(t[|t| - 1]))
    ensures Unquote(t) == t
  {
    assert Strip(t) == t;
    assert Trim(t, IsDoubleQuote) == t;
    assert Trim(t, IsSingleQuote) == t;
    UnquoteSteps(t, t, t, t);
  }

  /** The quote stripping of lines 55-56, one step after the other. */
  lemma UnquoteSteps(raw: string, stripped: string, unquoted: string, t: string)
    requires Strip(raw) == stripped && Trim(stripped, IsDoubleQuote) == unquoted
    requires Trim(unquoted, IsSingleQuote) == t
    ensures Unquote(raw) == t
  {
  }

  lemma SquashTidy(t: string)
    requires Tidy(t) && All(t, OutsideCategoryC)
    ensures Squash(t) == t
  {
    CollapseSingleSpaced(t);
    assert Strip(t) == t;
  }

  /** Line 58: whitespace runs collapsed and the ends stripped, on text already free of category C. */
  function Squash(visible: string): (r: string)
    requires All(visible, OutsideCategoryC)
    ensures Tidy(r)
    ensures All(r, OutsideCategoryC)
  {
    var collapsed := CollapseSpaces(visible);
    AllCollapse(visible, OutsideCategoryC);
    StripTidy(collapsed);
    AllStrip(collapsed, OutsideCategoryC);
    Strip(collapsed)
  }

  /**
   * Post-processes raw model output into the reply to publish; the empty string
   * means "do not reply". Cleaned text longer than `maxChars` is cut to its first
   * `maxChars - 1` characters (Python slice), trailing whitespace is stripped and
   * an ellipsis appended.
   */
  function PostprocessReply(text: string, maxChars: int): (r: string)
    ensures All(r, OutsideCategoryC)
    ensures Tidy(r)
  {
    LimitLength(CleanReply(text), maxChars)
  }

  /**
   * The length cap (lines 59-60) applied to cleaned text: text that fits is kept as it
   * is; longer text keeps a prefix of its first `maxChars - 1` characters, losing only
   * trailing whitespace, and gets the ellipsis. Tidiness and the absence of category C
   * carry over.
   */
  function LimitLength(cleaned: string, maxChars: int): (r: string)
    ensures |cleaned| <= maxChars ==> r == cleaned
    ensures |cleaned| > maxChars ==>
              && r != [] && r[|r| - 1] == EllipsisChar
              && r[..|r| - 1] <= cleaned
              && (|r| == 1 || !IsSpace(r[|r| - 2]))
              && (1 <= maxChars ==>
                    && |r| <= maxChars
                    && forall i :: |r| - 1 <= i < maxChars - 1 ==> IsSpace(cleaned[i]))
    ensures Tidy(cleaned) && All(cleaned, OutsideCategoryC) ==> Tidy(r) && All(r, OutsideCategoryC)
  {
    if |cleaned| > maxChars then
      var cut := PyPrefix(cleaned, maxChars - 1);
      var kept := TrimEnd(cut, IsSpace);
      PrefixOfPrefix(cleaned, cut, kept);
      TruncatedTidy(cleaned, kept);
      var r := kept + [EllipsisChar];
      assert r[..|r| - 1] == kept;
      r
    else cleaned
  }

  const EllipsisChar: char := '…'

  lemma PrefixOfPrefix(s: string, t: string, u: string)
    requires |t| <= |s| && t == s[..|t|]
    requires |u| <= |t| && u == t[..|u|]
    ensures |u| <= |s| && u == s[..|u|]
  {
  }

  lemma TruncatedTidy(cleaned: string, kept: string)
    requires |kept| <= |cleaned| && kept == cleaned[..|kept|]
    requires kept == [] || !IsSpace(kept[|kept| - 1])
    ensures Tidy(cleaned) && All(cleaned, OutsideCategoryC) ==>
              Tidy(kept + [EllipsisChar]) && All(kept + [EllipsisChar], OutsideCategoryC)
  {
    if Tidy(cleaned) && All(cleaned, OutsideCategoryC) {
      SingleSpacedSlice(cleaned, 0, |kept|);
      assert kept != [] ==> kept[0] == cleaned[0];
      TidyAppendVisible(kept, EllipsisChar);
      AllSlice(cleaned, OutsideCategoryC, 0, |kept|);
      AllAppend(kept, [EllipsisChar], OutsideCategoryC);
    }
  }

  /** For a positive cap, the reply is never longer than the cap. */
  lemma PostprocessWithinCap(text: string, maxChars: int)
    requires 1 <= maxChars
    ensures |PostprocessReply(text, maxChars)| <= maxChars
  {
  }
}
