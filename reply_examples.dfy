/**
 * Worked inputs of `postprocess_reply` (prompting.py, lines 53-61): quoted output
 * padded with spaces comes back as the bare sentence, output longer than the cap is
 * cut after its ninth character and given the ellipsis, and an interior newline is
 * deleted rather than turned into a space.
 */
module ReplyExamples {
  import opened Text
  import opened Prompting

  const Thanks: string := "Thanks for reaching out!"
  /** The model's answer as it arrives: `  "Thanks for reaching out!"  `. */
  const QuotedThanks: string := "\"" + Thanks + "\""
  const PaddedThanks: string := "  " + QuotedThanks + "  "

  /** "This is a very long reply text", its first nine characters and the rest. */
  const LongHead: string := "This is a"
  const LongRest: string := " very long reply text"
  const LongText: string := LongHead + LongRest
  /** "This is a…" */
  const LongCut: string := LongHead + [EllipsisChar]

  /** Letters and '!': visible, outside category C, and not quotes. */
  predicate Plain(c: char) {
    ('a' <= c <= 'z') || ('A' <= c <= 'Z') || c == '!'
  }

  /** Words of plain characters separated by single spaces. */
  predicate PlainText(s: string) {
    && (forall i :: 0 <= i < |s| ==> Plain(s[i]) || s[i] == ' ')
    && (forall i :: 0 <= i < |s| - 1 ==> Plain(s[i]) || Plain(s[i + 1]))
    && s != [] && Plain(s[0]) && Plain(s[|s| - 1])
  }

  /** One word of plain characters. */
  predicate PlainWord(w: string) {
    w != [] && forall i :: 0 <= i < |w| ==> Plain(w[i])
  }

  lemma WordPlain(w: string)
    requires PlainWord(w)
    ensures PlainText(w)
  {
  }

  /** Plain text, a space and one more word is plain text. */
  lemma JoinPlain(a: string, w: string)
    requires PlainText(a) && PlainWord(w)
    ensures PlainText(a + " " + w)
  {
    var s := a + " " + w;
    assert forall i :: 0 <= i < |a| ==> s[i] == a[i];
    assert s[|a|] == ' ';
    assert forall i :: |a| < i < |s| ==> s[i] == w[i - |a| - 1];
  }

  /** Plain text is already clean: neither the quote stripping nor the clean-up changes it. */
  lemma PlainClean(s: string)
    requires PlainText(s)
    ensures Unquote(s) == s && CleanReply(s) == s
  {
    assert forall i :: 0 <= i < |s| && IsSpace(s[i]) ==> s[i] == ' ';
    assert Tidy(s);
    assert All(s, OutsideCategoryC);
    UnquoteUnpadded(s);
    CleanReplyOfClean(s);
  }

  /** Raw output that unquotes to plain text is cleaned to exactly that text. */
  lemma CleanToPlain(raw: string, t: string)
    requires Unquote(raw) == t && PlainText(t)
    ensures CleanReply(raw) == t
  {
    PlainClean(t);
  }

  /** A cut that falls just after a visible character keeps the whole head. */
  lemma CutAfterVisible(cleaned: string, head: string, rest: string, maxChars: int)
    requires cleaned == head + rest && |head| == maxChars - 1 && |rest| > 1
    requires head != [] && !IsSpace(head[|head| - 1])
    ensures LimitLength(cleaned, maxChars) == head + [EllipsisChar]
  {
    assert cleaned[..|head|] == head;
  }

  lemma ThanksForPlain()
    ensures PlainText("Thanks for")
  {
    WordPlain("Thanks");
    JoinPlain("Thanks", "for");
    assert "Thanks" + " " + "for" == "Thanks for";
  }

  lemma ThanksPlain()
    ensures PlainText(Thanks)
  {
    ThanksForPlain();
    JoinPlain("Thanks for", "reaching");
    assert "Thanks for" + " " + "reaching" == "Thanks for reaching";
    JoinPlain("Thanks for reaching", "out!");
    assert "Thanks for reaching" + " " + "out!" == Thanks;
  }

  lemma PaddedUnquote()
    ensures Unquote(PaddedThanks) == Thanks
  {
    assert All("  ", IsSpace);
    assert Thanks[0] == 'T' && Thanks[|Thanks| - 1] == '!';
    UnquotePadded("  ", Thanks, "  ");
  }

  /**
   * Text that neither starts nor ends with a quote, put in double quotes and padded with
   * whitespace on either side, loses the padding and the quotes.
   */
  lemma UnquotePadded(padL: string, t: string, padR: string)
    requires All(padL, IsSpace) && All(padR, IsSpace)
    requires t != [] && !IsDoubleQuote(t[0]) && !IsDoubleQuote(t[|t| - 1])
    requires !IsSingleQuote(t[0]) && !IsSingleQuote(t[|t| - 1])
    ensures Unquote(padL + ("\"" + t + "\"") + padR) == t
  {
    StripPadding(padL, t, padR);
    TrimQuotes(t);
    NoSingleQuotes(t);
    UnquoteSteps(padL + ("\"" + t + "\"") + padR, "\"" + t + "\"", t, t);
  }

  lemma StripPadding(padL: string, t: string, padR: string)
    requires All(padL, IsSpace) && All(padR, IsSpace)
    ensures Strip(padL + ("\"" + t + "\"") + padR) == "\"" + t + "\""
  {
    var q := "\"" + t + "\"";
    assert q[0] == '"' && q[|q| - 1] == '"';
    TrimPadded(padL, q, padR, IsSpace);
  }

  lemma TrimQuotes(t: string)
    requires t != [] && !IsDoubleQuote(t[0]) && !IsDoubleQuote(t[|t| - 1])
    ensures Trim("\"" + t + "\"", IsDoubleQuote) == t
  {
    assert All("\"", IsDoubleQuote);
    TrimPadded("\"", t, "\"", IsDoubleQuote);
  }

  lemma NoSingleQuotes(t: string)
    requires t != [] && !IsSingleQuote(t[0]) && !IsSingleQuote(t[|t| - 1])
    ensures Trim(t, IsSingleQuote) == t
  {
    TrimPadded([], t, [], IsSingleQuote);
    assert [] + t + [] == t;
  }

  /** `postprocess_reply('  "Thanks for reaching out!"  ', 700)` is the bare sentence. */
  lemma QuotedExample()
    ensures PostprocessReply(PaddedThanks, 700) == Thanks
  {
    PaddedUnquote();
    ThanksPlain();
    CleanToPlain(PaddedThanks, Thanks);
  }

  lemma LongHeadPlain()
    ensures PlainText(LongHead)
  {
    WordPlain("This");
    JoinPlain("This", "is");
    assert "This" + " " + "is" == "This is";
    JoinPlain("This is", "a");
    assert "This is" + " " + "a" == LongHead;
  }

  lemma LongMiddlePlain()
    ensures PlainText("This is a very long")
  {
    LongHeadPlain();
    JoinPlain(LongHead, "very");
    assert LongHead + " " + "very" == "This is a very";
    JoinPlain("This is a very", "long");
    assert "This is a very" + " " + "long" == "This is a very long";
  }

  lemma LongReplyPlain()
    ensures PlainText("This is a very long reply")
  {
    LongMiddlePlain();
    JoinPlain("This is a very long", "reply");
    assert "This is a very long" + " " + "reply" == "This is a very long reply";
  }

  lemma LongWords()
    ensures LongText == "This is a very long reply" + " " + "text"
  {
  }

  lemma LongPlain()
    ensures PlainText(LongText)
  {
    LongReplyPlain();
    JoinPlain("This is a very long reply", "text");
    LongWords();
  }

  /** `postprocess_reply("This is a very long reply text", 10)` is `"This is a…"`. */
  lemma LongExample()
    ensures PostprocessReply(LongText, 10) == LongCut
  {
    CutAfterVisible(LongText, LongHead, LongRest, 10);
    assert CleanReply(LongText) == LongText by {
      LongPlain();
      PlainClean(LongText);
    }
  }

  /** An interior newline is category Cc, so the filter deletes it before the collapse sees it. */
  lemma NewlineDeleted()
    ensures CleanReply("a\nb") == "ab"
  {
    NewlineUnquoted();
    NewlineFiltered();
    TwoLettersClean();
    CleanSteps("a\nb", "a\nb", "ab", "ab");
  }

  lemma NewlineUnquoted()
    ensures Unquote("a\nb") == "a\nb"
  {
    UnquoteUnpadded("a\nb");
  }

  lemma NewlineFiltered()
    ensures Keep("a\nb", OutsideCategoryC) == "ab"
  {
    assert "a\nb" == ['a', '\n', 'b'] && "ab" == ['a', 'b'];
    DropMiddle('a', '\n', 'b', OutsideCategoryC);
  }

  /** The filter drops a character between two it keeps. */
  lemma DropMiddle(x: char, c: char, y: char, p: char -> bool)
    requires p(x) && !p(c) && p(y)
    ensures Keep([x, c, y], p) == [x, y]
  {
    assert [x, c, y] == [x] + ([c] + [y]);
    KeepCons(x, [c] + [y], p);
    KeepCons(c, [y], p);
    KeepOne(y, p);
  }

  lemma TwoLettersClean()
    ensures All("ab", OutsideCategoryC) && Squash("ab") == "ab"
  {
    assert Tidy("ab");
    SquashTidy("ab");
  }

  /** Two characters around any run of whitespace come out one space apart. */
  lemma CollapseBetween(x: char, w: string, y: char)
    requires !IsSpace(x) && !IsSpace(y) && w != [] && All(w, IsSpace)
    ensures CollapseSpaces([x] + w + [y]) == [x, ' ', y]
  {
    assert [x] + w + [y] == [x] + (w + [y]);
    assert [y] + [] == [y];
    CollapseVisibleCons(y, []);
    assert CollapseSpaces([y]) == [y];
    CollapseRun(w, [y]);
    assert CollapseSpaces(w + [y]) == [' ', y];
    CollapseVisibleCons(x, w + [y]);
  }
}
