/**
 * fb_agent.py: the token redaction applied to logged errors, and one polling cycle of
 * `main` (lines 33-105): fetch the recent posts, walk their comments, decide for each
 * whether to answer, generate and clean the reply, post it (or only record it in dry
 * run), check how it was stored, and record it in the ledger.
 */
module Agent {
  import opened Wrappers
  import opened Text
  import opened Prompting
  import opened State
  import opened Graph
  import opened Config

  // ---------------------------------------------------------------------------
  // _redact: re.sub(r"access_token=[^&\s]+", "access_token=REDACTED", s)
  // ---------------------------------------------------------------------------

  const TokenKey: string := "access_token="
  const Mask: string := "REDACTED"

  /** The characters of `[^&\s]`. */
  predicate TokenChar(c: char) {
    c != '&' && !IsSpace(c)
  }

  /** Length of the longest run of token characters at the start of `s` (the greedy `+`). */
  function RunLen(s: string): (n: nat)
    ensures n <= |s|
    ensures forall i :: 0 <= i < n ==> TokenChar(s[i])
    ensures n == |s| || !TokenChar(s[n])
  {
    if s != [] && TokenChar(s[0]) then 1 + RunLen(s[1..]) else 0
  }

  /** The pattern `key[^&\s]+` matches at the start of `s`. */
  predicate MatchAt(s: string, key: string) {
    |s| > |key| && s[..|key|] == key && TokenChar(s[|key|])
  }

  /**
   * `re.sub(key + r"[^&\s]+", key + mask, s)`: scanning left to right, each match is
   * replaced by the key followed by the mask and scanning resumes after the match;
   * elsewhere one character is copied.
   */
  function Rewrite(s: string, key: string, mask: string): string
    decreases |s|
  {
    if s == [] then []
    else if MatchAt(s, key) then
      var after := |key| + RunLen(s[|key|..]);
      key + mask + Rewrite(s[after..], key, mask)
    else [s[0]] + Rewrite(s[1..], key, mask)
  }

  /** `_redact(s)`. */
  function Redact(s: string): string {
    Rewrite(s, TokenKey, Mask)
  }

  /** What the proofs need of the key and the mask: both start with, and the mask consists of, token characters. */
  predicate GoodPattern(key: string, mask: string) {
    && key != [] && TokenChar(key[0])
    && mask != [] && forall i :: 0 <= i < |mask| ==> TokenChar(mask[i])
  }

  lemma RedactPattern()
    ensures GoodPattern(TokenKey, Mask)
  {
  }

  /** A string in which the pattern matches nowhere is left unchanged. */
  lemma {:induction false} RewriteNoMatch(s: string, key: string, mask: string)
    requires forall i :: 0 <= i < |s| ==> !MatchAt(s[i..], key)
    ensures Rewrite(s, key, mask) == s
    decreases |s|
  {
    if s != [] {
      assert !MatchAt(s[0..], key) by { assert s[0..] == s; }
      forall i | 0 <= i < |s| - 1 ensures !MatchAt(s[1..][i..], key) {
        assert s[1..][i..] == s[i + 1..];
      }
      RewriteNoMatch(s[1..], key, mask);
    }
  }

  /**
   * A match is replaced whole: the key, a maximal run `t` of token characters, and a
   * rest `r` that does not continue the run become the key, the mask, and the rewritten rest.
   */
  lemma RewriteAtMatch(key: string, mask: string, t: string, r: string)
    requires key != []
    requires t != [] && forall i :: 0 <= i < |t| ==> TokenChar(t[i])
    requires r == [] || !TokenChar(r[0])
    ensures Rewrite(key + t + r, key, mask) == key + mask + Rewrite(r, key, mask)
  {
    var s := key + t + r;
    assert s[..|key|] == key;
    assert s[|key|..] == t + r;
    assert s[|key|] == t[0];
    assert MatchAt(s, key);
    var tr := t + r;
    assert forall i :: 0 <= i < |t| ==> tr[i] == t[i];
    assert |t| < |tr| ==> tr[|t|] == r[0];
    RunLenOfRun(tr, |t|);
    assert s[|key| + |t|..] == r;
  }

  /** Where the pattern does not match, the first character is copied and the rest rewritten. */
  lemma RewriteCopy(c: char, s: string, key: string, mask: string)
    requires !MatchAt([c] + s, key)
    ensures Rewrite([c] + s, key, mask) == [c] + Rewrite(s, key, mask)
  {
    assert ([c] + s)[1..] == s;
  }

  /** Whether the pattern matches at the start depends on the first |key| + 1 characters only. */
  lemma MatchAtPrefix(s: string, t: string, key: string)
    requires |s| > |key| && |t| > |key|
    requires s[..|key| + 1] == t[..|key| + 1]
    ensures MatchAt(s, key) == MatchAt(t, key)
  {
    assert s[..|key|] == s[..|key| + 1][..|key|];
    assert t[..|key|] == t[..|key| + 1][..|key|];
    assert s[|key|] == s[..|key| + 1][|key|];
    assert t[|key|] == t[..|key| + 1][|key|];
  }

  /**
   * Rewriting keeps the first |key| characters: short strings are unchanged, and a
   * longer one either starts with a match, replaced by the key itself, or keeps its
   * first character.
   */
  lemma {:induction false} RewriteKeepsHead(u: string, key: string, mask: string)
    requires GoodPattern(key, mask)
    ensures |u| <= |key| ==> Rewrite(u, key, mask) == u
    ensures |u| > |key| ==> |Rewrite(u, key, mask)| > |key| && Rewrite(u, key, mask)[..|key|] == u[..|key|]
    decreases |u|
  {
    if u != [] && !MatchAt(u, key) {
      RewriteKeepsHead(u[1..], key, mask);
      var r := Rewrite(u[1..], key, mask);
      assert Rewrite(u, key, mask) == [u[0]] + r;
      ConsKeepsHead(u, r, |key|);
    }
  }

  /** Putting back the first character of `u` in front of a text that keeps the head of `u[1..]`. */
  lemma ConsKeepsHead(u: string, r: string, n: nat)
    requires u != [] && n > 0
    requires |u| - 1 <= n ==> r == u[1..]
    requires |u| - 1 > n ==> |r| > n && r[..n] == u[1..][..n]
    ensures |u| <= n ==> [u[0]] + r == u
    ensures |u| > n ==> |[u[0]] + r| > n && ([u[0]] + r)[..n] == u[..n]
  {
    if |u| > n {
      if |u| - 1 > n {
        assert r[..n - 1] == r[..n][..n - 1];
        assert u[1..n] == u[1..][..n][..n - 1];
      }
      assert r[..n - 1] == u[1..n];
      assert ([u[0]] + r)[..n] == [u[0]] + r[..n - 1];
      assert u[..n] == [u[0]] + u[1..n];
    }
  }

  /** Text that does not start with a token character still does not after rewriting. */
  lemma RewriteStartsAsBefore(rest: string, key: string, mask: string)
    requires GoodPattern(key, mask)
    requires rest == [] || !TokenChar(rest[0])
    ensures Rewrite(rest, key, mask) == [] || !TokenChar(Rewrite(rest, key, mask)[0])
  {
    if rest != [] {
      assert !MatchAt(rest, key) by {
        if |rest| > |key| {
          assert rest[..|key|][0] == rest[0] != key[0];
        }
      }
    }
  }

  lemma {:induction false} RunLenOfRun(s: string, n: nat)
    requires n <= |s|
    requires forall i :: 0 <= i < n ==> TokenChar(s[i])
    requires n == |s| || !TokenChar(s[n])
    ensures RunLen(s) == n
    decreases n
  {
    if n > 0 {
      RunLenOfRun(s[1..], n - 1);
    }
  }

  /** After a replacement, the rewritten text matches again, over exactly the mask. */
  lemma RematchReplacement(key: string, mask: string, r: string)
    requires GoodPattern(key, mask)
    requires r == [] || !TokenChar(r[0])
    ensures MatchAt(key + mask + r, key)
    ensures |key| + RunLen((key + mask + r)[|key|..]) == |key| + |mask|
    ensures (key + mask + r)[|key| + |mask|..] == r
  {
    var t := key + mask + r;
    assert t[..|key|] == key;
    assert t[|key|..] == mask + r;
    assert t[|key|] == mask[0];
    var m := mask + r;
    assert forall i :: 0 <= i < |mask| ==> m[i] == mask[i];
    RunLenOfRun(m, |mask|);
  }

  /** Rewriting is idempotent: a rewritten string has nothing left to rewrite. */
  lemma {:induction false} RewriteIdempotent(s: string, key: string, mask: string)
    requires GoodPattern(key, mask)
    ensures Rewrite(Rewrite(s, key, mask), key, mask) == Rewrite(s, key, mask)
    decreases |s|, 1
  {
    if s == [] {
    } else if MatchAt(s, key) {
      RewriteIdempotentAtMatch(s, key, mask);
    } else {
      RewriteIdempotentAtCopy(s, key, mask);
    }
  }

  lemma {:induction false} RewriteIdempotentAtMatch(s: string, key: string, mask: string)
    requires GoodPattern(key, mask)
    requires MatchAt(s, key)
    ensures Rewrite(Rewrite(s, key, mask), key, mask) == Rewrite(s, key, mask)
    decreases |s|, 0
  {
    var rest := s[|key| + RunLen(s[|key|..])..];
    var r := Rewrite(rest, key, mask);
    assert Rewrite(s, key, mask) == key + mask + r;
    RewriteStartsAsBefore(rest, key, mask);
    RewriteIdempotent(rest, key, mask);
    ReplacementStable(key, mask, r);
  }

  /** Rewriting a replacement again replaces it by itself and carries on with the rest. */
  lemma ReplacementStable(key: string, mask: string, r: string)
    requires GoodPattern(key, mask)
    requires r == [] || !TokenChar(r[0])
    ensures Rewrite(key + mask + r, key, mask) == key + mask + Rewrite(r, key, mask)
  {
    RematchReplacement(key, mask, r);
  }

  lemma {:induction false} RewriteIdempotentAtCopy(s: string, key: string, mask: string)
    requires GoodPattern(key, mask)
    requires s != [] && !MatchAt(s, key)
    ensures Rewrite(Rewrite(s, key, mask), key, mask) == Rewrite(s, key, mask)
    decreases |s|, 0
  {
    var r := Rewrite(s[1..], key, mask);
    var t := [s[0]] + r;
    assert Rewrite(s, key, mask) == t;
    assert !MatchAt(t, key) by { CopiedHeadNoMatch(s, key, mask); }
    assert t[1..] == r;
    assert Rewrite(r, key, mask) == r by { RewriteIdempotent(s[1..], key, mask); }
  }

  /** Where the pattern does not match at the start, it does not match after rewriting the rest either. */
  lemma CopiedHeadNoMatch(s: string, key: string, mask: string)
    requires GoodPattern(key, mask)
    requires s != [] && !MatchAt(s, key)
    ensures !MatchAt([s[0]] + Rewrite(s[1..], key, mask), key)
  {
    RewriteKeepsHead(s[1..], key, mask);
    ConsNoMatch(s, Rewrite(s[1..], key, mask), key);
  }

  /** A text that agrees with `s` on its first |key| + 1 characters, or is `s`, does not match either. */
  lemma ConsNoMatch(s: string, r: string, key: string)
    requires s != [] && key != [] && !MatchAt(s, key)
    requires |s| - 1 <= |key| ==> r == s[1..]
    requires |s| - 1 > |key| ==> |r| > |key| && r[..|key|] == s[1..][..|key|]
    ensures !MatchAt([s[0]] + r, key)
  {
    var t := [s[0]] + r;
    if |s| > |key| + 1 {
      assert t[..|key| + 1] == s[..|key| + 1] by {
        assert r[..|key|] == s[1..][..|key|];
      }
      MatchAtPrefix(s, t, key);
    } else {
      assert t == s;
    }
  }

  /** `t` starts with the key and the mask, and the mask is not followed by a token character. */
  predicate Masked(t: string, key: string, mask: string) {
    && |t| >= |key| + |mask|
    && t[..|key| + |mask|] == key + mask
    && (|t| == |key| + |mask| || !TokenChar(t[|key| + |mask|]))
  }

  /** The first character of the key occurs nowhere else in the key or the mask. */
  predicate SelfSeparating(key: string, mask: string) {
    key != [] && forall j :: 0 < j < |key + mask| ==> (key + mask)[j] != key[0]
  }

  /** Wherever the pattern matches in `r`, it matches a key followed by exactly the mask. */
  predicate AllMasked(r: string, key: string, mask: string) {
    forall i :: 0 <= i < |r| && MatchAt(r[i..], key) ==> Masked(r[i..], key, mask)
  }

  /** Nothing escapes the rewriting: every match left in the result is a replacement. */
  lemma {:induction false} RewriteMasksAll(s: string, key: string, mask: string)
    requires GoodPattern(key, mask) && SelfSeparating(key, mask)
    ensures AllMasked(Rewrite(s, key, mask), key, mask)
    decreases |s|
  {
    var r := Rewrite(s, key, mask);
    if s == [] {
    } else if MatchAt(s, key) {
      var rest := s[|key| + RunLen(s[|key|..])..];
      var tail := Rewrite(rest, key, mask);
      assert r == key + mask + tail;
      RewriteStartsAsBefore(rest, key, mask);
      RewriteMasksAll(rest, key, mask);
      forall i | 0 <= i < |r| && MatchAt(r[i..], key) ensures Masked(r[i..], key, mask) {
        MaskedAfterReplacement(key, mask, tail, i);
      }
    } else {
      var tail := Rewrite(s[1..], key, mask);
      RewriteMasksAll(s[1..], key, mask);
      assert r == [s[0]] + tail;
      assert !MatchAt(r[0..], key) by {
        CopiedHeadNoMatch(s, key, mask);
        assert r[0..] == r;
      }
      forall i | 1 <= i < |r| && MatchAt(r[i..], key) ensures Masked(r[i..], key, mask) {
        assert r[i..] == tail[i - 1..];
        assert MatchAt(tail[i - 1..], key);
      }
    }
  }

  /** A match in a replacement followed by a masked tail is the replacement itself or lies in the tail. */
  lemma MaskedAfterReplacement(key: string, mask: string, tail: string, i: nat)
    requires GoodPattern(key, mask) && SelfSeparating(key, mask)
    requires tail == [] || !TokenChar(tail[0])
    requires AllMasked(tail, key, mask)
    requires i < |key + mask + tail| && MatchAt((key + mask + tail)[i..], key)
    ensures Masked((key + mask + tail)[i..], key, mask)
  {
    var r := key + mask + tail;
    var k := |key| + |mask|;
    if i == 0 {
      assert r[0..] == r;
      assert r[..k] == key + mask;
    } else if i < k {
      assert false;
    } else {
      assert r[i..] == tail[i - k..];
    }
  }

  lemma RedactSeparating()
    ensures SelfSeparating(TokenKey, Mask)
  {
    assert TokenKey + Mask == "access_token=REDACTED";
  }

  /**
   * Every `access_token=` assignment left in the result of `_redact` is
   * `access_token=REDACTED`, ended by the end of the text or by `&` or whitespace.
   * That the token text itself is gone is `RedactAtMatch`.
   */
  lemma RedactLeavesNoToken(s: string)
    ensures AllMasked(Redact(s), TokenKey, Mask)
  {
    RedactPattern();
    RedactSeparating();
    RewriteMasksAll(s, TokenKey, Mask);
  }

  /**
   * `_redact` replaces `access_token=` and the whole run of `[^&\s]` characters after it
   * by `access_token=REDACTED`, and goes on with the text after the run.
   */
  lemma RedactAtMatch(t: string, r: string)
    requires t != [] && forall i :: 0 <= i < |t| ==> TokenChar(t[i])
    requires r == [] || !TokenChar(r[0])
    ensures Redact(TokenKey + t + r) == TokenKey + Mask + Redact(r)
  {
    RewriteAtMatch(TokenKey, Mask, t, r);
  }

  /** Where no token assignment starts, `_redact` copies the character and goes on. */
  lemma RedactCopy(c: char, s: string)
    requires !MatchAt([c] + s, TokenKey)
    ensures Redact([c] + s) == [c] + Redact(s)
  {
    RewriteCopy(c, s, TokenKey, Mask);
  }

  /** `_redact` leaves text without a token assignment alone. */
  lemma RedactNoMatch(s: string)
    requires forall i :: 0 <= i < |s| ==> !MatchAt(s[i..], TokenKey)
    ensures Redact(s) == s
  {
    RewriteNoMatch(s, TokenKey, Mask);
  }

  /** `_redact` is idempotent. */
  lemma RedactIdempotent(s: string)
    ensures Redact(Redact(s)) == Redact(s)
  {
    RedactPattern();
    RewriteIdempotent(s, TokenKey, Mask);
  }

  // ---------------------------------------------------------------------------
  // The outside world of one cycle
  // ---------------------------------------------------------------------------

  /** Where in the cycle an exception was raised. */
  datatype Stage = FetchingPosts | FetchingComments | Generating | Posting | Verifying

  /** The exception that ended a cycle: where it was raised, and its text. */
  datatype Abort = Abort(stage: Stage, error: string)

  const LoopErrorLabel: string := "Loop error: "

  /**
   * The line printed for it (line 106): the label, then the error text with every token
   * assignment masked.
   */
  function LoggedLine(a: Abort): (line: string)
    ensures line == LoopErrorLabel + Redact(a.error)
    ensures LoopErrorLabel <= line
    ensures AllMasked(line[|LoopErrorLabel|..], TokenKey, Mask)
  {
    var line := LoopErrorLabel + Redact(a.error);
    assert line[|LoopErrorLabel|..] == Redact(a.error);
    RedactLeavesNoToken(a.error);
    line
  }

  datatype Warning =
    | EmptyAfterPost(replyId: string, commentId: string)
    | WasHidden(replyId: string, isHiddenNow: Option<bool>)
    | MarkedPrivate(replyId: string, commentId: string)

  /** What the cycle does to the outside world, in order. */
  datatype Event =
    | FetchedPosts                                   // get_recent_posts
    | FetchedComments(postId: string)                // iter_comments_for_post
    | Generated(parts: PromptParts)                  // llm.generate
    | Posted(commentId: string, reply: string)       // reply_to_comment
    | ReadBack(replyId: string)                      // get_comment
    | Unhid(replyId: string)                         // set_comment_hidden(reply_id, False)
    | Recorded(record: ReplyRecord)                  // state.mark_replied
    | Warned(warning: Warning)                       // a "Warning: ..." line

  /**
   * The answers of the Graph API and of the model. Each takes the number of events
   * that came before the call in the cycle, so that the same request may be answered
   * differently at different times; `Failure` is an exception raised by the call.
   */
  datatype Platform = Platform(
    feed: nat -> Result<Option<seq<RawPost>>, string>,
    comments: (nat, string) -> Result<Option<seq<RawComment>>, string>,
    generate: (nat, PromptParts) -> Result<string, string>,
    reply: (nat, string, string) -> Result<Option<string>, string>,
    getComment: (nat, string) -> Result<StoredComment, string>,
    setHidden: (nat, string) -> Result<(), string>,
    clock: nat -> int)

  /** The request an event sends to the Graph API, if it is one. */
  function RequestOf(s: Settings, e: Event): (r: Option<Request>)
    ensures r.Some? <==> !(e.Generated? || e.Recorded? || e.Warned?)
    ensures r.Some? ==> AccessToken in r.value.params && r.value.params[AccessToken] == s.fbAccessToken
    ensures r.Some? ==> GraphRoot + s.fbApiVersion + "/" <= r.value.url
  {
    var client := NewClient(s.fbAccessToken, s.fbApiVersion);
    match e
    case FetchedPosts => Some(FeedRequest(client, s.fbPageId, s.lookbackPosts))
    case FetchedComments(postId) => Some(CommentsRequest(client, postId, s.commentLimitPerPost))
    case Posted(commentId, reply) => Some(ReplyRequest(client, commentId, reply))
    case ReadBack(replyId) => Some(GetCommentRequest(client, replyId))
    case Unhid(replyId) => Some(SetHiddenRequest(client, replyId, false))
    case _ => None
  }

  /** The state of a cycle: the ledger, the events so far, and the exception if one ended it. */
  datatype Run = Run(ledger: Ledger, trace: seq<Event>, abort: Option<Abort>)

  // ---------------------------------------------------------------------------
  // The decisions for one comment (lines 40-103)
  // ---------------------------------------------------------------------------

  datatype Verdict = NoId | AlreadyReplied | OwnComment | TooShort | Candidate

  /**
   * The filters at lines 40-49, in order; `StripAtLeastTwo` says the last one is
   * `len(c.message.strip()) < 2`.
   */
  function Screen(s: Settings, ledger: Ledger, c: FacebookComment): (v: Verdict)
    ensures v == NoId <==> !Truthy(c.id)
    ensures v == AlreadyReplied <==> Truthy(c.id) && c.id.value in ledger
    ensures v == OwnComment ==> c.fromId == Some(s.fbPageId) && s.fbPageId != []
    ensures v == TooShort ==> !TwoVisible(c.message)
    ensures v == Candidate <==>
              && Truthy(c.id) && c.id.value !in ledger
              && !(Truthy(c.fromId) && c.fromId.value == s.fbPageId)
              && TwoVisible(c.message)
  {
    if !Truthy(c.id) then NoId
    else if c.id.value in ledger then AlreadyReplied
    else if Truthy(c.fromId) && c.fromId.value == s.fbPageId then OwnComment
    else if !TwoVisible(c.message) then TooShort
    else Candidate
  }

  /** The prompt for a comment (lines 51-56). */
  function Parts(s: Settings, c: FacebookComment): PromptParts {
    BuildReplyPrompt(s.brandName, s.brandVoice, c.message, c.fromName)
  }

  /**
   * How a comment becomes a prompt, and the model's text a reply. The cycle is stated
   * for any composer; the agent's own is `ComposerOf(s)`.
   */
  datatype Composer = Composer(prompt: FacebookComment -> PromptParts, finish: string -> string)

  /** `build_reply_prompt` with the brand settings, and `postprocess_reply` with the reply cap. */
  function ComposerOf(s: Settings): Composer {
    Composer(c => Parts(s, c), text => PostprocessReply(text, s.maxReplyChars))
  }

  /** The model's answer to the call at trace position `k`, finished (lines 58-65). */
  function Draft(comp: Composer, p: Platform, k: nat, c: FacebookComment): Result<string, string> {
    match p.generate(k, comp.prompt(c))
    case Failure(e) => Failure(e)
    case Success(text) => Success(comp.finish(text))
  }

  /** An event that neither posts a reply nor writes the ledger. */
  predicate Inert(e: Event) {
    !e.Posted? && !e.Recorded?
  }

  /**
   * The warning for a reply that reads back empty after strip (lines 85 and 88-91);
   * `StripEmpty` says a stripped text is empty exactly when the text is blank.
   */
  function EmptyWarning(stored: StoredComment, replyId: string, commentId: string): seq<Event> {
    if Blank(stored.message.GetOr([])) then [Warned(EmptyAfterPost(replyId, commentId))] else []
  }

  /** The warning for a reply the API marks private (lines 98-101). */
  function PrivacyWarning(stored: StoredComment, replyId: string, commentId: string): seq<Event>
  {
    if stored.isPrivate == Some(true) then [Warned(MarkedPrivate(replyId, commentId))] else []
  }

  /**
   * Lines 93-97, at trace position `k`: unhide the reply, read it back and warn with
   * what it says now; the exception text if a call raised one.
   */
  function Unhide(p: Platform, k: nat, replyId: string): (seq<Event>, Option<string>)
  {
    match p.setHidden(k, replyId)
    case Failure(e) => ([Unhid(replyId)], Some(e))
    case Success(_) =>
      match p.getComment(k + 1, replyId)
      case Failure(e) => ([Unhid(replyId), ReadBack(replyId)], Some(e))
      case Success(again) => ([Unhid(replyId), ReadBack(replyId), Warned(WasHidden(replyId, again.isHidden))], None)
  }

  /**
   * Lines 83-101 for a truthy reply id, at trace position `k`: the events of the check
   * after the post, and the exception text if a call raised one.
   */
  function Verify(p: Platform, k: nat, replyId: string, commentId: string): (seq<Event>, Option<string>)
  {
    match p.getComment(k, replyId)
    case Failure(e) => ([ReadBack(replyId)], Some(e))
    case Success(stored) => Inspect(p, k, stored, replyId, commentId)
  }

  /** Lines 84-101: what follows a read-back, at trace position `k`, that gave `stored`. */
  function Inspect(p: Platform, k: nat, stored: StoredComment, replyId: string, commentId: string): (seq<Event>, Option<string>)
  {
    var t := [ReadBack(replyId)] + EmptyWarning(stored, replyId, commentId);
    if stored.isHidden == Some(true) then
      var u := Unhide(p, k + |t|, replyId);
      if u.1.Some? then (t + u.0, u.1) else (t + u.0 + PrivacyWarning(stored, replyId, commentId), None)
    else (t + PrivacyWarning(stored, replyId, commentId), None)
  }

  /** The check neither posts nor records, and starts by reading the reply back. */
  lemma VerifyInert(p: Platform, k: nat, replyId: string, commentId: string)
    ensures var t := Verify(p, k, replyId, commentId).0;
            t != [] && t[0] == ReadBack(replyId) && forall i :: 0 <= i < |t| ==> Inert(t[i])
  {
    var t := Verify(p, k, replyId, commentId).0;
    if p.getComment(k, replyId).Success? {
      var stored := p.getComment(k, replyId).value;
      var head := [ReadBack(replyId)] + EmptyWarning(stored, replyId, commentId);
      var tail := PrivacyWarning(stored, replyId, commentId);
      assert forall i :: 0 <= i < |head| ==> Inert(head[i]);
      assert forall i :: 0 <= i < |tail| ==> Inert(tail[i]);
      if stored.isHidden == Some(true) {
        var u := Unhide(p, k + |head|, replyId);
        assert forall i :: 0 <= i < |u.0| ==> Inert(u.0[i]);
        assert t == head + u.0 || t == head + u.0 + tail;
      } else {
        assert t == head + tail;
      }
    }
  }

  /**
   * The reply is unhidden exactly when the first read-back says `is_hidden` is `True`,
   * and then once.
   */
  lemma VerifyUnhides(p: Platform, k: nat, replyId: string, commentId: string)
    ensures var t := Verify(p, k, replyId, commentId).0;
            && ((exists i :: 0 <= i < |t| && t[i].Unhid?)
                <==> p.getComment(k, replyId).Success? && p.getComment(k, replyId).value.isHidden == Some(true))
            && UnhideOnceAfter(t, 0)
  {
    var t := Verify(p, k, replyId, commentId).0;
    if p.getComment(k, replyId).Success? {
      var stored := p.getComment(k, replyId).value;
      var head := [ReadBack(replyId)] + EmptyWarning(stored, replyId, commentId);
      assert forall i :: 0 <= i < |head| ==> !head[i].Unhid?;
      if stored.isHidden == Some(true) {
        var u := Unhide(p, k + |head|, replyId);
        var tail := if u.1.Some? then [] else PrivacyWarning(stored, replyId, commentId);
        assert t == head + u.0 + tail;
        assert t[|head|].Unhid?;
      } else {
        assert t == head + PrivacyWarning(stored, replyId, commentId);
      }
    }
  }

  /**
   * When every read-back and unhide call succeeds, the check raises nothing, and the
   * private flag adds its warning and nothing else.
   */
  lemma VerifyOnlyWarns(p: Platform, k: nat, replyId: string, commentId: string)
    requires forall j: nat, id :: p.getComment(j, id).Success? && p.setHidden(j, id).Success?
    ensures Verify(p, k, replyId, commentId).1.None?
    ensures Warned(MarkedPrivate(replyId, commentId)) in Verify(p, k, replyId, commentId).0
        <==> p.getComment(k, replyId).value.isPrivate == Some(true)
  {
    var t := Verify(p, k, replyId, commentId).0;
    var stored := p.getComment(k, replyId).value;
    var head := [ReadBack(replyId)] + EmptyWarning(stored, replyId, commentId);
    assert Warned(MarkedPrivate(replyId, commentId)) !in head;
    if stored.isHidden == Some(true) {
      var u := Unhide(p, k + |head|, replyId);
      assert Warned(MarkedPrivate(replyId, commentId)) !in u.0 by {
        assert u.0 == [Unhid(replyId), ReadBack(replyId), Warned(WasHidden(replyId, p.getComment(k + |head| + 1, replyId).value.isHidden))];
      }
      assert t == head + u.0 + PrivacyWarning(stored, replyId, commentId);
    } else {
      assert t == head + PrivacyWarning(stored, replyId, commentId);
    }
  }

  /** `state.mark_replied(c.id, reply, c.post_id)`, with the clock read at trace position `|trace|`. */
  function Record(p: Platform, ledger: Ledger, trace: seq<Event>, commentId: string, reply: string, postId: Option<string>): Run
  {
    Run(Upsert(ledger, commentId, reply, postId, p.clock(|trace|)),
        trace + [Recorded(ReplyRecord(commentId, reply, p.clock(|trace|), postId))],
        None)
  }

  /** Lines 80-103: post the reply, check it, and record it unless a call raised. */
  function Deliver(p: Platform, ledger: Ledger, t1: seq<Event>, id: string, reply: string, postId: Option<string>): (r: Run)
    ensures t1 + [Posted(id, reply)] <= r.trace
  {
    var t2 := t1 + [Posted(id, reply)];
    match p.reply(|t1|, id, reply)
    case Failure(e) => Run(ledger, t2, Some(Abort(Posting, e)))
    case Success(replyId) =>
      if !Truthy(replyId) then Record(p, ledger, t2, id, reply, postId)
      else
        var v := Verify(p, |t2|, replyId.value, id);
        if v.1.Some? then Run(ledger, t2 + v.0, Some(Abort(Verifying, v.1.value)))
        else Record(p, ledger, t2 + v.0, id, reply, postId)
  }

  /** Lines 64-79, after the prompt was sent: act on the model's answer. */
  function Answer(s: Settings, p: Platform, ledger: Ledger, t1: seq<Event>, id: string, postId: Option<string>,
                  draft: Result<string, string>): (r: Run)
    ensures t1 <= r.trace
  {
    match draft
    case Failure(e) => Run(ledger, t1, Some(Abort(Generating, e)))
    case Success(reply) =>
      if reply == [] then Run(ledger, t1, None)
      else if s.dryRun then Record(p, ledger, t1, id, reply, postId)
      else Deliver(p, ledger, t1, id, reply, postId)
  }

  /** One iteration of the inner loop (lines 40-103); a run that has already failed is left alone. */
  function HandleComment(s: Settings, comp: Composer, p: Platform, run: Run, c: FacebookComment): (r: Run)
    ensures run.trace <= r.trace
  {
    if run.abort.Some? || Screen(s, run.ledger, c) != Candidate then run
    else Answer(s, p, run.ledger, run.trace + [Generated(comp.prompt(c))], c.id.value, c.postId, Draft(comp, p, |run.trace|, c))
  }

  /** The events a step added to the run. */
  function Added(run: Run, r: Run): seq<Event>
    requires run.trace <= r.trace
  {
    r.trace[|run.trace|..]
  }

  /** A pass that has failed, or a comment the filters reject, changes nothing. */
  lemma Skipped(s: Settings, comp: Composer, p: Platform, run: Run, c: FacebookComment)
    requires run.abort.Some? || Screen(s, run.ledger, c) != Candidate
    ensures HandleComment(s, comp, p, run, c) == run
  {
  }

  /** A comment whose author is unknown is never taken for one of the Page's own. */
  lemma AnonymousNotOwn(s: Settings, ledger: Ledger, c: FacebookComment)
    requires c.fromId.None?
    ensures Screen(s, ledger, c) != OwnComment
  {
  }

  /** An empty reply after post-processing: the model was asked, nothing is posted or written. */
  lemma EmptyReplyDoesNothing(s: Settings, comp: Composer, p: Platform, run: Run, c: FacebookComment)
    requires run.abort.None? && Screen(s, run.ledger, c) == Candidate
    requires Draft(comp, p, |run.trace|, c) == Success([])
    ensures HandleComment(s, comp, p, run, c) == Run(run.ledger, run.trace + [Generated(comp.prompt(c))], None)
  {
  }

  /** A failing model call ends the cycle before anything is posted or written. */
  lemma GenerationFailure(s: Settings, comp: Composer, p: Platform, run: Run, c: FacebookComment)
    requires run.abort.None? && Screen(s, run.ledger, c) == Candidate
    requires Draft(comp, p, |run.trace|, c).Failure?
    ensures HandleComment(s, comp, p, run, c)
         == Run(run.ledger, run.trace + [Generated(comp.prompt(c))],
                Some(Abort(Generating, Draft(comp, p, |run.trace|, c).error)))
  {
  }

  /**
   * In a dry run the reply that would have been sent is recorded right after the
   * model call, as if it had been posted.
   */
  lemma DryRunRecords(s: Settings, comp: Composer, p: Platform, run: Run, c: FacebookComment)
    requires s.dryRun && run.abort.None? && Screen(s, run.ledger, c) == Candidate
    requires Draft(comp, p, |run.trace|, c).Success? && Draft(comp, p, |run.trace|, c).value != []
    ensures var reply := Draft(comp, p, |run.trace|, c).value;
            var at := p.clock(|run.trace| + 1);
            (HandleComment(s, comp, p, run, c)
             == Run(Upsert(run.ledger, c.id.value, reply, c.postId, at),
                    run.trace + [Generated(comp.prompt(c)), Recorded(ReplyRecord(c.id.value, reply, at, c.postId))],
                    None))
  {
  }

  /** Whatever the model answers, a dry run sends nothing to the Graph API for a comment. */
  lemma DryRunSendsNothing(s: Settings, comp: Composer, p: Platform, run: Run, c: FacebookComment)
    requires s.dryRun
    ensures forall e :: e in Added(run, HandleComment(s, comp, p, run, c)) ==> RequestOf(s, e).None?
  {
    var r := HandleComment(s, comp, p, run, c);
    if run.abort.None? && Screen(s, run.ledger, c) == Candidate {
      var t1 := run.trace + [Generated(comp.prompt(c))];
      var draft := Draft(comp, p, |run.trace|, c);
      if draft.Success? && draft.value != [] {
        DryRunRecords(s, comp, p, run, c);
      } else {
        assert r.trace == t1;
      }
    }
  }

  /**
   * Live: once `reply_to_comment` has returned, the record is written whether or not
   * the response holds a reply id, and whatever the read-back says about hidden or
   * private, provided the read-back and unhide calls do not raise.
   */
  lemma DeliveredIsRecorded(p: Platform, ledger: Ledger, t1: seq<Event>, id: string, reply: string, postId: Option<string>)
    requires p.reply(|t1|, id, reply).Success?
    requires forall j: nat, id :: p.getComment(j, id).Success? && p.setHidden(j, id).Success?
    ensures var r := Deliver(p, ledger, t1, id, reply, postId);
            && r.abort.None?
            && r.ledger == Upsert(ledger, id, reply, postId, p.clock(|r.trace| - 1))
  {
    var replyId := p.reply(|t1|, id, reply).value;
    var t2 := t1 + [Posted(id, reply)];
    if Truthy(replyId) {
      VerifyOnlyWarns(p, |t2|, replyId.value, id);
      var v := Verify(p, |t2|, replyId.value, id);
      assert Deliver(p, ledger, t1, id, reply, postId) == Record(p, ledger, t2 + v.0, id, reply, postId);
    } else {
      assert Deliver(p, ledger, t1, id, reply, postId) == Record(p, ledger, t2, id, reply, postId);
    }
  }

  /** A call that raises after the post (lines 80-97) leaves the ledger as it was. */
  lemma DeliveryFailureWritesNothing(p: Platform, ledger: Ledger, t1: seq<Event>, id: string, reply: string, postId: Option<string>)
    requires Deliver(p, ledger, t1, id, reply, postId).abort.Some?
    ensures Deliver(p, ledger, t1, id, reply, postId).ledger == ledger
    ensures Deliver(p, ledger, t1, id, reply, postId).abort.value.stage in {Posting, Verifying}
  {
  }

  /** The same for a live comment: its reply is recorded once posted, unless a later call raised. */
  lemma LivePostIsRecorded(s: Settings, comp: Composer, p: Platform, run: Run, c: FacebookComment)
    requires !s.dryRun && run.abort.None? && Screen(s, run.ledger, c) == Candidate
    requires Draft(comp, p, |run.trace|, c).Success? && Draft(comp, p, |run.trace|, c).value != []
    requires p.reply(|run.trace| + 1, c.id.value, Draft(comp, p, |run.trace|, c).value).Success?
    requires forall j: nat, id :: p.getComment(j, id).Success? && p.setHidden(j, id).Success?
    ensures var r := HandleComment(s, comp, p, run, c);
            && r.abort.None?
            && Posted(c.id.value, Draft(comp, p, |run.trace|, c).value) in r.trace
            && r.ledger == Upsert(run.ledger, c.id.value, Draft(comp, p, |run.trace|, c).value, c.postId, p.clock(|r.trace| - 1))
  {
    var t1 := run.trace + [Generated(comp.prompt(c))];
    var reply := Draft(comp, p, |run.trace|, c).value;
    DeliveredIsRecorded(p, run.ledger, t1, c.id.value, reply, c.postId);
    var r := Deliver(p, run.ledger, t1, c.id.value, reply, c.postId);
    assert r.trace[|t1|] == Posted(c.id.value, reply);
  }

  /** At most one unhide in `t`, and only after the read-back at position `k`. */
  predicate UnhideOnceAfter(t: seq<Event>, k: nat) {
    && (forall i, j :: 0 <= i < j < |t| && t[i].Unhid? ==> !t[j].Unhid?)
    && (forall i :: 0 <= i < |t| && t[i].Unhid? ==> k < i && t[k].ReadBack?)
  }

  predicate NoUnhide(t: seq<Event>) {
    forall i :: 0 <= i < |t| ==> !t[i].Unhid?
  }

  lemma UnhideFramed(a: seq<Event>, b: seq<Event>, c: seq<Event>, k: nat)
    requires NoUnhide(a) && NoUnhide(c) && UnhideOnceAfter(b, k)
    ensures UnhideOnceAfter(a + b + c, |a| + k)
  {
    var t := a + b + c;
    assert forall i :: 0 <= i < |t| && t[i].Unhid? ==> |a| <= i < |a| + |b| && b[i - |a|] == t[i];
  }

  /** Delivery adds at most one unhide, and only after the read-back that follows the post. */
  lemma DeliveryUnhides(p: Platform, ledger: Ledger, t1: seq<Event>, id: string, reply: string, postId: Option<string>)
    ensures UnhideOnceAfter(Deliver(p, ledger, t1, id, reply, postId).trace[|t1|..], 1)
  {
    var r := Deliver(p, ledger, t1, id, reply, postId);
    var tail := DeliverTrace(p, ledger, t1, id, reply, postId);
    var t2 := t1 + [Posted(id, reply)];
    if r.abort.Some? {
      UnhideAfterPost(t1, Posted(id, reply), tail, [], r.trace);
    } else {
      var rec := Recorded(ReplyRecord(id, reply, p.clock(|t2 + tail|), postId));
      UnhideAfterPost(t1, Posted(id, reply), tail, [rec], r.trace);
    }
  }

  lemma UnhideAfterPost(t1: seq<Event>, posted: Event, tail: seq<Event>, ext: seq<Event>, trace: seq<Event>)
    requires trace == t1 + [posted] + tail + ext
    requires !posted.Unhid? && NoUnhide(ext) && UnhideOnceAfter(tail, 0)
    ensures UnhideOnceAfter(trace[|t1|..], 1)
  {
    assert trace[|t1|..] == [posted] + tail + ext;
    UnhideFramed([posted], tail, ext, 0);
  }

  /**
   * A comment adds at most one unhide, and only after the read-back of a posted reply;
   * a dry run adds none.
   */
  lemma UnhideAtMostOnce(s: Settings, comp: Composer, p: Platform, run: Run, c: FacebookComment)
    ensures UnhideOnceAfter(Added(run, HandleComment(s, comp, p, run, c)), 2)
    ensures s.dryRun ==> NoUnhide(Added(run, HandleComment(s, comp, p, run, c)))
  {
    var r := HandleComment(s, comp, p, run, c);
    if run.abort.None? && Screen(s, run.ledger, c) == Candidate {
      var g := Generated(comp.prompt(c));
      var t1 := run.trace + [g];
      var draft := Draft(comp, p, |run.trace|, c);
      var rest := r.trace[|t1|..];
      assert Added(run, r) == [g] + rest + [];
      if draft.Success? && draft.value != [] && !s.dryRun {
        DeliveryUnhides(p, run.ledger, t1, c.id.value, draft.value, c.postId);
        UnhideFramed([g], rest, [], 1);
      } else if draft.Success? && draft.value != [] {
        assert rest == [Recorded(ReplyRecord(c.id.value, draft.value, p.clock(|t1|), c.postId))];
      } else {
        assert rest == [];
      }
    } else {
      assert Added(run, r) == [];
    }
  }

  // ---------------------------------------------------------------------------
  // The loops (lines 35-103)
  // ---------------------------------------------------------------------------

  /** The inner loop over the comments of one post. */
  function CommentsPass(s: Settings, comp: Composer, p: Platform, start: Run, comments: seq<FacebookComment>): Run
    decreases |comments|
  {
    if comments == [] then start
    else HandleComment(s, comp, p, CommentsPass(s, comp, p, start, comments[..|comments| - 1]), comments[|comments| - 1])
  }

  /** One iteration of the outer loop: fetch the comments of the post, then walk them. */
  function HandlePost(s: Settings, comp: Composer, p: Platform, run: Run, post: FacebookPost): Run {
    if run.abort.Some? then run
    else
      var t := run.trace + [FetchedComments(post.id)];
      match p.comments(|run.trace|, post.id)
      case Failure(e) => Run(run.ledger, t, Some(Abort(FetchingComments, e)))
      case Success(data) => CommentsPass(s, comp, p, Run(run.ledger, t, None), CommentsOf(post.id, ItemsOf(data), true))
  }

  /** The outer loop over the posts. */
  function PostsPass(s: Settings, comp: Composer, p: Platform, start: Run, posts: seq<FacebookPost>): Run
    decreases |posts|
  {
    if posts == [] then start
    else HandlePost(s, comp, p, PostsPass(s, comp, p, start, posts[..|posts| - 1]), posts[|posts| - 1])
  }

  /** The body of the `try` (lines 34-103), over the ledger the cycle starts with. */
  function Cycle(s: Settings, comp: Composer, p: Platform, ledger: Ledger): Run {
    match p.feed(0)
    case Failure(e) => Run(ledger, [FetchedPosts], Some(Abort(FetchingPosts, e)))
    case Success(data) => PostsPass(s, comp, p, Run(ledger, [FetchedPosts], None), PostsOf(ItemsOf(data)))
  }

  /** Once a pass has failed, the rest of the comments change nothing. */
  lemma {:induction false} CommentsAbortSticks(s: Settings, comp: Composer, p: Platform, start: Run, comments: seq<FacebookComment>, n: nat)
    requires n <= |comments| && CommentsPass(s, comp, p, start, comments[..n]).abort.Some?
    ensures CommentsPass(s, comp, p, start, comments) == CommentsPass(s, comp, p, start, comments[..n])
    decreases |comments| - n
  {
    if n < |comments| {
      var m := |comments| - 1;
      assert comments[..m][..n] == comments[..n];
      CommentsAbortSticks(s, comp, p, start, comments[..m], n);
      assert comments[..|comments|] == comments;
    } else {
      assert comments[..n] == comments;
    }
  }

  /** Once a pass has failed, the rest of the posts change nothing. */
  lemma {:induction false} PostsAbortSticks(s: Settings, comp: Composer, p: Platform, start: Run, posts: seq<FacebookPost>, n: nat)
    requires n <= |posts| && PostsPass(s, comp, p, start, posts[..n]).abort.Some?
    ensures PostsPass(s, comp, p, start, posts) == PostsPass(s, comp, p, start, posts[..n])
    decreases |posts| - n
  {
    if n < |posts| {
      var m := |posts| - 1;
      assert posts[..m][..n] == posts[..n];
      PostsAbortSticks(s, comp, p, start, posts[..m], n);
    } else {
      assert posts[..n] == posts;
    }
  }

  // ---------------------------------------------------------------------------
  // What a cycle keeps true
  // ---------------------------------------------------------------------------

  /** The ledger after the writes an event sequence records, in order. */
  function Apply(ledger: Ledger, trace: seq<Event>): Ledger
    decreases |trace|
  {
    if trace == [] then ledger
    else
      var before := Apply(ledger, trace[..|trace| - 1]);
      match trace[|trace| - 1]
      case Recorded(r) => Upsert(before, r.commentId, r.replyText, r.postId, r.repliedAt)
      case _ => before
  }

  /** The comments replied to (or attempted), in order. */
  function PostedIds(trace: seq<Event>): seq<string>
    decreases |trace|
  {
    if trace == [] then []
    else PostedIds(trace[..|trace| - 1]) + (if trace[|trace| - 1].Posted? then [trace[|trace| - 1].commentId] else [])
  }

  predicate NoDup(xs: seq<string>) {
    forall i, j :: 0 <= i < j < |xs| ==> xs[i] != xs[j]
  }

  /** A run that did not fail between posting a reply and recording it. */
  predicate Settled(run: Run) {
    run.abort.None? || (run.abort.value.stage != Posting && run.abort.value.stage != Verifying)
  }

  lemma {:induction false} ApplyAppend(ledger: Ledger, a: seq<Event>, b: seq<Event>)
    ensures Apply(ledger, a + b) == Apply(Apply(ledger, a), b)
    decreases |b|
  {
    if b == [] {
      assert a + b == a;
    } else {
      var m := |b| - 1;
      assert (a + b)[..|a + b| - 1] == a + b[..m];
      ApplyAppend(ledger, a, b[..m]);
    }
  }

  lemma {:induction false} PostedIdsAppend(a: seq<Event>, b: seq<Event>)
    ensures PostedIds(a + b) == PostedIds(a) + PostedIds(b)
    decreases |b|
  {
    if b == [] {
      assert a + b == a;
    } else {
      var m := |b| - 1;
      assert (a + b)[..|a + b| - 1] == a + b[..m];
      PostedIdsAppend(a, b[..m]);
    }
  }

  /**
   * The invariant of a cycle that began from `start`: the ledger is the start ledger
   * with the recorded writes applied, no comment was replied to twice, none of them was
   * in the start ledger, and unless the run failed between a post and its record, every
   * comment replied to is in the ledger.
   */
  predicate Good(start: Run, run: Run) {
    && start.trace <= run.trace
    && run.ledger == Apply(start.ledger, run.trace[|start.trace|..])
    && start.ledger.Keys <= run.ledger.Keys
    && NoDup(PostedIds(run.trace[|start.trace|..]))
    && (forall id :: id in PostedIds(run.trace[|start.trace|..]) ==> id !in start.ledger)
    && (Settled(run) ==> forall id :: id in PostedIds(run.trace[|start.trace|..]) ==> id in run.ledger)
  }

  lemma {:induction false} ApplyKeys(ledger: Ledger, trace: seq<Event>)
    ensures ledger.Keys <= Apply(ledger, trace).Keys
    decreases |trace|
  {
    if trace != [] {
      ApplyKeys(ledger, trace[..|trace| - 1]);
    }
  }

  /** Events that neither post nor record leave the ledger and the posted ids alone. */
  lemma {:induction false} Quiet(t: seq<Event>)
    requires forall i :: 0 <= i < |t| ==> Inert(t[i])
    ensures forall ledger :: Apply(ledger, t) == ledger
    ensures PostedIds(t) == []
    decreases |t|
  {
    if t != [] {
      Quiet(t[..|t| - 1]);
    }
  }

  lemma Single(ledger: Ledger, e: Event)
    ensures Apply(ledger, [e]) == (if e.Recorded? then Upsert(ledger, e.record.commentId, e.record.replyText, e.record.postId, e.record.repliedAt) else ledger)
    ensures PostedIds([e]) == (if e.Posted? then [e.commentId] else [])
  {
    assert [e][..0] == [];
  }

  /** What delivery does to the ledger and the posted ids. */
  lemma DeliverShape(p: Platform, ledger: Ledger, t1: seq<Event>, id: string, reply: string, postId: Option<string>)
    ensures var r := Deliver(p, ledger, t1, id, reply, postId);
            var added := r.trace[|t1|..];
            && r.ledger == Apply(ledger, added)
            && PostedIds(added) == [id]
            && (Settled(r) ==> id in r.ledger)
  {
    var r := Deliver(p, ledger, t1, id, reply, postId);
    var t2 := t1 + [Posted(id, reply)];
    var tail := DeliverTrace(p, ledger, t1, id, reply, postId);
    if r.abort.None? {
      var rec := Recorded(ReplyRecord(id, reply, p.clock(|t2 + tail|), postId));
      RecordedDelivery(ledger, t1, Posted(id, reply), tail, rec, r);
    } else {
      AbortedDelivery(ledger, t1, Posted(id, reply), tail, r);
    }
  }

  /** A delivery that raised after the post: the post, inert events, and no write. */
  lemma AbortedDelivery(ledger: Ledger, t1: seq<Event>, posted: Event, tail: seq<Event>, r: Run)
    requires posted.Posted? && forall i :: 0 <= i < |tail| ==> Inert(tail[i])
    requires r.trace == t1 + [posted] + tail && r.ledger == ledger
    ensures r.ledger == Apply(ledger, r.trace[|t1|..]) && PostedIds(r.trace[|t1|..]) == [posted.commentId]
  {
    assert r.trace[|t1|..] == [posted] + tail;
    QuietPost(ledger, posted.commentId, posted.reply, tail);
  }

  /** A delivery that went through: the post, inert events, and the record of that comment. */
  lemma RecordedDelivery(ledger: Ledger, t1: seq<Event>, posted: Event, tail: seq<Event>, rec: Event, r: Run)
    requires posted.Posted? && forall i :: 0 <= i < |tail| ==> Inert(tail[i])
    requires rec.Recorded? && rec.record.commentId == posted.commentId
    requires r.trace == t1 + [posted] + tail + [rec]
    requires r.ledger == Upsert(ledger, rec.record.commentId, rec.record.replyText, rec.record.postId, rec.record.repliedAt)
    ensures r.ledger == Apply(ledger, r.trace[|t1|..]) && PostedIds(r.trace[|t1|..]) == [posted.commentId]
    ensures posted.commentId in r.ledger
  {
    assert r.trace[|t1|..] == [posted] + tail + [rec];
    QuietPost(ledger, posted.commentId, posted.reply, tail);
    ThenRecord(ledger, [posted] + tail, rec);
  }

  /**
   * Delivery is the post, then events that neither post nor record, then the record
   * unless a call raised.
   */
  lemma DeliverTrace(p: Platform, ledger: Ledger, t1: seq<Event>, id: string, reply: string, postId: Option<string>)
    returns (tail: seq<Event>)
    ensures forall i :: 0 <= i < |tail| ==> Inert(tail[i])
    ensures UnhideOnceAfter(tail, 0)
    ensures var r := Deliver(p, ledger, t1, id, reply, postId);
            var t2 := t1 + [Posted(id, reply)];
            if r.abort.Some? then r.trace == t2 + tail && r.ledger == ledger
            else r == Record(p, ledger, t2 + tail, id, reply, postId)
  {
    var t2 := t1 + [Posted(id, reply)];
    tail := [];
    assert t2 + tail == t2;
    match p.reply(|t1|, id, reply) {
      case Failure(_) =>
      case Success(replyId) =>
        if Truthy(replyId) {
          VerifyInert(p, |t2|, replyId.value, id);
          VerifyUnhides(p, |t2|, replyId.value, id);
          tail := Verify(p, |t2|, replyId.value, id).0;
        }
    }
  }

  /** A post followed by inert events posts one reply and writes nothing. */
  lemma QuietPost(ledger: Ledger, id: string, reply: string, tail: seq<Event>)
    requires forall i :: 0 <= i < |tail| ==> Inert(tail[i])
    ensures Apply(ledger, [Posted(id, reply)] + tail) == ledger
    ensures PostedIds([Posted(id, reply)] + tail) == [id]
  {
    Single(ledger, Posted(id, reply));
    Quiet(tail);
    ApplyAppend(ledger, [Posted(id, reply)], tail);
    PostedIdsAppend([Posted(id, reply)], tail);
  }

  /** Recording after events that wrote nothing writes that one row and posts nothing more. */
  lemma ThenRecord(ledger: Ledger, pre: seq<Event>, rec: Event)
    requires Apply(ledger, pre) == ledger && rec.Recorded?
    ensures Apply(ledger, pre + [rec])
         == Upsert(ledger, rec.record.commentId, rec.record.replyText, rec.record.postId, rec.record.repliedAt)
    ensures PostedIds(pre + [rec]) == PostedIds(pre)
  {
    ApplyAppend(ledger, pre, [rec]);
    PostedIdsAppend(pre, [rec]);
    Single(ledger, rec);
  }

  /** What acting on the model's answer does to the ledger and the posted ids. */
  lemma AnswerShape(s: Settings, p: Platform, ledger: Ledger, t1: seq<Event>, id: string, postId: Option<string>,
                    draft: Result<string, string>)
    ensures var r := Answer(s, p, ledger, t1, id, postId, draft);
            var added := r.trace[|t1|..];
            && r.ledger == Apply(ledger, added)
            && (PostedIds(added) == [] || (PostedIds(added) == [id] && (Settled(r) ==> id in r.ledger)))
  {
    var r := Answer(s, p, ledger, t1, id, postId, draft);
    if draft.Success? && draft.value != [] {
      if s.dryRun {
        var rec := Recorded(ReplyRecord(id, draft.value, p.clock(|t1|), postId));
        assert r.trace[|t1|..] == [rec];
        Single(ledger, rec);
      } else {
        DeliverShape(p, ledger, t1, id, draft.value, postId);
      }
    } else {
      assert r.trace[|t1|..] == [];
    }
  }

  /** What one comment does to the ledger and the posted ids. */
  lemma HandleShape(s: Settings, comp: Composer, p: Platform, run: Run, c: FacebookComment)
    ensures var r := HandleComment(s, comp, p, run, c);
            && r.ledger == Apply(run.ledger, Added(run, r))
            && (run.abort.Some? ==> r == run)
            && (PostedIds(Added(run, r)) == []
                || (&& run.abort.None? && Truthy(c.id) && c.id.value !in run.ledger
                    && PostedIds(Added(run, r)) == [c.id.value]
                    && (Settled(r) ==> c.id.value in r.ledger)))
  {
    var r := HandleComment(s, comp, p, run, c);
    if run.abort.None? && Screen(s, run.ledger, c) == Candidate {
      var g := Generated(comp.prompt(c));
      var t1 := run.trace + [g];
      var a := Answer(s, p, run.ledger, t1, c.id.value, c.postId, Draft(comp, p, |run.trace|, c));
      assert r == a;
      AnswerShape(s, p, run.ledger, t1, c.id.value, c.postId, Draft(comp, p, |run.trace|, c));
      InertHead(run.ledger, run.trace, g, a.trace);
    } else {
      assert Added(run, r) == [];
    }
  }

  /** An inert event before the rest of a step changes nothing the step does. */
  lemma InertHead(ledger: Ledger, trace: seq<Event>, g: Event, after: seq<Event>)
    requires Inert(g) && trace + [g] <= after
    ensures Apply(ledger, after[|trace|..]) == Apply(ledger, after[|trace| + 1..])
    ensures PostedIds(after[|trace|..]) == PostedIds(after[|trace| + 1..])
  {
    var tail := after[|trace| + 1..];
    assert after[|trace|..] == [g] + tail;
    Single(ledger, g);
    ApplyAppend(ledger, [g], tail);
    PostedIdsAppend([g], tail);
  }

  /** One comment keeps the invariant. */
  lemma HandleKeeps(s: Settings, comp: Composer, p: Platform, start: Run, run: Run, c: FacebookComment)
    requires Good(start, run)
    ensures Good(start, HandleComment(s, comp, p, run, c))
  {
    HandleShape(s, comp, p, run, c);
    StepKeeps(start, run, HandleComment(s, comp, p, run, c), c.id.GetOr([]));
  }

  /** A step that posts at most one reply, to a comment not in the ledger, keeps the invariant. */
  lemma StepKeeps(start: Run, run: Run, r: Run, id: string)
    requires Good(start, run) && run.trace <= r.trace
    requires r.ledger == Apply(run.ledger, Added(run, r))
    requires run.abort.Some? ==> r == run
    requires PostedIds(Added(run, r)) == []
             || (&& run.abort.None? && id !in run.ledger
                 && PostedIds(Added(run, r)) == [id]
                 && (Settled(r) ==> id in r.ledger))
    ensures Good(start, r)
  {
    if run.abort.None? {
      var before := run.trace[|start.trace|..];
      var d := Added(run, r);
      assert r.trace[|start.trace|..] == before + d;
      ApplyAppend(start.ledger, before, d);
      PostedIdsAppend(before, d);
      ApplyKeys(run.ledger, d);
      if PostedIds(d) != [] {
        assert id !in PostedIds(before);
        var all := PostedIds(before) + [id];
        assert forall i :: 0 <= i < |all| - 1 ==> all[i] == PostedIds(before)[i];
      }
    }
  }

  /** The comments of a post keep the invariant. */
  lemma {:induction false} CommentsKeep(s: Settings, comp: Composer, p: Platform, start: Run, init: Run, comments: seq<FacebookComment>)
    requires Good(start, init)
    ensures Good(start, CommentsPass(s, comp, p, init, comments))
    decreases |comments|
  {
    if comments != [] {
      CommentsKeep(s, comp, p, start, init, comments[..|comments| - 1]);
      HandleKeeps(s, comp, p, start, CommentsPass(s, comp, p, init, comments[..|comments| - 1]), comments[|comments| - 1]);
    }
  }

  /** Appending an event that neither posts nor records keeps the invariant. */
  lemma InertKeeps(start: Run, run: Run, e: Event, abort: Option<Abort>)
    requires Good(start, run) && Inert(e) && run.abort.None?
    requires abort.None? || Settled(Run(run.ledger, run.trace + [e], abort))
    ensures Good(start, Run(run.ledger, run.trace + [e], abort))
  {
    var before := run.trace[|start.trace|..];
    assert (run.trace + [e])[|start.trace|..] == before + [e];
    ApplyAppend(start.ledger, before, [e]);
    PostedIdsAppend(before, [e]);
    Single(run.ledger, e);
  }

  /** A post keeps the invariant. */
  lemma PostKeeps(s: Settings, comp: Composer, p: Platform, start: Run, run: Run, post: FacebookPost)
    requires Good(start, run)
    ensures Good(start, HandlePost(s, comp, p, run, post))
  {
    if run.abort.None? {
      var e := FetchedComments(post.id);
      match p.comments(|run.trace|, post.id) {
        case Failure(err) =>
          InertKeeps(start, run, e, Some(Abort(FetchingComments, err)));
        case Success(data) =>
          InertKeeps(start, run, e, None);
          CommentsKeep(s, comp, p, start, Run(run.ledger, run.trace + [e], None), CommentsOf(post.id, ItemsOf(data), true));
      }
    }
  }

  lemma {:induction false} PostsKeep(s: Settings, comp: Composer, p: Platform, start: Run, init: Run, posts: seq<FacebookPost>)
    requires Good(start, init)
    ensures Good(start, PostsPass(s, comp, p, init, posts))
    decreases |posts|
  {
    if posts != [] {
      PostsKeep(s, comp, p, start, init, posts[..|posts| - 1]);
      PostKeeps(s, comp, p, start, PostsPass(s, comp, p, init, posts[..|posts| - 1]), posts[|posts| - 1]);
    }
  }

  /**
   * What a cycle keeps true, whether or not an exception ended it: the ledger is the
   * one it started with plus the writes it recorded (none is lost to the exception),
   * no comment gets two replies, no comment already in the ledger gets one, and unless
   * the exception came between posting a reply and recording it, every comment replied
   * to is in the ledger.
   */
  lemma CycleInvariant(s: Settings, comp: Composer, p: Platform, ledger: Ledger)
    ensures var r := Cycle(s, comp, p, ledger);
            && r.ledger == Apply(ledger, r.trace)
            && ledger.Keys <= r.ledger.Keys
            && NoDup(PostedIds(r.trace))
            && (forall id :: id in PostedIds(r.trace) ==> id !in ledger)
            && (Settled(r) ==> forall id :: id in PostedIds(r.trace) ==> id in r.ledger)
  {
    var start := Run(ledger, [], None);
    var first := Run(ledger, [FetchedPosts], None);
    assert Good(start, start) by {
      assert start.trace[0..] == [];
    }
    match p.feed(0) {
      case Failure(e) =>
        InertKeeps(start, start, FetchedPosts, Some(Abort(FetchingPosts, e)));
      case Success(data) =>
        InertKeeps(start, start, FetchedPosts, None);
        PostsKeep(s, comp, p, start, first, PostsOf(ItemsOf(data)));
    }
    assert Cycle(s, comp, p, ledger).trace[0..] == Cycle(s, comp, p, ledger).trace;
  }

  // ---------------------------------------------------------------------------
  // Many cycles (the `while True` loop, lines 33-108)
  // ---------------------------------------------------------------------------

  /** The ledger after some cycles. */
  function LedgerAfter(runs: seq<Run>, ledger: Ledger): Ledger {
    if runs == [] then ledger else runs[|runs| - 1].ledger
  }

  /** The cycles run with the platform answers `ps`, one after the other, over a ledger. */
  function Cycles(s: Settings, comp: Composer, ps: seq<Platform>, ledger: Ledger): (runs: seq<Run>)
    ensures |runs| == |ps|
    decreases |ps|
  {
    if ps == [] then []
    else
      var prev := Cycles(s, comp, ps[..|ps| - 1], ledger);
      prev + [Cycle(s, comp, ps[|ps| - 1], LedgerAfter(prev, ledger))]
  }

  /** The comments replied to over several cycles, in order. */
  function AllPosted(runs: seq<Run>): seq<string>
    decreases |runs|
  {
    if runs == [] then [] else AllPosted(runs[..|runs| - 1]) + PostedIds(runs[|runs| - 1].trace)
  }

  /**
   * Across cycles, no comment is replied to twice, and none that was in the ledger
   * beforehand, as long as no cycle failed between posting a reply and recording it.
   */
  lemma {:induction false} NoReplyTwice(s: Settings, comp: Composer, ps: seq<Platform>, ledger: Ledger)
    requires forall i :: 0 <= i < |ps| ==> Settled(Cycles(s, comp, ps, ledger)[i])
    ensures var runs := Cycles(s, comp, ps, ledger);
            && NoDup(AllPosted(runs))
            && ledger.Keys <= LedgerAfter(runs, ledger).Keys
            && (forall id :: id in AllPosted(runs) ==> id !in ledger && id in LedgerAfter(runs, ledger))
    decreases |ps|
  {
    if ps != [] {
      var m := |ps| - 1;
      var prev := Cycles(s, comp, ps[..m], ledger);
      var runs := Cycles(s, comp, ps, ledger);
      assert runs == prev + [runs[m]];
      assert forall i :: 0 <= i < m ==> prev[i] == runs[i];
      NoReplyTwice(s, comp, ps[..m], ledger);
      var mid := LedgerAfter(prev, ledger);
      var r := Cycle(s, comp, ps[m], mid);
      CycleInvariant(s, comp, ps[m], mid);
      assert AllPosted(runs) == AllPosted(prev) + PostedIds(r.trace);
      assert LedgerAfter(runs, ledger) == r.ledger;
      DisjointReplies(AllPosted(prev), PostedIds(r.trace), ledger, mid, r.ledger);
    }
  }

  /**
   * Replies made before the ledger `mid`, all recorded in it, and replies made after it
   * to comments not in it: together they are made once each.
   */
  lemma DisjointReplies(a: seq<string>, b: seq<string>, ledger: Ledger, mid: Ledger, after: Ledger)
    requires NoDup(a) && ledger.Keys <= mid.Keys && (forall id :: id in a ==> id !in ledger && id in mid)
    requires NoDup(b) && mid.Keys <= after.Keys && (forall id :: id in b ==> id !in mid && id in after)
    ensures NoDup(a + b) && ledger.Keys <= after.Keys
    ensures forall id :: id in a + b ==> id !in ledger && id in after
  {
    forall i, j | 0 <= i < |a| && 0 <= j < |b|
      ensures a[i] != b[j]
    {
      assert a[i] in a && b[j] in b;
    }
    assert forall id :: id in a + b ==> id in a || id in b;
  }

  // ---------------------------------------------------------------------------
  // The agent as it runs: the same steps against the reply store (lines 20-108)
  // ---------------------------------------------------------------------------

  /** Lines 93-97 at trace position `|trace|`: what `Unhide` says, as statements. */
  method UnhideReply(p: Platform, trace: seq<Event>, replyId: string)
    returns (out: seq<Event>, error: Option<string>)
    ensures (out, error) == (trace + Unhide(p, |trace|, replyId).0, Unhide(p, |trace|, replyId).1)
  {
    var unhid := p.setHidden(|trace|, replyId);
    out := trace + [Unhid(replyId)];
    if unhid.Failure? {
      return out, Some(unhid.error);
    }
    var again := p.getComment(|trace| + 1, replyId);
    out := out + [ReadBack(replyId)];
    assert out == trace + [Unhid(replyId), ReadBack(replyId)];
    if again.Failure? {
      return out, Some(again.error);
    }
    out := out + [Warned(WasHidden(replyId, again.value.isHidden))];
    assert out == trace + [Unhid(replyId), ReadBack(replyId), Warned(WasHidden(replyId, again.value.isHidden))];
    error := None;
  }

  /**
   * Lines 83-101 at trace position `|trace|`: read the reply back, warn about what it
   * says, unhide it if it came back hidden. The value of `Verify` is what this does.
   */
  method CheckReply(p: Platform, trace: seq<Event>, replyId: string, commentId: string)
    returns (out: seq<Event>, error: Option<string>)
    ensures (out, error) == (trace + Verify(p, |trace|, replyId, commentId).0, Verify(p, |trace|, replyId, commentId).1)
  {
    var read := p.getComment(|trace|, replyId);
    if read.Failure? {
      return trace + [ReadBack(replyId)], Some(read.error);
    }
    out, error := InspectReply(p, trace, read.value, replyId, commentId);
  }

  /** `not (text or "").strip()`, which is `Blank` by `StripEmpty`. */
  method StrippedEmpty(text: string) returns (b: bool)
    ensures b <==> Blank(text)
  {
    StripEmpty(text);
    b := Strip(text) == [];
  }

  /** Lines 84-101 with `stored` read back at trace position `|trace|`; the value of `Inspect`. */
  method InspectReply(p: Platform, trace: seq<Event>, stored: StoredComment, replyId: string, commentId: string)
    returns (out: seq<Event>, error: Option<string>)
    ensures (out, error) == (trace + Inspect(p, |trace|, stored, replyId, commentId).0, Inspect(p, |trace|, stored, replyId, commentId).1)
  {
    out := trace + [ReadBack(replyId)];
    var empty := StrippedEmpty(stored.message.GetOr([]));
    if empty {
      out := out + [Warned(EmptyAfterPost(replyId, commentId))];
    }
    ghost var t := [ReadBack(replyId)] + EmptyWarning(stored, replyId, commentId);
    assert out == trace + t;
    error := None;
    if stored.isHidden == Some(true) {
      out, error := UnhideReply(p, out, replyId);
      assert out == trace + (t + Unhide(p, |trace| + |t|, replyId).0);
      if error.Some? {
        return;
      }
    }
    ghost var mid := out;
    if stored.isPrivate == Some(true) {
      out := out + [Warned(MarkedPrivate(replyId, commentId))];
    }
    assert out == mid + PrivacyWarning(stored, replyId, commentId);
    if stored.isHidden == Some(true) {
      assert out == trace + (t + Unhide(p, |trace| + |t|, replyId).0 + PrivacyWarning(stored, replyId, commentId));
    } else {
      assert out == trace + (t + PrivacyWarning(stored, replyId, commentId));
    }
  }

  /** Lines 80-103 with the store: post, check, and `mark_replied` unless a call raised. */
  method DeliverReply(p: Platform, store: StateStore, t1: seq<Event>, id: string, reply: string, postId: Option<string>)
    returns (out: seq<Event>, abort: Option<Abort>)
    requires store.Valid()
    modifies store
    ensures store.Valid()
    ensures Run(store.records, out, abort) == Deliver(p, old(store.records), t1, id, reply, postId)
  {
    var resp := p.reply(|t1|, id, reply);
    out := t1 + [Posted(id, reply)];
    if resp.Failure? {
      return out, Some(Abort(Posting, resp.error));
    }
    var replyId := resp.value;
    if Truthy(replyId) {
      var error;
      out, error := CheckReply(p, out, replyId.value, id);
      if error.Some? {
        return out, Some(Abort(Verifying, error.value));
      }
    }
    var now := p.clock(|out|);
    store.MarkReplied(id, reply, postId, now);
    out := out + [Recorded(ReplyRecord(id, reply, now, postId))];
    abort := None;
  }

  /** Lines 51-103 for a comment that passed the filters, with the store. */
  method AnswerComment(s: Settings, comp: Composer, p: Platform, store: StateStore, trace: seq<Event>, c: FacebookComment)
    returns (out: seq<Event>, abort: Option<Abort>)
    requires store.Valid() && Truthy(c.id)
    modifies store
    ensures store.Valid()
    ensures Run(store.records, out, abort)
         == Answer(s, p, old(store.records), trace + [Generated(comp.prompt(c))], c.id.value, c.postId, Draft(comp, p, |trace|, c))
  {
    var parts := comp.prompt(c);
    var res := p.generate(|trace|, parts);
    out := trace + [Generated(parts)];
    if res.Failure? {
      return out, Some(Abort(Generating, res.error));
    }
    var reply := comp.finish(res.value);
    if reply == [] {
      return out, None;
    }
    if s.dryRun {
      var now := p.clock(|out|);
      store.MarkReplied(c.id.value, reply, c.postId, now);
      return out + [Recorded(ReplyRecord(c.id.value, reply, now, c.postId))], None;
    }
    out, abort := DeliverReply(p, store, out, c.id.value, reply, c.postId);
  }

  /** One iteration of the inner loop with the store: the filters of lines 40-49, then the answer. */
  method ProcessComment(s: Settings, comp: Composer, p: Platform, store: StateStore, trace: seq<Event>, c: FacebookComment)
    returns (out: seq<Event>, abort: Option<Abort>)
    requires store.Valid()
    modifies store
    ensures store.Valid()
    ensures Run(store.records, out, abort) == HandleComment(s, comp, p, Run(old(store.records), trace, None), c)
  {
    out, abort := trace, None;
    if !Truthy(c.id) {
      return;
    }
    var replied := store.HasReplied(c.id.value);
    if replied {
      return;
    }
    if Truthy(c.fromId) && c.fromId.value == s.fbPageId {
      return;
    }
    StripAtLeastTwo(c.message);
    if |Strip(c.message)| < 2 {
      return;
    }
    out, abort := AnswerComment(s, comp, p, store, trace, c);
  }

  /** The inner loop (lines 37-103) with the store, left at the first exception. */
  method RunComments(s: Settings, comp: Composer, p: Platform, store: StateStore, trace: seq<Event>, comments: seq<FacebookComment>)
    returns (out: seq<Event>, abort: Option<Abort>)
    requires store.Valid()
    modifies store
    ensures store.Valid()
    ensures Run(store.records, out, abort) == CommentsPass(s, comp, p, Run(old(store.records), trace, None), comments)
  {
    ghost var begin := Run(store.records, trace, None);
    out, abort := trace, None;
    var j := 0;
    while j < |comments|
      invariant 0 <= j <= |comments|
      invariant store.Valid()
      invariant abort.None?
      invariant Run(store.records, out, None) == CommentsPass(s, comp, p, begin, comments[..j])
    {
      assert comments[..j + 1][..j] == comments[..j];
      var r;
      out, r := ProcessComment(s, comp, p, store, out, comments[j]);
      j := j + 1;
      if r.Some? {
        CommentsAbortSticks(s, comp, p, begin, comments, j);
        return out, r;
      }
    }
    assert comments[..j] == comments;
  }

  /** One iteration of the outer loop with the store: fetch the comments of the post, then walk them. */
  method RunPost(s: Settings, comp: Composer, p: Platform, store: StateStore, trace: seq<Event>, post: FacebookPost)
    returns (out: seq<Event>, abort: Option<Abort>)
    requires store.Valid()
    modifies store
    ensures store.Valid()
    ensures Run(store.records, out, abort) == HandlePost(s, comp, p, Run(old(store.records), trace, None), post)
  {
    var fetch := p.comments(|trace|, post.id);
    out := trace + [FetchedComments(post.id)];
    if fetch.Failure? {
      return out, Some(Abort(FetchingComments, fetch.error));
    }
    var comments := IterCommentsForPost(post.id, fetch.value, true);
    out, abort := RunComments(s, comp, p, store, out, comments);
  }

  /** The outer loop (lines 36-103) with the store, left at the first exception. */
  method RunPosts(s: Settings, comp: Composer, p: Platform, store: StateStore, trace: seq<Event>, posts: seq<FacebookPost>)
    returns (out: seq<Event>, abort: Option<Abort>)
    requires store.Valid()
    modifies store
    ensures store.Valid()
    ensures Run(store.records, out, abort) == PostsPass(s, comp, p, Run(old(store.records), trace, None), posts)
  {
    ghost var begin := Run(store.records, trace, None);
    out, abort := trace, None;
    var i := 0;
    while i < |posts|
      invariant 0 <= i <= |posts|
      invariant store.Valid()
      invariant abort.None?
      invariant Run(store.records, out, None) == PostsPass(s, comp, p, begin, posts[..i])
    {
      assert posts[..i + 1][..i] == posts[..i];
      var r;
      out, r := RunPost(s, comp, p, store, out, posts[i]);
      i := i + 1;
      if r.Some? {
        PostsAbortSticks(s, comp, p, begin, posts, i);
        return out, r;
      }
    }
    assert posts[..i] == posts;
  }

  /**
   * The body of the `try` (lines 34-103) with the store: the loop over the posts, left
   * at the first exception with the writes made before it.
   */
  method RunCycle(s: Settings, comp: Composer, p: Platform, store: StateStore)
    returns (trace: seq<Event>, abort: Option<Abort>)
    requires store.Valid()
    modifies store
    ensures store.Valid()
    ensures Run(store.records, trace, abort) == Cycle(s, comp, p, old(store.records))
  {
    var feed := p.feed(0);
    if feed.Failure? {
      return [FetchedPosts], Some(Abort(FetchingPosts, feed.error));
    }
    var posts := GetRecentPosts(feed.value);
    trace, abort := RunPosts(s, comp, p, store, [FetchedPosts], posts);
  }

  /**
   * `while True` (lines 32-108), for as many cycles as there are platform answers: an
   * exception ends its cycle only, and the next cycle starts from the store as it was left.
   */
  method RunCycles(s: Settings, comp: Composer, ps: seq<Platform>, store: StateStore)
    returns (runs: seq<Run>)
    requires store.Valid()
    modifies store
    ensures store.Valid()
    ensures runs == Cycles(s, comp, ps, old(store.records))
    ensures store.records == LedgerAfter(runs, old(store.records))
  {
    ghost var ledger := store.records;
    runs := [];
    var i := 0;
    while i < |ps|
      invariant 0 <= i <= |ps|
      invariant store.Valid()
      invariant runs == Cycles(s, comp, ps[..i], ledger)
      invariant store.records == LedgerAfter(runs, ledger)
    {
      assert ps[..i + 1][..i] == ps[..i];
      var trace, abort := RunCycle(s, comp, ps[i], store);
      runs := runs + [Run(store.records, trace, abort)];
      i := i + 1;
    }
    assert ps[..i] == ps;
  }

  /** Why `main` ends before its loop: `load_settings` raised. */
  datatype Startup = Started(settings: Settings, runs: seq<Run>) | Stopped(error: ConfigError)

  /**
   * `main` (lines 20-108) over an environment: load the settings, then run the cycles
   * with the agent's own prompt and reply cleaning.
   */
  method Serve(env: Env, ps: seq<Platform>, store: StateStore) returns (r: Startup)
    requires store.Valid()
    modifies store
    ensures store.Valid()
    ensures LoadSettings(env).Failure? ==> r == Stopped(LoadSettings(env).error) && store.records == old(store.records)
    ensures LoadSettings(env).Success? ==>
              && r == Started(LoadSettings(env).value, Cycles(LoadSettings(env).value, ComposerOf(LoadSettings(env).value), ps, old(store.records)))
              && store.records == LedgerAfter(r.runs, old(store.records))
  {
    var loaded := LoadSettings(env);
    if loaded.Failure? {
      return Stopped(loaded.error);
    }
    var s := loaded.value;
    var runs := RunCycles(s, ComposerOf(s), ps, store);
    r := Started(s, runs);
  }
}
