# Facebook comment replier — a Dafny model

The replier is a polling agent. It reads the recent posts of a Facebook Page
through the Graph API and walks their comments. It skips comments it must not
answer: no id, already answered, written by the Page itself, or too short. For the
rest it asks a local language model for a reply and cleans the model's text. It
then either posts the reply or, in a dry run, only pretends to. After posting it
reads the reply back, unhides it if the API created it hidden, and writes the
comment into a sqlite ledger so the comment is never answered again. An exception
anywhere in a cycle ends that cycle; its message is logged with any access token
redacted, and the next cycle starts after a pause.

This project models that core and proves what it promises:

- `Text` and `Decimal` are the parts of Python's string built-ins the replier uses:
  - whitespace as `str.isspace` sees it, and Unicode category C;
  - `strip`/`lstrip`/`rstrip`, `re.sub(r"\s+", " ", s)`, the slice `s[:n]` and `lower`;
  - `str(int)` and `int(str)`.
- `Prompting` is `prompting.py`: the sanitizer, the prompt builder and the reply
  clean-up. `ReplyExamples` works two concrete clean-up inputs through to their results.
- `State` is `state.py`: the ledger is a map from comment id to `ReplyRecord`, held by
  a `StateStore` object whose methods read and update it.
- `Graph` is `facebook_graph.py`:
  - how responses become `FacebookPost` and `FacebookComment` records (the loops are
    methods proved against functions);
  - how requests are built: URL, parameters, token and the hidden flag.
- `Config` is `config.py`: settings loaded from an environment given as a map.
- `Agent` is `fb_agent.py`:
  - `_redact`;
  - the decisions for one comment, written as functions over a trace of events;
  - the imperative cycle loop, whose methods drive a `StateStore` and are proved equal
    to those functions;
  - the invariants of a cycle and of a sequence of cycles.

The outside world of a cycle (Graph API answers, the model's text, the clock) is a
`Platform` value. It holds one function per call, indexed by the number of events
before the call. An exception is a `Failure`. A cycle's result is a `Run`: the
ledger, the events in order, and the exception that ended it, if any.

Where the natural reading and the code differ, the model follows the code:

- `strip('"')` and `strip("'")` remove whole runs of quotes, not one pair.
- `\n` and `\t` are category Cc. The clean-up therefore deletes an interior newline
  before it collapses whitespace: `"a\nb"` becomes `"ab"`, not `"a b"` (`ReplyExamples.NewlineDeleted`).
- `postprocess_reply` is not idempotent. The double-quote strip runs before the
  single-quote strip. So the text `'"hi"'` (single quotes outside, double quotes inside)
  becomes `"hi"` on the first pass and `hi` on the second. No idempotence is claimed.
- A failure while reading back or unhiding a posted reply skips `mark_replied`. The
  reply exists but is not recorded, so the no-double-reply guarantee across cycles is
  stated for cycles that did not fail in that window (`Settled`).
- `str.lower` is modelled on ASCII letters only (`Text.LowerChar`). `_get_bool`
  compares the lowered text with ASCII words. The only non-ASCII characters whose
  lower case contains an ASCII letter are U+0130 (which lowers to two characters) and
  the Kelvin sign (which lowers to `k`). Neither can produce one of
  `1`, `true`, `yes`, `y`, `on`, so `Config.GetBool` gives Python's answer.

## Model

| member | source | states |
|---|---|---|
| Text.Strip | facebook_replier/fb_comment_agent/prompting.py:15 | the result has no whitespace at either end and is never longer; text with no whitespace at its ends is returned unchanged |
| Text.StripUnpadded | facebook_replier/fb_comment_agent/prompting.py:15 | stripping text that has no whitespace at its ends is the identity |
| Text.Trim | facebook_replier/fb_comment_agent/prompting.py:55 | `strip(chars)`: neither end of the result is a dropped character; text with nothing to drop at its ends is unchanged |
| Text.TrimStart | facebook_replier/fb_comment_agent/prompting.py:55 | `lstrip`: the result is a suffix; everything removed is a dropped character, and the result does not start with one |
| Text.TrimEnd | facebook_replier/fb_comment_agent/prompting.py:60 | `rstrip`: the result is a prefix; everything removed is a dropped character, and the result does not end with one |
| Text.TrimPadded | facebook_replier/fb_comment_agent/prompting.py:55 | stripping text padded on both sides by dropped characters gives the text back |
| Text.StripEmpty | facebook_replier/fb_comment_agent/fb_agent.py:84-87 | `s.strip()` is empty exactly when every character of `s` is whitespace |
| Text.TrimAtLeastTwo | facebook_replier/fb_comment_agent/fb_agent.py:48 | trimming leaves two or more characters exactly when the text has two characters that are not dropped |
| Text.StripAtLeastTwo | facebook_replier/fb_comment_agent/fb_agent.py:48 | `len(s.strip()) >= 2` exactly when `s` holds two non-whitespace characters |
| Text.StripTidy | facebook_replier/fb_comment_agent/prompting.py:58 | stripping single-spaced text leaves it single-spaced with no whitespace at either end |
| Text.CollapseSpaces | facebook_replier/fb_comment_agent/prompting.py:16 | `re.sub(r"\s+", " ", s)`: the result is single-spaced (`' '` is its only whitespace, never two in a row); it is never longer; it is empty only for empty input; it starts with a space only where the input starts with whitespace |
| Text.CollapseVisibleCons | facebook_replier/fb_comment_agent/prompting.py:16 | a non-whitespace character is copied, and the collapse continues after it |
| Text.CollapseRun | facebook_replier/fb_comment_agent/prompting.py:16 | a maximal run of whitespace becomes exactly one `' '`; with `CollapseVisibleCons` this determines the result on every input |
| Text.TrimSpaceRun | facebook_replier/fb_comment_agent/prompting.py:15 | `lstrip()` removes a whole leading run of whitespace and nothing after it |
| Text.CollapseLast | facebook_replier/fb_comment_agent/prompting.py:16 | the collapsed text ends with a space only where the input ends with whitespace |
| Text.VisibleCollapse | facebook_replier/fb_comment_agent/prompting.py:16 | collapsing keeps every non-whitespace character, in order |
| Text.VisibleStrip | facebook_replier/fb_comment_agent/prompting.py:15 | stripping keeps every non-whitespace character, in order |
| Text.CollapseIdempotent | facebook_replier/fb_comment_agent/prompting.py:16 | collapsing twice equals collapsing once |
| Text.CollapseSingleSpaced | facebook_replier/fb_comment_agent/prompting.py:58 | single-spaced text has nothing to collapse |
| Text.AllCollapse | facebook_replier/fb_comment_agent/prompting.py:58 | collapsing introduces no character other than `' '`, so a character property that `' '` has survives it |
| Text.Keep | facebook_replier/fb_comment_agent/prompting.py:57 | the generator filter: every kept character satisfies the predicate, and text that already satisfies it is unchanged |
| Text.KeepOne | facebook_replier/fb_comment_agent/prompting.py:57 | one character is kept exactly when it satisfies the predicate |
| Text.KeepCons | facebook_replier/fb_comment_agent/prompting.py:57 | the filter of a character followed by a text is the filter of the character followed by the filter of the text |
| Text.KeepAppend | facebook_replier/fb_comment_agent/prompting.py:57 | the filter of two texts joined is the two filters joined; with `KeepOne` this determines the result on every input: exactly the characters that satisfy the predicate, in order |
| Text.TidyAppendVisible | facebook_replier/fb_comment_agent/prompting.py:60 | a tidy text followed by one non-whitespace character (the ellipsis) is still tidy |
| Text.PyPrefix | facebook_replier/fb_comment_agent/prompting.py:17 | Python's `s[:n]`: always a prefix; `min(n, len(s))` characters for `n >= 0`; a negative `n` counts from the end, down to empty |
| Text.Lower | facebook_replier/fb_comment_agent/config.py:32 | same length, with each character lowered in place |
| Decimal.NatToDecimal | facebook_replier/fb_comment_agent/facebook_graph.py:48 | `str(n)` for `n >= 0`: non-empty, all digits, and it denotes `n` |
| Decimal.IntToDecimal | facebook_replier/fb_comment_agent/facebook_graph.py:48 | `str(n)`: ends in a digit, and starts with `-` exactly when `n < 0` |
| Decimal.IntToDecimalRoundTrip | facebook_replier/fb_comment_agent/config.py:51-59 | `int(str(n)) == n` for every `n` of at most 4300 digits, the integers `str()` writes without raising |
| Decimal.ParseDigits | facebook_replier/fb_comment_agent/config.py:51-59 | `int()` of a run of 1 to 4300 digits is their value |
| Decimal.TooManyDigits | facebook_replier/fb_comment_agent/config.py:51-59 | `int()` of a run of more than 4300 digits raises `ValueError` (None) |
| Decimal.ParseNegativeDigits | facebook_replier/fb_comment_agent/config.py:51-59 | `int()` of a minus sign and 1 to 4300 digits is minus their value |
| Decimal.TooManyNegativeDigits | facebook_replier/fb_comment_agent/config.py:51-59 | `int()` of a minus sign and more than 4300 digits raises `ValueError` (None) |
| Decimal.ParsedWithinStrLimit | facebook_replier/fb_comment_agent/config.py:51-59 | every integer `int()` returns has at most 4300 digits, so `str()` can write it back |
| Prompting.Sanitize | facebook_replier/fb_comment_agent/prompting.py:14-17 | at most `max_len` characters for a non-negative cap; `' '` is the only whitespace, never two in a row, and the result never starts with whitespace |
| Prompting.SanitizeBlank | facebook_replier/fb_comment_agent/prompting.py:14-17 | with a positive cap, the result is empty exactly when the input is all whitespace |
| Prompting.SanitizeKeepsVisible | facebook_replier/fb_comment_agent/prompting.py:14-17 | when the cap cuts nothing off, every non-whitespace character survives, in order |
| Prompting.DisplayName | facebook_replier/fb_comment_agent/prompting.py:28-45 | the name line shows the sanitized name, or `Unknown` when the name is None or sanitizes to empty; it is never empty and has no newline |
| Prompting.BuildReplyPrompt | facebook_replier/fb_comment_agent/prompting.py:20-50 | the system text and the task prompt; `SystemPromptShape` and `PromptRoundTrip` state what they hold |
| Prompting.SystemPromptShape | facebook_replier/fb_comment_agent/prompting.py:30-41 | the system text is the coordinator line with the brand name and voice inserted verbatim, followed by exactly the fixed rules block |
| Prompting.PromptRoundTrip | facebook_replier/fb_comment_agent/prompting.py:43-48 | the commenter name and the sanitized comment can be read back unchanged from the task prompt, whatever the commenter wrote |
| Prompting.CleanReply | facebook_replier/fb_comment_agent/prompting.py:55-58 | after the clean-up, `' '` is the only whitespace, never two in a row, none at either end, and no category-C character is left |
| Prompting.CleanReplyOfClean | facebook_replier/fb_comment_agent/prompting.py:55-58 | text that is already tidy, has no category-C character and has no quote at either end comes out of the clean-up unchanged |
| Prompting.UnquoteUnpadded | facebook_replier/fb_comment_agent/prompting.py:55 | the strip and both quote strips leave alone text with no whitespace or quote at either end |
| Prompting.Squash | facebook_replier/fb_comment_agent/prompting.py:58 | collapse and strip give tidy text and add no category-C character |
| Prompting.LimitLength | facebook_replier/fb_comment_agent/prompting.py:59-60 | text that fits is unchanged; longer text becomes a prefix of the cleaned text with no whitespace at its end, followed by `…`, at most `max_chars` long when `max_chars >= 1`, having dropped only whitespace before the cut; tidiness and the absence of category C carry over |
| Prompting.PostprocessReply | facebook_replier/fb_comment_agent/prompting.py:53-61 | the reply has no category-C character, no whitespace at either end and no whitespace other than single spaces |
| Prompting.PostprocessWithinCap | facebook_replier/fb_comment_agent/prompting.py:59-60 | for `max_chars >= 1` the reply is never longer than `max_chars` |
| ReplyExamples.UnquotePadded | facebook_replier/fb_comment_agent/prompting.py:55 | non-empty text that neither starts nor ends with a quote, put in double quotes and padded with any whitespace on either side, loses exactly the padding and the quotes |
| ReplyExamples.CutAfterVisible | facebook_replier/fb_comment_agent/prompting.py:59-60 | when the cut falls right after a non-whitespace character, the reply is the first `max_chars - 1` characters and `…` |
| ReplyExamples.QuotedExample | facebook_replier/fb_comment_agent/prompting.py:53-61 | `postprocess_reply('  "Thanks for reaching out!"  ', 700) == "Thanks for reaching out!"` |
| ReplyExamples.LongExample | facebook_replier/fb_comment_agent/prompting.py:53-61 | `postprocess_reply("This is a very long reply text", 10) == "This is a…"` |
| ReplyExamples.NewlineDeleted | facebook_replier/fb_comment_agent/prompting.py:55-58 | the clean-up turns `"a\nb"` into `"ab"`: the newline is removed by the category filter before the collapse |
| ReplyExamples.DropMiddle | facebook_replier/fb_comment_agent/prompting.py:57 | between two kept characters, one the filter rejects is dropped |
| ReplyExamples.CollapseBetween | facebook_replier/fb_comment_agent/prompting.py:16 | two non-whitespace characters around any non-empty run of whitespace (spaces, no-break spaces, …) come out separated by exactly one `' '` |
| State.Upsert | facebook_replier/fb_comment_agent/state.py:47 | `INSERT OR REPLACE`: the row for the id becomes the new record whether or not one existed, every other row is unchanged, and no row is lost |
| State.UpsertLastWins | facebook_replier/fb_comment_agent/state.py:47 | two writes for one id leave one row, holding the second write |
| State.UpsertCommutes | facebook_replier/fb_comment_agent/state.py:47 | writes for two different ids commute |
| State.StateStore.constructor | facebook_replier/fb_comment_agent/state.py:19-35 | opening a store over an existing table keeps every row it holds |
| State.StateStore.HasReplied | facebook_replier/fb_comment_agent/state.py:37-42 | true exactly when a row keyed by the id exists; the store is not modified |
| State.StateStore.MarkReplied | facebook_replier/fb_comment_agent/state.py:44-50 | afterwards the row for the id is `(id, text, now, post_id)`, the rest of the table is as before, and every row stays filed under its own id |
| Graph.GetRecentPosts | facebook_replier/fb_comment_agent/facebook_graph.py:51-57 | the loop returns `PostsOf` of the response items, where a missing or null `data` list counts as empty |
| Graph.PostsOf | facebook_replier/fb_comment_agent/facebook_graph.py:51-57 | the posts of the response items; `PostsOfMembers`, `PostsOfIds` and `PostsOfAppend` state which, with what, and in what order |
| Graph.PostsOfMembers | facebook_replier/fb_comment_agent/facebook_graph.py:51-57 | a post is returned exactly when some item has its id, which is non-empty, together with its permalink |
| Graph.PostsOfIds | facebook_replier/fb_comment_agent/facebook_graph.py:53-56 | every returned post has a non-empty id; there are never more posts than items |
| Graph.PostsOfAppend | facebook_replier/fb_comment_agent/facebook_graph.py:52-56 | posts come out in response order: the posts of two item lists joined are the two results joined |
| Graph.MessageOf | facebook_replier/fb_comment_agent/facebook_graph.py:74 | the message read from an item has no whitespace at either end |
| Graph.CommentOf | facebook_replier/fb_comment_agent/facebook_graph.py:77-95 | the yielded record carries the item's id (possibly None), the stripped message and the argument post id; `from_id`/`from_name` are None when `from` is absent and the author's fields otherwise |
| Graph.IterCommentsForPost | facebook_replier/fb_comment_agent/facebook_graph.py:73-95 | the generator yields `CommentsOf` of the response items, in order |
| Graph.CommentsOf | facebook_replier/fb_comment_agent/facebook_graph.py:73-95 | the comments of the response items; `CommentsOfMembers`, `CommentsOfShape`, `CommentsOfAppend` and `TopLevelOnly` state which, with what, and in what order |
| Graph.CommentsOfMembers | facebook_replier/fb_comment_agent/facebook_graph.py:73-95 | a comment is yielded exactly when some item passes the filters and shapes to it |
| Graph.CommentsOfShape | facebook_replier/fb_comment_agent/facebook_graph.py:74-93 | every yielded message is stripped and non-empty, and every post id is the argument |
| Graph.CommentsOfAppend | facebook_replier/fb_comment_agent/facebook_graph.py:73-95 | comments come out in response order |
| Graph.TopLevelOnly | facebook_replier/fb_comment_agent/facebook_graph.py:80-85 | without nesting, the comments are exactly those of the items with no truthy parent id yielded with nesting on: nested items are dropped and nothing else is |
| Graph.NewClient | facebook_replier/fb_comment_agent/facebook_graph.py:27-29 | the client keeps the token, and its base is `https://graph.facebook.com/` followed by the API version |
| Graph.Url | facebook_replier/fb_comment_agent/facebook_graph.py:33 | the URL is the base, one `/`, then the path with its whole leading run of `/` removed |
| Graph.UrlIgnoresLeadingSlash | facebook_replier/fb_comment_agent/facebook_graph.py:33 | a leading `/` on the path does not change the URL |
| Graph.UrlOfPlainPath | facebook_replier/fb_comment_agent/facebook_graph.py:33 | a path that does not start with `/` follows the base after exactly one `/` |
| Graph.WithToken | facebook_replier/fb_comment_agent/facebook_graph.py:32 | the sent token is the client's, whatever the caller passed under that key; every other field is the caller's |
| Graph.Call | facebook_replier/fb_comment_agent/facebook_graph.py:31-41 | a request goes to the built URL, under the base, with the client's token among its fields |
| Graph.HiddenFlag | facebook_replier/fb_comment_agent/facebook_graph.py:111 | `is_hidden` is sent as `"true"` exactly when the flag is true, and as `"false"` exactly when it is false |
| Graph.FeedRequest | facebook_replier/fb_comment_agent/facebook_graph.py:43-50 | a GET of `{page_id}/feed` sending exactly `fields=id,permalink_url`, `limit` and the client's token |
| Graph.CommentsRequest | facebook_replier/fb_comment_agent/facebook_graph.py:59-72 | a GET of `{post_id}/comments` sending exactly the comment fields, `filter=stream`, `order=chronological`, `limit` and the client's token |
| Graph.ReplyRequest | facebook_replier/fb_comment_agent/facebook_graph.py:97-99 | a POST to `{comment_id}/comments` sending exactly the message, unchanged, and the client's token |
| Graph.GetCommentRequest | facebook_replier/fb_comment_agent/facebook_graph.py:101-107 | a GET of `{comment_id}` sending exactly the stored-comment fields, which include `is_hidden` and `is_private`, and the client's token |
| Graph.SetHiddenRequest | facebook_replier/fb_comment_agent/facebook_graph.py:109-111 | a POST to `{comment_id}` sending exactly the flag's text and the client's token |
| Graph.LimitRoundTrip | facebook_replier/fb_comment_agent/facebook_graph.py:43-72 | the `limit` text sent for posts and for comments parses back to the limit asked for, for every limit `str()` can write; the settings hold only such limits (`Config.IntSettingsWithinStrLimit`) |
| Config.Defaults | facebook_replier/fb_comment_agent/config.py:7-25 | settings holding exactly the given credentials; the body puts every other field at its declared default, and `OnlyCredentials` states those values |
| Config.GetBool | facebook_replier/fb_comment_agent/config.py:28-32 | the default when the variable is unset; otherwise true exactly when the stripped, lower-cased value is one of `1`, `true`, `yes`, `y`, `on` |
| Config.GetBoolIgnoresDefaultWhenSet | facebook_replier/fb_comment_agent/config.py:32 | once the variable is set, the default plays no part: an empty or unknown value is false even with default true |
| Config.GetStr | facebook_replier/fb_comment_agent/config.py:47-58 | the stripped value when it is set and not blank, the default otherwise |
| Config.GetStrAsWritten | facebook_replier/fb_comment_agent/config.py:47-58 | for a default with no whitespace at its ends, `GetStr` equals `getenv(name, default).strip() or default` |
| Config.DefaultsUnpadded | facebook_replier/fb_comment_agent/config.py:47-58 | none of the string defaults has whitespace at either end |
| Config.GetInt | facebook_replier/fb_comment_agent/config.py:51-59 | the default when unset; otherwise `int()` of the value, or None where `int()` raises |
| Config.GetIntDefaultText | facebook_replier/fb_comment_agent/config.py:51-59 | for a default of at most 4300 digits, reading its decimal text gives the same result as `GetInt` |
| Config.GetIntWithinStrLimit | facebook_replier/fb_comment_agent/config.py:51-59 | an integer setting read successfully has at most 4300 digits |
| Config.IntDefaultsWithinStrLimit | facebook_replier/fb_comment_agent/config.py:51-59 | the integer defaults are within the digit limit |
| Config.ReadInts | facebook_replier/fb_comment_agent/config.py:51-59 | the five integer settings in the order `load_settings` reads them, or the name of the first that `int()` rejects; `IntSettingsWithinStrLimit` and `OnlyCredentials` state its results |
| Config.LoadSettings | facebook_replier/fb_comment_agent/config.py:35-60 | `load_settings()`; `MissingCredentialsExactly`, `CredentialsStored`, `StringSettings`, `IntSettingsWithinStrLimit` and `OnlyCredentials` state what it returns |
| Config.IntSettingsWithinStrLimit | facebook_replier/fb_comment_agent/config.py:51-59 | every integer of loaded settings has at most 4300 digits, so the `str(limit)` of the Graph requests does not raise |
| Config.MissingCredentialsExactly | facebook_replier/fb_comment_agent/config.py:36-42 | loading stops with `SystemExit` exactly when `FB_PAGE_ID` or `FB_ACCESS_TOKEN` is unset or blank after strip |
| Config.CredentialsStored | facebook_replier/fb_comment_agent/config.py:36-46 | loaded settings hold both credentials stripped and non-empty |
| Config.StringSettings | facebook_replier/fb_comment_agent/config.py:47-58 | each string setting other than the credentials is its stripped value, or its declared default when unset or blank; `dry_run` is `_get_bool("DRY_RUN", True)` |
| Config.OnlyCredentials | facebook_replier/fb_comment_agent/config.py:44-60 | an environment that sets only the two credentials loads every declared default: API version `v20.0`, dry run on, reply cap 700, poll interval 30, 10 posts, 50 comments per post, brand `Your Page`, and so on |
| Agent.RunLen | facebook_replier/fb_comment_agent/fb_agent.py:17 | the greedy `[^&\s]+`: the longest run of characters other than `&` and whitespace at the start of the text |
| Agent.Rewrite | facebook_replier/fb_comment_agent/fb_agent.py:17 | `re.sub(key + r"[^&\s]+", key + mask, s)`, left to right; `RewriteAtMatch` and `RewriteCopy` fix it on every input, and `RewriteNoMatch`, `RewriteIdempotent` and `RewriteMasksAll` state its consequences |
| Agent.RewriteAtMatch | facebook_replier/fb_comment_agent/fb_agent.py:17 | the key, a maximal run of `[^&\s]` characters after it, and the rest become the key, the mask, and the rewritten rest: the run itself is gone |
| Agent.RewriteCopy | facebook_replier/fb_comment_agent/fb_agent.py:17 | where the pattern does not match, the first character is copied unchanged and the rest is rewritten |
| Agent.RewriteNoMatch | facebook_replier/fb_comment_agent/fb_agent.py:17 | `re.sub` with a pattern that matches nowhere leaves the text unchanged |
| Agent.RewriteIdempotent | facebook_replier/fb_comment_agent/fb_agent.py:17 | rewriting a rewritten text changes nothing, for any key and mask the mask cannot extend |
| Agent.RewriteMasksAll | facebook_replier/fb_comment_agent/fb_agent.py:17 | every match left after rewriting is the key followed by exactly the mask, for a key and mask in which the key's first character does not recur |
| Agent.Redact | facebook_replier/fb_comment_agent/fb_agent.py:15-17 | `_redact`; `RedactAtMatch` and `RedactCopy` fix it on every input, and `RedactLeavesNoToken`, `RedactNoMatch` and `RedactIdempotent` state its consequences |
| Agent.RedactAtMatch | facebook_replier/fb_comment_agent/fb_agent.py:15-17 | `access_token=` followed by its longest run of characters other than `&` and whitespace becomes `access_token=REDACTED`, and the text after the run is redacted in turn |
| Agent.RedactCopy | facebook_replier/fb_comment_agent/fb_agent.py:15-17 | where no `access_token=` assignment starts, the character is kept and the rest is redacted |
| Agent.RedactLeavesNoToken | facebook_replier/fb_comment_agent/fb_agent.py:15-17 | every `access_token=` left in the redacted text is `access_token=REDACTED`, ended by the end of the text, `&` or whitespace |
| Agent.RedactNoMatch | facebook_replier/fb_comment_agent/fb_agent.py:15-17 | text with no `access_token=` followed by a token character is unchanged |
| Agent.RedactIdempotent | facebook_replier/fb_comment_agent/fb_agent.py:15-17 | `_redact(_redact(s)) == _redact(s)` |
| Agent.LoggedLine | facebook_replier/fb_comment_agent/fb_agent.py:105-106 | the logged line is `Loop error: ` followed by `_redact` of the error text, so every `access_token=` in it is `access_token=REDACTED`, ended by the end of the text, `&` or whitespace |
| Agent.RequestOf | facebook_replier/fb_comment_agent/fb_agent.py:24 | exactly the Graph API events send a request, and each one carries the configured token and goes under the configured API version |
| Agent.Screen | facebook_replier/fb_comment_agent/fb_agent.py:40-49 | the filters in order: no id exactly when the id is falsy; already replied exactly when the id is in the ledger; own comment only for a truthy author id equal to the Page id; too short only when fewer than two non-whitespace characters; a candidate exactly when none applies |
| Agent.Skipped | facebook_replier/fb_comment_agent/fb_agent.py:40-49 | a filtered comment gets no prompt, no model call and no write |
| Agent.AnonymousNotOwn | facebook_replier/fb_comment_agent/fb_agent.py:44-45 | a comment with no author id is never taken for the Page's own |
| Agent.EmptyReplyDoesNothing | facebook_replier/fb_comment_agent/fb_agent.py:65-68 | an empty cleaned reply: the model was asked, and nothing is posted or written |
| Agent.GenerationFailure | facebook_replier/fb_comment_agent/fb_agent.py:58-64 | a failing model call ends the cycle before anything is posted or written |
| Agent.DryRunRecords | facebook_replier/fb_comment_agent/fb_agent.py:70-78 | in a dry run, the record `(id, reply, now, post_id)` is written right after the model call |
| Agent.DryRunSendsNothing | facebook_replier/fb_comment_agent/fb_agent.py:70-78 | in a dry run, a comment sends no request to the Graph API |
| Agent.Unhide | facebook_replier/fb_comment_agent/fb_agent.py:93-97 | unhide, read back and warn, stopping at the first exception; `VerifyUnhides` states its place in the check |
| Agent.Verify | facebook_replier/fb_comment_agent/fb_agent.py:82-101 | the check after posting; `VerifyInert`, `VerifyUnhides` and `VerifyOnlyWarns` state what it does |
| Agent.Inspect | facebook_replier/fb_comment_agent/fb_agent.py:84-101 | what follows the read-back: the empty-message warning, the unhide when `is_hidden` is `True`, then the privacy warning; `VerifyUnhides` and `VerifyOnlyWarns` state it |
| Agent.VerifyInert | facebook_replier/fb_comment_agent/fb_agent.py:82-101 | the check after posting starts by reading the reply back, and neither posts nor writes |
| Agent.VerifyUnhides | facebook_replier/fb_comment_agent/fb_agent.py:91-97 | the reply is unhidden exactly when the read-back says `is_hidden` is `True`, and then once |
| Agent.VerifyOnlyWarns | facebook_replier/fb_comment_agent/fb_agent.py:83-101 | when the calls succeed the check raises nothing, and the private flag only adds its warning |
| Agent.Deliver | facebook_replier/fb_comment_agent/fb_agent.py:80-103 | the trace starts with the post of the reply; `DeliveredIsRecorded`, `DeliveryFailureWritesNothing`, `DeliveryUnhides` and `DeliverShape` state the rest |
| Agent.Answer | facebook_replier/fb_comment_agent/fb_agent.py:58-103 | the trace only grows; `EmptyReplyDoesNothing`, `GenerationFailure`, `DryRunRecords` and `LivePostIsRecorded` state each branch |
| Agent.HandleComment | facebook_replier/fb_comment_agent/fb_agent.py:40-103 | the trace only grows; `Skipped`, `HandleShape` and `UnhideAtMostOnce` state what one comment does |
| Agent.DeliveredIsRecorded | facebook_replier/fb_comment_agent/fb_agent.py:80-102 | once `reply_to_comment` returns, the record is written whether or not a reply id came back and whatever the read-back says, unless a later call raises |
| Agent.DeliveryFailureWritesNothing | facebook_replier/fb_comment_agent/fb_agent.py:80-102 | a call that raises while posting or checking leaves the ledger as it was |
| Agent.LivePostIsRecorded | facebook_replier/fb_comment_agent/fb_agent.py:80-103 | live, for a candidate comment: the reply is posted and then recorded with that comment's id, reply and post id |
| Agent.DeliveryUnhides | facebook_replier/fb_comment_agent/fb_agent.py:91-93 | delivery adds at most one unhide, and only after the read-back that follows the post |
| Agent.UnhideAtMostOnce | facebook_replier/fb_comment_agent/fb_agent.py:40-103 | a comment adds at most one `set_comment_hidden(reply_id, False)`, after the read-back of its posted reply; a dry run adds none |
| Agent.DeliverShape | facebook_replier/fb_comment_agent/fb_agent.py:80-102 | delivery posts one reply and writes exactly the records in its events; the comment is in the ledger unless a call failed after the post |
| Agent.HandleShape | facebook_replier/fb_comment_agent/fb_agent.py:40-103 | a comment posts at most one reply, only to a comment id not in the ledger, and writes only what its events record |
| Agent.CommentsAbortSticks | facebook_replier/fb_comment_agent/fb_agent.py:37-105 | once an exception is raised, the remaining comments of the post change nothing |
| Agent.PostsAbortSticks | facebook_replier/fb_comment_agent/fb_agent.py:36-105 | once an exception is raised, the remaining posts change nothing |
| Agent.Cycle | facebook_replier/fb_comment_agent/fb_agent.py:33-106 | the `try` body over the starting ledger; `CycleInvariant` states what a cycle keeps and `CommentsAbortSticks`/`PostsAbortSticks` how an exception ends it |
| Agent.CycleInvariant | facebook_replier/fb_comment_agent/fb_agent.py:33-106 | after a cycle, failed or not: the ledger is the starting one plus the recorded writes, so no earlier write is lost; no comment is replied to twice; none already in the ledger is replied to; and every comment replied to is recorded unless the exception fell between posting and recording |
| Agent.NoReplyTwice | facebook_replier/fb_comment_agent/fb_agent.py:32-108 | across cycles without a failure between posting and recording, no comment id receives two replies, none that was in the ledger beforehand receives one, and every comment replied to is in the final ledger |
| Agent.UnhideReply | facebook_replier/fb_comment_agent/fb_agent.py:93-97 | the statements of the unhide step produce what `Unhide` specifies |
| Agent.CheckReply | facebook_replier/fb_comment_agent/fb_agent.py:83-101 | the statements of the read-back check produce what `Verify` specifies |
| Agent.StrippedEmpty | facebook_replier/fb_comment_agent/fb_agent.py:84-87 | `not (text or "").strip()` exactly when the text is all whitespace |
| Agent.InspectReply | facebook_replier/fb_comment_agent/fb_agent.py:84-101 | the statements that act on the read-back produce what `Inspect` specifies |
| Agent.DeliverReply | facebook_replier/fb_comment_agent/fb_agent.py:80-103 | post, check and `mark_replied` on the store leave it holding `Deliver`'s ledger |
| Agent.AnswerComment | facebook_replier/fb_comment_agent/fb_agent.py:51-103 | prompting, generating and acting on the answer leave the store holding `Answer`'s ledger |
| Agent.ProcessComment | facebook_replier/fb_comment_agent/fb_agent.py:40-103 | one inner-loop iteration on the store does what `HandleComment` specifies |
| Agent.RunComments | facebook_replier/fb_comment_agent/fb_agent.py:37-103 | the inner loop on the store does what `CommentsPass` specifies, stopping at the first exception |
| Agent.RunPost | facebook_replier/fb_comment_agent/fb_agent.py:36-103 | one outer-loop iteration on the store does what `HandlePost` specifies |
| Agent.RunPosts | facebook_replier/fb_comment_agent/fb_agent.py:36-103 | the outer loop on the store does what `PostsPass` specifies, stopping at the first exception |
| Agent.RunCycle | facebook_replier/fb_comment_agent/fb_agent.py:33-106 | the `try` body on the store does what `Cycle` specifies, keeping the writes made before an exception |
| Agent.RunCycles | facebook_replier/fb_comment_agent/fb_agent.py:32-108 | the `while True` loop, for as many cycles as there are platform answers: an exception ends only its own cycle, and each cycle starts from the store as the previous one left it |
| Agent.Serve | facebook_replier/fb_comment_agent/fb_agent.py:20-108 | `main`: stop with the store untouched when loading the settings fails; otherwise run the cycles with the agent's own prompt and reply clean-up |

## Left out

- HTTP transport is not modelled (`requests.get`/`post`, `raise_for_status`, JSON decoding, timeouts). A response reaches the model as a value, and a raised exception as a `Failure` of the `Platform` function.
- `ollama_client.py` is not part of this model. The model's answer is an arbitrary `Result<string, string>`, and the sampling parameters (`temperature`, `top_p`, `num_predict`) are not represented.
- sqlite is not modelled: the database file, connections, commits and sqlite errors. The table is a map whose writes are durable.
- `State.StateStore.HasReplied` and `State.StateStore.MarkReplied` never raise, and the cycle has no stage for them. A `mark_replied` that raises after a successful post (a locked or read-only database, a full disk) would leave a posted reply unrecorded, and a later cycle would answer the comment again. `Agent.NoReplyTwice` and `Agent.Settled` do not cover that case.
- `time.time()` is the `clock` of the `Platform`, read at the event position of the write. `time.sleep`, the `print` lines other than the three warnings (the `Warned` events) and the redacted error line, `load_dotenv` and process start-up are left out.
- The `while True` loop runs for as many cycles as there are platform values given, so the model covers every finite prefix of a run.
- `Text.IsCategoryC` leaves out unassigned code points and the noncharacters outside the Basic Multilingual Plane. Lone surrogates (category Cs), which a Python string decoded from JSON can hold and the filter deletes, cannot occur in a Dafny `string`. The Unicode tables change between Python versions.
- `Text.LowerChar` maps only `A`–`Z`. The reasoning above shows this gives Python's answer for `_get_bool`.
- `Decimal.ParseInt` accepts only ASCII digits, with an optional sign, surrounding whitespace, and single underscores between digits. Python's `int()` also accepts the decimal digits of other scripts. The digit limit is CPython's default of 4300; a limit changed through `PYTHONINTMAXSTRDIGITS` or `sys.set_int_max_str_digits` is not modelled.
- `Graph.FeedRequest` and `Graph.CommentsRequest` write `str(limit)` for any limit, where Python raises for more than 4300 digits. Every limit the agent passes comes from loaded settings, which are within the limit (`Config.IntSettingsWithinStrLimit`).
- `Config.GetStr` is stated for defaults without surrounding whitespace. Every default in `config.py` is one (`Config.DefaultsUnpadded`), and `Config.GetStrAsWritten` connects the two forms.
- `Config.GetInt` takes its default as an integer rather than as text. `Config.GetIntDefaultText` shows that the text `str(default)` parses back to it for a default within the digit limit, as every declared default is (`Config.IntDefaultsWithinStrLimit`).
- `Agent.Composer` abstracts the two calls that turn a comment into a prompt and the model's text into a reply. `Agent.ComposerOf` is the agent's own `build_reply_prompt` and `postprocess_reply`, and `Agent.Serve` uses it. The cycle's properties hold for any composer.
- The names of the Graph API query and form fields are the constructors of `Graph.Param`, and `Graph.ParamName` gives their text. Field values other than `limit`, `message` and `is_hidden` are fixed strings.
- `Prompting.Unquote` has no contract of its own. What it does is stated by `Prompting.UnquoteUnpadded` and `ReplyExamples.UnquotePadded`, and through `Prompting.CleanReply`.
- Nothing is claimed about idempotence of `postprocess_reply`, because it is not idempotent (see above).
