# AI Reply Assistant: summary renderer and reply composer in Dafny

This project models two parts of a Thunderbird add-on and proves properties
of them.

1. **`formatSummaryHtml`.** It renders the model-written summary of a message
   as HTML (popup.js:17-155; reader-popup.js:20-158 is the same text). The
   function has three parts:
   - a line-by-line block scanner over the local variables `htmlParts`,
     `inList`, `listTag` and `paragraphBuffer`, updated by the closures
     `closeList` and `flushParagraph`;
   - `escapeHtml`;
   - the inline pass `applyInlineFormatting`, which puts code spans aside as
     placeholders, applies the link rule and the emphasis rules
     (`formatEmphasis`), then restores the code spans.
2. **`generateReplyForCompose`** (background.js:105-249).
   - It builds the chat-completion request from the settings. The sampling
     fields are left out for `gpt-5` models.
   - It posts the request, retrying once without the sampling fields when the
     service rejects a value (`postWithFallback`).
   - It checks the response.
   - It splices the reply into the compose body, by one of three routes:
     - the plain-text splice;
     - the HTML splice: the reply container goes in before the signature,
       the citation prefix, the quote or the first child, and up to three
       "effectively empty" nodes before it are removed;
     - the string fallback built with `textToHtml`.

Every regular expression the modelled code uses is written out as a deterministic
scanner with JavaScript's semantics:
- `\s` is WhiteSpace or LineTerminator;
- `.` stops at a line terminator;
- the `i` flag folds ASCII letters only;
- a global `replace` tries each position in turn and resumes after a match.

The comments in each scanner say why the lazy or greedy choice of the regex
cannot change the result.

## Modules

| file | module | what it holds |
|---|---|---|
| wrappers.dfy | `Wrappers` | `Option`, `Result` |
| text.dfy | `Text` | JavaScript string operations: `trim`, `trimStart`, `trimEnd`, `split`, `join`, `/\r\n/g` normalisation, `\s`, the number-to-string conversion |
| blocks.dfy | `SummaryBlocks` | the chain of line tests of the scanner loop (`Classify`) |
| escape.dfy | `HtmlEscape` | `escapeHtml` and its inverse |
| inline.dfy | `InlineFormat` | the code, link and emphasis scanners, the placeholder restore loop, `ApplyInlineFormatting` |
| inline_props.dfy | `InlineProperties` | properties of the inline pass |
| restore_props.dfy | `RestoreProperties` | the restore loop finds no placeholder, for every text |
| markup_safety.dfy | `MarkupSafety` | every `<` the inline pass writes starts one of its own tags or a web link |
| summary.dfy | `SummaryRenderer` | the class `SummaryBuilder` with the four variables as fields, `CloseList`, `FlushParagraph`, `AddLine`, and the method `FormatSummaryHtml` |
| summary_props.dfy | `SummaryProperties` | the scan is blockwise, and lists are never nested nor left open |
| render_safety.dfy | `RenderSafety` | every `<` of the summary starts one of the renderer's own tags or a web link |
| reply_text.dfy | `ReplyText` | `textToHtml`, `createReplySpan` (class `ReplySpan`), the plain-text splice |
| request.dfy | `ReplyRequest` | settings defaults, messages, the restricted-model test, the payload, `PostWithFallback` |
| splice.dfy | `HtmlSplice` | `isEffectivelyEmpty`, the anchor, the class `Body` with `InsertBefore`/`RemoveAt`, `SpliceReply` |
| compose.dfy | `ReplyCompose` | `GenerateReplyForCompose` and its outcome |

### Where the code does not do what it evidently intends

The model follows the code in each of these places.

- **Code spans are lost.** The restore loop is written to put each code
  span back as `<code>…</code>` (popup.js:54-57). But the placeholder
  `__CODE_PLACEHOLDER_<n>__` is itself matched by the `__(.+?)__` bold rule
  (popup.js:29), which runs first (popup.js:52). The restore loop then finds
  no placeholder, so a code span comes out as bold `CODE_PLACEHOLDER_<n>`
  and its text is gone.
  `RestoreProperties.RestoreFindsNothing` proves, for every text, that the
  restore loop changes nothing. `RestoreProperties.CodeSpanIsLost` works out
  the output for a text that is one code span.
  `RenderSafety.RenderWritesNoScriptOrCode` proves that no summary holds
  `<code` or `<script`.
- **The string fallback.** `DOMParser` does not throw, so the `catch` of
  the HTML route (background.js:241-248) is reached in two cases. One is
  when `insertBefore` is given an anchor that is not a child of the body
  (background.js:213-214). The other is when the host rejects the spliced
  body (background.js:240). The model makes these two the conditions for
  the fallback. The host's answer is the parameter `spliceAccepted`.

A heading needs `\s+` after the `#` run, so any whitespace character, not
only a space, ends the marker (popup.js:93).

## Model

| member | source | states |
|---|---|---|
| Text.TrimSpec | popup.js:78 | `trim` leaves nothing exactly when the text is all whitespace; otherwise neither end of what it leaves is whitespace |
| Text.TrimStartSpec | background.js:194-195 | `trimStart` (also `/^\s+/`) removes a leading run of whitespace and nothing else; what is left does not start with whitespace |
| Text.TrimEndSpec | background.js:194 | `/[\s\n]+$/` removes a trailing run of whitespace and nothing else |
| Text.TrimOfPadded | popup.js:86 | trimming whitespace-padded text with non-space ends gives back that text |
| Text.Split | popup.js:62 | `split("\n")` gives at least one part, no part holds the separator, and joining the parts with the separator restores the text |
| Text.SplitJoin | background.js:73 | splitting separator-free parts joined by the separator gives the parts back |
| Text.SplitAfterWord | popup.js:62 | a separator-free word followed by the separator becomes its own first part |
| Text.NormalizeNewlines | popup.js:62 | `/\r\n/g` to `\n` changes nothing in text without `\r` and never lengthens it |
| Text.NormalizeNewlinesDropsOnlyCR | background.js:61 | the `\r\n` normalisation removes carriage returns only: with every `\r` deleted, input and output agree |
| Text.AllSpaceNormalizeNewlines | popup.js:62 | the normalisation keeps a text all-whitespace exactly when it was |
| Text.AllSpaceJoin | popup.js:78 | a join with whitespace separators is all whitespace exactly when every part is |
| Text.ParseNatToString | popup.js:37 | the decimal string of a placeholder number reads back as that number, so distinct numbers give distinct placeholders |
| Text.IndexOfIsFirst | popup.js:36 | the search for a delimiter stops at the first occurrence |
| SummaryBlocks.Classify | popup.js:86-149 | a line is blank exactly when it is all whitespace; a heading's level is 1 to 4; a paragraph line is the trimmed line, non-empty, with no whitespace at either end |
| SummaryBlocks.ClassifyHeading | popup.js:93-101 | 1 to 6 `#`s, whitespace and any text on one line, after any indentation, make a heading of level `min(4, count)` holding the trimmed text |
| SummaryBlocks.ClassifyRule | popup.js:103-109 | three or more of one of `-`, `*` or `_`, with whitespace around, are a rule |
| SummaryBlocks.ClassifyQuote | popup.js:111-118 | `>`, any run of whitespace and any text on one line make a quote holding the trimmed text |
| SummaryBlocks.ClassifyBullet | popup.js:120-132 | `-`, `*` or `+`, whitespace and any text on one line make a bulleted item holding the trimmed text, unless the line is a rule |
| SummaryBlocks.ClassifyNumbered | popup.js:134-146 | digits, `.`, whitespace and any text on one line make a numbered item holding the trimmed text |
| SummaryBlocks.ClassifyIgnoresIndent | popup.js:93 | indentation never changes how a line is read |
| HtmlEscape.EscapeHtmlIsCharwise | popup.js:20-24 | the chain of four global replacements escapes each character on its own, because `&` goes first |
| HtmlEscape.EscapeHtmlEscapes | popup.js:20-24 | the output holds no raw `<`, `>` or `"`, and every `&` in it begins `&amp;`, `&lt;`, `&gt;` or `&quot;` |
| HtmlEscape.UnescapeEscapeHtml | popup.js:20-24 | reading the four entities back gives the input: escaping loses nothing |
| HtmlEscape.EscapeHtmlConcat | background.js:55-59 | escaping distributes over concatenation |
| HtmlEscape.EscapeHtmlPlain | popup.js:20-24 | text without the four characters is unchanged |
| HtmlEscape.EscapeHtmlReescapesEntities | popup.js:21 | an entity already in the input is escaped again: `&` followed by plain text becomes `&amp;` followed by that text |
| HtmlEscape.EscapeHtmlOneChar | popup.js:20-24 | one character escapes to its entity, or to itself |
| InlineFormat.ApplyInlineFormatting | popup.js:34-60 | the method (code scan, link rule, emphasis, then the restore loop over the code spans in order) returns `InlineFormat` of its input |
| InlineFormat.Find | popup.js:55-56 | the search for a placeholder finds its first occurrence at or after the start position, or the end |
| InlineFormat.StrongClose | popup.js:28-29 | the lazy `(.+?)` of a bold rule closes at the first following doubled delimiter before a line end, after at least one character |
| InlineFormat.EmClose | popup.js:30 | the emphasis rule closes at a single `*` at least one character on |
| InlineFormat.CodeAt | popup.js:36 | a code span at the start takes the text up to the next backtick, at least one character |
| InlineProperties.CodePassTakesSpan | popup.js:36-40 | a code span becomes placeholder `n`, its text is recorded as the `n`-th code, and the scan resumes after it with `n + 1` |
| InlineProperties.CodeSpansInOrder | popup.js:36-40 | two code spans become placeholders 0 and 1, with the text between them kept, and their texts are recorded in order |
| InlineProperties.NoCodeSpan | popup.js:36 | text without a backtick passes the code scan unchanged, and no code is recorded |
| InlineProperties.CodePassCopies | popup.js:36 | text before the first backtick is copied unchanged |
| InlineProperties.CodesAreSpans | popup.js:36 | every recorded code is non-empty and holds no backtick |
| InlineProperties.LinkReplacementCases | popup.js:42-50 | without an `http://` or `https://` scheme a link becomes its formatted label; with one it becomes an anchor whose `href` keeps the scheme and holds no raw `"`, with the fixed `target`/`rel` attributes and the formatted label |
| InlineProperties.QuotingKeepsScheme | popup.js:45-48 | quoting the `"` of a URL keeps its web scheme |
| InlineProperties.LinkPassTakesLink | popup.js:42 | `[caption](url)` is replaced by its link markup and the scan resumes after the `)` |
| InlineProperties.NoLink | popup.js:42 | text without `[` passes the link rule unchanged |
| InlineProperties.WebSchemeExamples | popup.js:45 | the scheme test ignores letter case and rejects `javascript:` and `ftp:` |
| InlineProperties.StrongCloseFinds | popup.js:28-29 | when no doubled delimiter and no line end comes earlier, the bold rule closes at the given position |
| InlineProperties.StrongPassNoDelimiter | popup.js:28-29 | text without the delimiter passes a bold rule unchanged |
| InlineProperties.StrongUnderscores | popup.js:29 | `__w__`, with no `__` and no line end inside, and `w` not ending in `_`, becomes `<strong>w</strong>` |
| InlineProperties.EmPassNoStar | popup.js:30 | text without `*` passes the emphasis rule unchanged |
| InlineProperties.FormatEmphasisPlain | popup.js:26-32 | text without `*` and `_` leaves `formatEmphasis` unchanged |
| InlineProperties.BoldOfUnderscored | popup.js:26-32 | `formatEmphasis` of `__w__`, with `w` free of stars, line ends and `__`, is `<strong>w</strong>` |
| InlineProperties.NoPlaceholderIn | popup.js:55-56 | the replacement of a placeholder changes nothing in text without `__` |
| InlineProperties.PlaceholderTurnsBold | popup.js:29-37 | the first placeholder is itself a `__…__` bold span |
| RestoreProperties.RestoreFindsNothing | popup.js:26-57 | for every text and any number of code spans, the restore loop changes nothing: `applyInlineFormatting` is the code scan, the link rule and `formatEmphasis`, because the bold rule has rewritten every placeholder |
| RestoreProperties.CodeSpanIsLost | popup.js:34-60 | a text that is one non-empty code span comes out as `<strong>CODE_PLACEHOLDER_0</strong>`: the code text never reaches the output |
| MarkupSafety.LinkReplacementOwnMarkup | popup.js:42-50 | on text without `<`, the link callback writes only its own tags, and an anchor only for an `http://` or `https://` address |
| MarkupSafety.FormatEmphasisOwnMarkup | popup.js:26-32 | when every `<` of the input starts one of the renderer's tags or a web link, so does every `<` of the output: the tags `formatEmphasis` adds are `<strong>`, `<em>` and their closing tags |
| MarkupSafety.InlineFormatOwnMarkup | popup.js:34-60 | on text without `<`, every `<` the inline pass writes starts `<strong>`, `<em>`, a closing tag, or an anchor whose address starts `http://` or `https://` |
| MarkupSafety.EscapedInlineOwnMarkup | popup.js:20-60 | the same holds for the inline pass of any escaped text |
| SummaryRenderer.ClassifyAll | popup.js:85-86 | each source line is classified on its own, in order |
| SummaryRenderer.SummaryBuilder.constructor | popup.js:63-66 | the scan starts with no parts, no open list and an empty buffer |
| SummaryRenderer.SummaryBuilder.CloseList | popup.js:68-74 | `closeList` pushes the closing tag of an open list and clears the list state, or does nothing |
| SummaryRenderer.SummaryBuilder.FlushParagraph | popup.js:76-83 | `flushParagraph` pushes the joined, trimmed buffer as a `<p>` when it is non-empty, and empties the buffer |
| SummaryRenderer.SummaryBuilder.AddLine | popup.js:86-149 | the loop body moves the four variables to `LineHandled` of the classified line |
| SummaryRenderer.FormatSummaryHtml | popup.js:17-155 | the method returns `Render` of its input: empty for a missing or empty text, otherwise the concatenated parts after the scan and the final flush and close |
| SummaryProperties.LineHandledValid | popup.js:85-150 | each line keeps the scan's invariant: `inList` and `listTag` change together, and the buffer fills only while no list is open |
| SummaryProperties.RunWritesPending | popup.js:85-153 | from any valid state, the scan writes exactly the parts still pending |
| SummaryProperties.ScanIsBlockwise | popup.js:85-153 | from the start, the scan writes the HTML of the blocks of the lines: runs of same-kind items become one list, runs of paragraph lines one paragraph |
| SummaryProperties.RenderIsBlockwise | popup.js:17-155 | `formatSummaryHtml` of a non-empty text is the concatenated block HTML of its classified lines |
| SummaryProperties.BlocksList | popup.js:120-146 | a list block starts at an item and takes every following item of its kind |
| SummaryProperties.BlocksParagraph | popup.js:148-149 | a paragraph starts at a plain line and takes every following plain line |
| SummaryProperties.ScanClosesLists | popup.js:152-153 | after the final flush and close, no list is open and the buffer is empty |
| SummaryProperties.BlocksEmpty | popup.js:87-91 | there are no blocks exactly when every line is blank |
| SummaryProperties.RenderEmptyIffBlank | popup.js:17-155 | the result is empty exactly when the text is all whitespace |
| SummaryProperties.BlocksNest | popup.js:68-74 | block HTML opens and closes its lists in matching pairs, never nested, with every `<li>` inside a list |
| SummaryProperties.RenderListsNest | popup.js:85-154 | the parts `formatSummaryHtml` writes never nest lists, close each list with its own tag and leave none open |
| RenderSafety.RenderWritesOwnMarkup | popup.js:17-155 | every `<` of the summary starts a tag the renderer or the inline pass writes, or an anchor to an `http://` or `https://` address: no `<` of the text survives |
| RenderSafety.RenderAnchorsAreWeb | popup.js:42-50 | every `<a href="` of the summary is followed by an `http://` or `https://` address |
| RenderSafety.RenderWritesNoScriptOrCode | popup.js:17-155 | the summary holds no `<script` and no `<code`, whatever the text |
| ReplyText.TextToHtmlLines | background.js:53-64 | `textToHtml` is the span around the escaped lines of the cleaned text joined with `<br>`; each line is escaped and holds no newline |
| ReplyText.TextToHtmlRoundTrip | background.js:53-64 | reading the markup back (`<br>` as a newline, entities as characters) gives the cleaned text exactly |
| ReplyText.EscapeOfJoin | background.js:63 | escaping lines joined with newlines equals joining the escaped lines |
| ReplyText.ReplyLines | background.js:72-73 | the cleaned text splits into at least one line, none holding a newline, which join back to it |
| ReplyText.InterleavedTexts | background.js:74-77 | the span's text nodes are the lines, in order |
| ReplyText.InterleavedStep | background.js:74-77 | each line adds a `<br>` (from the second line on) and then its text node |
| ReplyText.ReplySpan.AppendChild | background.js:75-76 | `appendChild` adds the node at the end |
| ReplyText.CreateReplySpan | background.js:66-79 | the span gets a fresh node list: one text node per line of the cleaned text, with a `<br>` between consecutive lines |
| ReplyText.SpanAgreesWithFallback | background.js:53-79 | the fallback markup is the escaped text nodes of the span joined by `<br>`: both routes carry the same lines |
| ReplyText.PlainSpliceParts | background.js:192-196 | the new plain body is the trimmed reply, one newline and the original from its first non-whitespace character |
| ReplyText.PlainSpliceKeepsTrimmedReply | background.js:194-195 | an already trimmed reply goes in unchanged |
| ReplyRequest.IsRestrictedSpec | background.js:140 | the model is restricted exactly when `gpt-5`, in any letter case, stands somewhere with no word character on either side |
| ReplyRequest.RestrictedPrefix | background.js:140 | `gpt-5` and `GPT-5` followed by a non-word character or the end are restricted |
| ReplyRequest.UnrestrictedFollowed | background.js:140 | `gpt-50` is not restricted |
| ReplyRequest.UnrestrictedPreceded | background.js:140 | `chatgpt-5` is not restricted |
| ReplyRequest.WithoutFiveUnrestricted | background.js:140 | a name without the digit `5` is never restricted |
| ReplyRequest.UnrestrictedDefault | background.js:14-140 | the default model and the empty name are not restricted |
| ReplyRequest.UserContentParts | background.js:126-132 | the user message ends with the original text; it starts with `Instruction: ` exactly when there is a prompt; without a prompt it is the header and the original |
| ReplyRequest.Gated | background.js:141-145 | a sampling field is sent exactly when the model is not restricted and the setting is finite, and then with the setting's value |
| ReplyRequest.PayloadSampling | background.js:136-145 | a restricted model gets no temperature, top-p or penalties; any other model gets exactly its settings |
| ReplyRequest.PayloadFixedFields | background.js:136-143 | `max_tokens` is sent exactly when finite; the model is never empty and is the setting when that is non-empty; the messages are those built |
| ReplyRequest.DefaultPayload | background.js:12-145 | the stored defaults give model `gpt-4o-mini` with temperature 0.7, top-p 1, presence and frequency penalty 0, and no `max_tokens` |
| ReplyRequest.BuildPayload | background.js:136-145 | the method's payload is `PayloadFor` of the settings and messages |
| ReplyRequest.Stripped | background.js:164-166 | the retried payload keeps model, messages and `max_tokens`, and has no sampling field |
| ReplyRequest.PostWithFallback | background.js:147-178 | one or two requests; the second exactly when the first answer is a 400 with `unsupported_value`; the second is the stripped payload; the result is the last answer |
| ReplyRequest.RequestsSpec | background.js:147-178 | at most one retry; an accepted first answer is final |
| ReplyRequest.StrippedIdempotent | background.js:164-166 | stripping twice is stripping once |
| ReplyRequest.RestrictedRetryRepeats | background.js:140-166 | for a restricted model the retry repeats the payload unchanged |
| HtmlSplice.EmptyTextAndOthers | background.js:218-220 | a text node is effectively empty exactly when its value is all whitespace; a missing node or a node that is neither text nor element is not |
| HtmlSplice.EmptyElement | background.js:221-227 | an element is effectively empty exactly when it is `BR` or `HR`, or its trimmed inner HTML strips to nothing |
| HtmlSplice.BrRunStrips | background.js:224-227 | the `<br>`-run test adds nothing to the strip test |
| HtmlSplice.SpaceAndNbspStrip | background.js:226 | whitespace and `&nbsp;`, in either letter case, strip to nothing |
| HtmlSplice.BrTagStrips | background.js:226 | `<br>` strips to nothing |
| HtmlSplice.SlashedBrTagStrips | background.js:226 | `<BR />` strips to nothing |
| HtmlSplice.BrWithCommentStrips | background.js:226 | a comment right after a `<br>` goes with it |
| HtmlSplice.VisibleContent | background.js:226-227 | a letter, or a tag other than `<br>`, keeps an element from being empty |
| HtmlSplice.AnchorPriority | background.js:213 | the anchor is the first found of signature, citation prefix, quote and first child; there is none only when all are missing and the body is empty |
| HtmlSplice.RemovableSpec | background.js:229-232 | the removed nodes are all effectively empty, and the removal stops early only at a node that is not |
| HtmlSplice.SplicedSpec | background.js:213-232 | the container sits right where the anchor was, after at most three removed nodes; everything before them and everything from the anchor on is kept in order |
| HtmlSplice.Body.InsertBefore | background.js:214 | `insertBefore` puts the node right before the anchor, or at the end when there is none, and throws, changing nothing, for a node that is not a child |
| HtmlSplice.Body.RemoveAt | background.js:231 | `remove` takes out exactly that child |
| HtmlSplice.RemovingStep | background.js:229-232 | each removal keeps the loop invariant: the container is in place and the removed nodes are the empty ones before it |
| HtmlSplice.RemovingStop | background.js:229-232 | when the loop stops, the body is the spliced body |
| HtmlSplice.SpliceReply | background.js:213-232 | the insertion and the removal loop leave the spliced body, or throw and leave the body unchanged exactly when the anchor is not a child |
| ReplyCompose.GenerateReplyForCompose | background.js:105-249 | the method returns `Outcome` of its inputs; it posts nothing exactly when the key is missing, and otherwise posts the requests of the fallback, for messages about the plain body or the stripped HTML, as the compose kind says (background.js:113-115) |
| ReplyCompose.OutcomeErrors | background.js:107-189 | each error is thrown exactly in its case: missing key; failed final response, with its status; empty content after trimming |
| ReplyCompose.PlainOutcome | background.js:192-196 | a plain-text compose gets the trimmed reply, a newline and the old body without its leading whitespace |
| ReplyCompose.HtmlSpliceOutcome | background.js:198-240 | an HTML compose whose anchor is a child or missing, and whose spliced body the host accepts, gets the reply container in place of at most three empty nodes, right before the anchor |
| ReplyCompose.FallbackOutcome | background.js:241-248 | when `insertBefore` throws or the host rejects the spliced body, the body is the reply markup, which reads back as the cleaned reply, followed by the old HTML unchanged |
| ReplyCompose.AnchorOf | background.js:210-213 | an anchor that is a child of the body names an existing child |

## Left out

- Browser APIs are parameters of the model. These are the storage lookup,
  `getComposeDetails`/`setComposeDetails`, notifications, tab and window
  lookup, and the popup and reader UI.
- `fetch` and JSON are parameters. The service is a function from payload to
  a `Response` (status and optional content). The error text read for a 400
  becomes the `NeedsRetry` test. A failed `resp.json()` is read as no code.
- The model assumes the service answers the same payload the same way.
- `stripHtml` and `DOMParser` are not modelled. What `stripHtml` leaves of
  the HTML body is a parameter; `OriginalText` picks it or the plain body
  (background.js:113-115).
- ReplyCompose.ReplyContent: a 2xx body that is not JSON, where
  `resp.json()` throws (background.js:187), and a `content` that is not a
  string, where `.trim()` throws a `TypeError` (background.js:188), are both
  read as no content, so both become the "no content" error instead of the
  error JavaScript throws.
- A `setComposeDetails` that throws in the plain-text route or in the
  fallback (background.js:196, 247) propagates out of the function; the
  model has no host failure there.
- `querySelector` is not modelled. What each selector found is given as a
  `Found` value: nothing, a child of the body, or a deeper node.
- `innerHTML` serialisation is not modelled. An element carries its inner
  HTML as text, and the HTML result is the list of body children.
- The four regex trims of leading and trailing empty markup
  (background.js:233-239 and 242-246) are not modelled. The HTML results are
  the values before those trims.
- Sanitising with DOMPurify and `replaceSummaryContent` are outside
  `formatSummaryHtml` and are not modelled. So is options.js.
- JavaScript numbers for the sampling settings are `Option<real>`: `Some`
  for a finite value, `None` for `null`, `NaN` and the infinities.
- The error-message texts and the HTTP headers are not modelled. Errors are
  the `Failure` values.
- Strings are sequences of Unicode code points (Dafny's `char`). A
  JavaScript string is read as its code points, so a character outside the
  Basic Multilingual Plane is one model character but two JavaScript code
  units, and a lone surrogate is not represented. Every character the
  scanners test is in the Basic Multilingual Plane, and `.`, `[^*\n]` and
  `` [^`] `` accept both halves of a surrogate pair alike, so each match is
  the same as on the UTF-16 text. Only the whitespace and line terminators
  JavaScript's `\s` and `.` name are distinguished.
- The markdown formatter is a parameter (`Formatter`) of the block-level
  properties in `SummaryProperties`. They hold for any formatter.
  `FormatSummaryHtml` uses the real one.
