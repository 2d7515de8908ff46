/**
  The inline pass of the summary renderer, `applyInlineFormatting` and
  `formatEmphasis` (popup.js:26-60, the same text at reader-popup.js:29-63).
  It runs on text that `escapeHtml` has already escaped: backtick code spans
  become numbered placeholders, `[label](url)` links are rewritten, the three
  emphasis rules run, and the placeholders are replaced back.

  Each regular expression is modelled as the deterministic scan it performs:
  JavaScript tries match positions left to right, resumes after a match, and
  the patterns used here leave no freedom to backtracking (the comment on each
  scanner says why).
*/
module InlineFormat {
  import opened Text
  import opened Wrappers
  import HtmlEscape

  // ---------------------------------------------------------------------------
  // formatEmphasis
  // ---------------------------------------------------------------------------

  /** Where a strong match opened by `dd` ends. `t` is the next character the lazy
      `(.+?)` would take: it must exist and not be a line terminator (`.`), and
      as soon as at least one character is taken the closing `dd` is tried. The
      result is the index of the closing `dd`. */
  function StrongClose(s: string, d: char, t: nat): (j: Option<nat>)
    requires t <= |s|
    ensures j.Some? ==> t + 1 <= j.value && j.value + 2 <= |s| && s[j.value] == d && s[j.value + 1] == d
    decreases |s| - t
  {
    if t == |s| || IsLineTerminator(s[t]) then None
    else if t + 2 < |s| && s[t + 1] == d && s[t + 2] == d then Some(t + 1)
    else StrongClose(s, d, t + 1)
  }

  /** A strong match at the start of `s`: the opening `dd`, at least one
      character that is not a line terminator, the closing `dd`. The result is
      the markup written for it and the number of characters it takes. */
  function StrongAt(s: string, d: char): (r: Option<(string, nat)>)
    ensures r.Some? ==> 4 < r.value.1 <= |s|
  {
    if |s| > 1 && s[0] == d && s[1] == d && StrongClose(s, d, 2).Some? then
      var j := StrongClose(s, d, 2).value;
      Some(("<strong>" + s[2..j] + "</strong>", j + 2))
    else None
  }

  /** `.replace` of the global pattern `\*\*(.+?)\*\*` by `<strong>$1</strong>` for
      `d == '*'`, and the same rule with `__` for `d == '_'`. The global replace
      tries each position in turn and resumes after a match. */
  function StrongPass(s: string, d: char): string
    decreases |s|
  {
    if |s| == 0 then ""
    else match StrongAt(s, d)
      case Some(m) => m.0 + StrongPass(s[m.1..], d)
      case None => [s[0]] + StrongPass(s[1..], d)
  }

  /** The end of an emphasis match whose opening `*` is at `m`: the content
      `[^*\n]+?` cannot hold `*`, so the closing star is the first star after `m`;
      the content must be non-empty, hold no `\n`, and the closing star must not be
      followed by another (`(?!\*)`). */
  function EmClose(s: string, m: nat): (j: Option<nat>)
    requires m < |s|
    ensures j.Some? ==> m + 2 <= j.value < |s| && s[j.value] == '*'
  {
    var j := IndexOf(s, '*', m + 1);
    if j < |s| && j > m + 1 && '\n' !in s[m + 1..j] && (j + 1 == |s| || s[j + 1] != '*')
    then Some(j) else None
  }

  /** An emphasis match at the start of `s`: with the prefix `^` (only when
      `s` is the start of the input, `atStart`) the opening star is `s[0]`; with
      the prefix `[^*]` it is `s[1]`, after a character that is not a star. The
      prefix is written back before `<em>`. */
  function EmAt(s: string, atStart: bool): (r: Option<(string, nat)>)
    ensures r.Some? ==> 0 < r.value.1 <= |s|
  {
    if atStart && |s| > 0 && s[0] == '*' && EmClose(s, 0).Some? then
      var j := EmClose(s, 0).value;
      Some(("<em>" + s[1..j] + "</em>", j + 1))
    else if |s| > 1 && s[0] != '*' && s[1] == '*' && EmClose(s, 1).Some? then
      var j := EmClose(s, 1).value;
      Some(([s[0]] + "<em>" + s[2..j] + "</em>", j + 1))
    else None
  }

  /** `.replace(/(^|[^*])\*(?!\*)([^*\n]+?)\*(?!\*)/g, ...)`, which writes the
      captured prefix, then `<em>` content `</em>`. `atStart` is true only for
      the whole input, where `^` can match. */
  function EmPass(s: string, atStart: bool): string
    decreases |s|
  {
    if |s| == 0 then ""
    else match EmAt(s, atStart)
      case Some(m) => m.0 + EmPass(s[m.1..], false)
      case None => [s[0]] + EmPass(s[1..], false)
  }

  /** `formatEmphasis`: `**` strong, then `__` strong, then `*` emphasis. */
  function FormatEmphasis(input: string): string {
    EmPass(StrongPass(StrongPass(input, '*'), '_'), true)
  }

  // ---------------------------------------------------------------------------
  // Code placeholders
  // ---------------------------------------------------------------------------

  const PlaceholderPrefix: string := "CODE_PLACEHOLDER_"

  /** The placeholder written for the code span numbered `n`:
      `__CODE_PLACEHOLDER_<n>__`. */
  function Placeholder(n: nat): string {
    "__" + PlaceholderPrefix + NatToString(n) + "__"
  }

  /** A code span at the start of `s`: a backtick, at least one character
      that is not a backtick (the lazy content cannot hold one, so it runs to
      the next backtick), then that backtick. The result is the content and the
      number of characters the span takes. */
  function CodeAt(s: string): (r: Option<(string, nat)>)
    ensures r.Some? ==> 2 < r.value.1 <= |s| && r.value.0 == s[1..r.value.1 - 1]
  {
    if |s| > 0 && s[0] == '`' then
      var j := IndexOf(s, '`', 1);
      if 1 < j < |s| then Some((s[1..j], j + 1)) else None
    else None
  }

  /** `input.replace(/`([^`]+?)`/g, cb)` where `cb` pushes the code onto
      `codePlaceholders` and returns the placeholder numbered by the list's length
      at that moment; `n` is that length when the scan reaches `s`. Returns the
      rewritten text and the codes pushed, in order. */
  function CodePass(s: string, n: nat): (r: (string, seq<string>))
    decreases |s|
  {
    if |s| == 0 then ("", [])
    else match CodeAt(s)
      case Some(m) =>
        var rest := CodePass(s[m.1..], n + 1);
        (Placeholder(n) + rest.0, [m.0] + rest.1)
      case None =>
        var rest := CodePass(s[1..], n);
        ([s[0]] + rest.0, rest.1)
  }

  // ---------------------------------------------------------------------------
  // Links
  // ---------------------------------------------------------------------------

  /** `/^https?:\/\//i` */
  predicate HasWebScheme(url: string) {
    StartsWithIgnoreCase(url, "http://") || StartsWithIgnoreCase(url, "https://")
  }

  /** What the link callback returns for one `[label](url)` match. */
  function LinkReplacement(text: string, url: string): string {
    var safeUrl := Trim(url);
    var formattedLabel := FormatEmphasis(text);
    if !HasWebScheme(safeUrl) then formattedLabel
    else
      var escapedUrl := HtmlEscape.ReplaceChar(safeUrl, '"', "&quot;");
      "<a href=\"" + escapedUrl + "\" target=\"_blank\" rel=\"noreferrer noopener\">" + formattedLabel + "</a>"
  }

  /** A `[label](url)` match at the start of `s`. The greedy label `[^\]]+`
      runs to the first `]`, the greedy URL `[^)]+` to the first `)`, and both
      must be non-empty. The result is the callback's replacement and the number
      of characters matched. */
  function LinkAt(s: string): (r: Option<(string, nat)>)
    ensures r.Some? ==> 0 < r.value.1 <= |s|
  {
    if |s| > 0 && s[0] == '[' then
      var k := IndexOf(s, ']', 1);
      if 1 < k && k + 1 < |s| && s[k + 1] == '(' then
        var e := IndexOf(s, ')', k + 2);
        if k + 2 < e < |s| then Some((LinkReplacement(s[1..k], s[k + 2..e]), e + 1)) else None
      else None
    else None
  }

  /** `.replace(/\[([^\]]+)\]\(([^)]+)\)/g, cb)`. */
  function LinkPass(s: string): string
    decreases |s|
  {
    if |s| == 0 then ""
    else match LinkAt(s)
      case Some(m) => m.0 + LinkPass(s[m.1..])
      case None => [s[0]] + LinkPass(s[1..])
  }

  // ---------------------------------------------------------------------------
  // Restoring the placeholders
  // ---------------------------------------------------------------------------

  /** The replacement string given for placeholder `index`. */
  function CodeHtml(code: string): string {
    "<code>" + code + "</code>"
  }

  /** `String.prototype.replace` reads its replacement string as a template:
      `$$` is `$`, `$&` the matched text, `` $` `` the text before the match and
      `$'` the text after it. The pattern has no capture groups, so `$1` and the
      like stay literal. */
  function Expand(rep: string, matched: string, before: string, after: string): string
    decreases |rep|
  {
    if |rep| == 0 then ""
    else if rep[0] == '$' && |rep| >= 2 && rep[1] == '$' then "$" + Expand(rep[2..], matched, before, after)
    else if rep[0] == '$' && |rep| >= 2 && rep[1] == '&' then matched + Expand(rep[2..], matched, before, after)
    else if rep[0] == '$' && |rep| >= 2 && rep[1] == '`' then before + Expand(rep[2..], matched, before, after)
    else if rep[0] == '$' && |rep| >= 2 && rep[1] == '\'' then after + Expand(rep[2..], matched, before, after)
    else [rep[0]] + Expand(rep[1..], matched, before, after)
  }

  /** The first index at or after `from` where `pat` occurs in `s`, or `|s|`. */
  function Find(s: string, pat: string, from: nat): (i: nat)
    requires |pat| > 0 && from <= |s|
    ensures from <= i <= |s|
    ensures i < |s| ==> StartsWith(s[i..], pat)
    ensures forall k | from <= k < i :: !StartsWith(s[k..], pat)
    decreases |s| - from
  {
    if from == |s| || StartsWith(s[from..], pat) then from else Find(s, pat, from + 1)
  }

  /** `s.replace(new RegExp(pat, "g"), rep)` for a pattern with no special
      characters, continuing the scan from `from`. */
  function ReplaceAllFrom(s: string, pat: string, rep: string, from: nat): string
    requires |pat| > 0 && from <= |s|
    decreases |s| - from
  {
    var i := Find(s, pat, from);
    if i == |s| then s[from..]
    else s[from..i] + Expand(rep, pat, s[..i], s[i + |pat|..]) + ReplaceAllFrom(s, pat, rep, i + |pat|)
  }

  function ReplaceAll(s: string, pat: string, rep: string): string
    requires |pat| > 0
  {
    ReplaceAllFrom(s, pat, rep, 0)
  }

  /** The `forEach` over `codePlaceholders`, after its first `|codes|` rounds. */
  function Restore(s: string, codes: seq<string>): string
    decreases |codes|
  {
    if |codes| == 0 then s
    else
      var last := |codes| - 1;
      ReplaceAll(Restore(s, codes[..last]), Placeholder(last), CodeHtml(codes[last]))
  }

  /** The value `applyInlineFormatting` returns. */
  function InlineFormat(input: string): string {
    var withPlaceholders := CodePass(input, 0);
    Restore(FormatEmphasis(LinkPass(withPlaceholders.0)), withPlaceholders.1)
  }

  /** `applyInlineFormatting`: the placeholder scan, the link rule and the
      emphasis rules, then the loop that puts each code span back. */
  method ApplyInlineFormatting(input: string) returns (processed: string)
    ensures processed == InlineFormat(input)
  {
    var withCodePlaceholders, codePlaceholders := CodePass(input, 0).0, CodePass(input, 0).1;
    processed := LinkPass(withCodePlaceholders);
    processed := FormatEmphasis(processed);
    ghost var formatted := processed;
    for index := 0 to |codePlaceholders|
      invariant processed == Restore(formatted, codePlaceholders[..index])
    {
      assert codePlaceholders[..index + 1][..index] == codePlaceholders[..index];
      processed := ReplaceAll(processed, Placeholder(index), CodeHtml(codePlaceholders[index]));
    }
    assert codePlaceholders[..|codePlaceholders|] == codePlaceholders;
  }
}
