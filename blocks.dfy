/**
  How the summary renderer reads one line of the summary (popup.js:85-149, the
  same text at reader-popup.js:88-152): blank, heading, horizontal rule, quote,
  bulleted item, numbered item, or a plain line that belongs to a paragraph.
  The tests run in that order; each regular expression is modelled as the
  match it makes on a line that `split("\n")` produced (so the line holds no
  `\n`, though it may hold another line terminator, which `.` refuses).
*/
module SummaryBlocks {
  import opened Text
  import opened Wrappers

  datatype ListKind = Unordered | Ordered

  /** The tag name written for each kind of list. */
  function TagName(k: ListKind): string {
    match k
    case Unordered => "ul"
    case Ordered => "ol"
  }

  /** What one raw line is, with the trimmed text that the block it starts shows. */
  datatype Line =
    | Blank
    | Heading(level: nat, content: string)
    | Rule
    | Quote(content: string)
    | Item(kind: ListKind, content: string)
    | Plain(content: string)

  /** The number of copies of `c` that `s` starts with. */
  function RunLength(s: string, c: char): (n: nat)
    ensures n <= |s|
    ensures forall i | 0 <= i < n :: s[i] == c
    ensures n == |s| || s[n] != c
  {
    if |s| > 0 && s[0] == c then 1 + RunLength(s[1..], c) else 0
  }

  /** The number of decimal digits that `s` starts with. */
  function DigitRun(s: string): (n: nat)
    ensures n <= |s|
    ensures forall i | 0 <= i < n :: IsDigit(s[i])
    ensures n == |s| || !IsDigit(s[n])
  {
    if |s| > 0 && IsDigit(s[0]) then 1 + DigitRun(s[1..]) else 0
  }

  /** `^\s*(#{1,6})\s+(.*)$` on a line whose leading whitespace is already cut
      (that is what the greedy `\s*` takes, as `#` is not whitespace). The hash
      run cannot end early, since a `#` is not whitespace either, so the run
      itself must be 1 to 6 long and followed by whitespace; the greedy `\s+`
      then takes all the whitespace, and `(.*)$` needs the rest to hold no line
      terminator. Gives the number of hashes and the second group. */
  function MatchHeading(lead: string): Option<(nat, string)> {
    var h := RunLength(lead, '#');
    if 1 <= h <= 6 && h < |lead| && IsSpace(lead[h]) && NoLineTerminator(TrimStart(lead[h..]))
    then Some((h, TrimStart(lead[h..])))
    else None
  }

  /** `^(-{3,}|\*{3,}|_{3,})$` on the trimmed line. */
  predicate IsRule(trimmed: string) {
    && |trimmed| >= 3
    && (trimmed[0] == '-' || trimmed[0] == '*' || trimmed[0] == '_')
    && forall i | 0 <= i < |trimmed| :: trimmed[i] == trimmed[0]
  }

  /** `^\s*>\s?(.*)$`: after the `>`, one whitespace character is skipped if
      there is one, and the rest must hold no line terminator (skipping nothing
      instead would leave the same terminator in the rest). */
  function MatchQuote(lead: string): Option<string> {
    if |lead| > 0 && lead[0] == '>' then
      var rest := lead[1..];
      var group := if |rest| > 0 && IsSpace(rest[0]) then rest[1..] else rest;
      if NoLineTerminator(group) then Some(group) else None
    else None
  }

  /** `^\s*[-*+]\s+(.*)$`: the greedy `\s+` takes the whole whitespace run;
      giving some of it back to `(.*)` would keep in the group the same line
      terminator that made the longest run fail. */
  function MatchBullet(lead: string): Option<string> {
    if |lead| >= 2 && (lead[0] == '-' || lead[0] == '*' || lead[0] == '+') && IsSpace(lead[1])
       && NoLineTerminator(TrimStart(lead[1..]))
    then Some(TrimStart(lead[1..]))
    else None
  }

  /** `^\s*\d+\.\s+(.*)$`: the greedy digit run must be followed by `.`, as a
      shorter run would leave a digit where the `.` is expected. The greedy
      `\s+` takes the whole whitespace run; giving some of it back to `(.*)`
      would keep in the group the same line terminator. */
  function MatchNumbered(lead: string): Option<string> {
    var d := DigitRun(lead);
    if d >= 1 && d + 1 < |lead| && lead[d] == '.' && IsSpace(lead[d + 1])
       && NoLineTerminator(TrimStart(lead[d + 1..]))
    then Some(TrimStart(lead[d + 1..]))
    else None
  }

  /** The chain of tests in the loop body, in the source's order. */
  function Classify(rawLine: string): (line: Line)
    ensures line.Blank? <==> AllSpace(rawLine)
    ensures line.Heading? ==> 1 <= line.level <= 4
    ensures line.Plain? ==> line.content == Trim(rawLine)
    ensures line.Plain? ==> line.content != [] && !IsSpace(line.content[0]) && !IsSpace(line.content[|line.content| - 1])
  {
    TrimSpec(rawLine);
    ClassifyTrimmed(Trim(rawLine), TrimStart(rawLine))
  }

  /** The same chain, given the trimmed line and the line without its leading
      whitespace (the part every `^\s*` pattern looks at). */
  function ClassifyTrimmed(trimmed: string, lead: string): (line: Line)
    ensures line.Blank? <==> trimmed == []
    ensures line.Heading? ==> 1 <= line.level <= 4
    ensures line.Plain? ==> line.content == trimmed
  {
    if trimmed == [] then Blank
    else if MatchHeading(lead).Some? then
      var (hashes, text) := MatchHeading(lead).value;
      Heading(if hashes < 4 then hashes else 4, Trim(text))
    else if IsRule(trimmed) then Rule
    else if MatchQuote(lead).Some? then Quote(Trim(MatchQuote(lead).value))
    else if MatchBullet(lead).Some? then Item(Unordered, Trim(MatchBullet(lead).value))
    else if MatchNumbered(lead).Some? then Item(Ordered, Trim(MatchNumbered(lead).value))
    else Plain(trimmed)
  }

  /** `c` repeated `n` times. */
  function Repeat(c: char, n: nat): (r: string)
    ensures |r| == n && forall i | 0 <= i < n :: r[i] == c
  {
    if n == 0 then "" else [c] + Repeat(c, n - 1)
  }

  /** A run of 1 to 6 `#` followed by whitespace is a heading of level
      `min(4, count)` holding the trimmed rest of the line, whatever
      indentation precedes it. */
  lemma ClassifyHeading(indent: string, hashes: nat, gap: string, body: string)
    requires AllSpace(indent) && 1 <= hashes <= 6
    requires |gap| >= 1 && AllSpace(gap)
    requires NoLineTerminator(body)
    ensures Classify(indent + (Repeat('#', hashes) + (gap + body)))
         == Heading(if hashes < 4 then hashes else 4, Trim(body))
  {
    var lead := Repeat('#', hashes) + (gap + body);
    HeadingLead(hashes, gap, body);
    TrimmedStartsWith(indent, lead);
    TrimOfTrimStart(body);
    ClassifyByLead(indent + lead, lead);
  }

  /** What `trimStart` leaves of a line holds no line terminator when the
      line holds none. */
  lemma TrimStartKeepsLine(body: string)
    requires NoLineTerminator(body)
    ensures NoLineTerminator(TrimStart(body))
  {
    TrimStartSpec(body);
    var k := |body| - |TrimStart(body)|;
    assert forall i | 0 <= i < |TrimStart(body)| :: TrimStart(body)[i] == body[k + i];
  }

  lemma HeadingLead(hashes: nat, gap: string, body: string)
    requires 1 <= hashes <= 6 && |gap| >= 1 && AllSpace(gap)
    requires NoLineTerminator(body)
    ensures MatchHeading(Repeat('#', hashes) + (gap + body)) == Some((hashes, TrimStart(body)))
    ensures (Repeat('#', hashes) + (gap + body))[0] == '#'
  {
    var rest := gap + body;
    var lead := Repeat('#', hashes) + rest;
    assert lead[hashes] == rest[0] == gap[0];
    assert RunLength(lead, '#') == hashes;
    assert lead[hashes..] == rest;
    TrimStartSkipsSpace(gap, body);
    TrimStartKeepsLine(body);
  }

  /** `Classify` looks at a line only through its trimmed form and the form
      without leading whitespace. */
  lemma ClassifyByLead(raw: string, lead: string)
    requires TrimStart(raw) == lead
    ensures Classify(raw) == ClassifyTrimmed(Trim(raw), lead)
  {
  }

  lemma NoRuleMarker(t: string)
    requires t != [] && t[0] != '-' && t[0] != '*' && t[0] != '_'
    ensures !IsRule(t)
  {
  }

  /** A non-blank line that is neither a heading nor a rule goes on to the
      quote, bullet and number tests. */
  lemma AfterRuleTest(trimmed: string, lead: string)
    requires trimmed != [] && MatchHeading(lead).None? && !IsRule(trimmed)
    ensures ClassifyTrimmed(trimmed, lead)
         == if MatchQuote(lead).Some? then Quote(Trim(MatchQuote(lead).value))
            else if MatchBullet(lead).Some? then Item(Unordered, Trim(MatchBullet(lead).value))
            else if MatchNumbered(lead).Some? then Item(Ordered, Trim(MatchNumbered(lead).value))
            else Plain(trimmed)
  {
  }

  /** A trimmed line of three or more `-`, `*` or `_` alone is a rule. */
  lemma ClassifyRule(before: string, c: char, n: nat, after: string)
    requires AllSpace(before) && AllSpace(after)
    requires c == '-' || c == '*' || c == '_'
    requires n >= 3
    ensures Classify(before + Repeat(c, n) + after) == Rule
  {
    var rule := Repeat(c, n);
    var lead := rule + after;
    ConcatAssoc(before, rule, after);
    TrimOfPadded(before, rule, after);
    TrimStartOfPadded(before, lead);
    assert MatchHeading(lead).None? by {
      assert lead[0] == c;
      assert RunLength(lead, '#') == 0;
    }
  }

  /** The line without its indentation starts with a non-space `x`, so neither
      end of the trimmed line is whitespace and it starts with `x`. */
  lemma TrimmedStartsWith(indent: string, lead: string)
    requires AllSpace(indent) && |lead| > 0 && !IsSpace(lead[0])
    ensures TrimStart(indent + lead) == lead
    ensures Trim(indent + lead) != [] && Trim(indent + lead)[0] == lead[0]
  {
    TrimOfIndented(indent, lead);
    TrimStartOfPadded(indent, lead);
  }

  lemma TrimEndKeepsStart(s: string)
    requires |s| > 0 && !IsSpace(s[0])
    ensures TrimEnd(s) != []
  {
    TrimSpec(s);
    assert !AllSpace(s);
  }

  lemma TrimOfIndented(indent: string, lead: string)
    requires AllSpace(indent) && |lead| > 0 && !IsSpace(lead[0])
    ensures Trim(indent + lead) != [] && Trim(indent + lead)[0] == lead[0]
    ensures Trim(indent + lead) == TrimEnd(lead)
  {
    var e := TrimEnd(lead);
    TrimEndSpec(lead);
    TrimEndKeepsStart(lead);
    assert e[0] == lead[0];
    TrimEndSplits(lead, e);
    TrimOfSplitLine(indent, lead, e, lead[|e|..]);
  }

  lemma TrimEndSplits(lead: string, e: string)
    requires |e| <= |lead| && e == lead[..|e|]
    ensures lead == e + lead[|e|..]
  {
  }

  /** The same, given the line split into its trimmed part and the trailing
      whitespace. */
  lemma TrimOfSplitLine(indent: string, lead: string, e: string, tail: string)
    requires AllSpace(indent) && AllSpace(tail) && lead == e + tail
    requires e != [] && !IsSpace(e[0]) && !IsSpace(e[|e| - 1])
    ensures Trim(indent + lead) == e
  {
    ConcatAssoc(indent, e, tail);
    TrimOfPadded(indent, e, tail);
  }

  /** A `>` line is a quote holding the trimmed text after the `>`. */
  lemma ClassifyQuote(indent: string, gap: string, body: string)
    requires AllSpace(indent) && AllSpace(gap)
    requires NoLineTerminator(gap) && NoLineTerminator(body)
    ensures Classify(indent + (">" + (gap + body))) == Quote(Trim(body))
  {
    var lead := ">" + (gap + body);
    QuoteLead(gap, body);
    TrimmedStartsWith(indent, lead);
    var t := Trim(indent + lead);
    NoRuleMarker(t);
    ClassifyByLead(indent + lead, lead);
    AfterRuleTest(t, lead);
  }

  lemma QuoteLead(gap: string, body: string)
    requires AllSpace(gap) && NoLineTerminator(gap) && NoLineTerminator(body)
    ensures MatchQuote(">" + (gap + body)).Some?
    ensures Trim(MatchQuote(">" + (gap + body)).value) == Trim(body)
    ensures MatchHeading(">" + (gap + body)).None?
    ensures (">" + (gap + body))[0] == '>'
  {
    var lead := ">" + (gap + body);
    assert lead[1..] == gap + body;
    if |gap| >= 1 {
      assert (gap + body)[1..] == gap[1..] + body;
      TrimSkipsSpace(gap[1..], body);
    } else {
      assert gap + body == body;
      if |body| > 0 && IsSpace(body[0]) {
        assert body == [body[0]] + body[1..];
        TrimSkipsSpace([body[0]], body[1..]);
      }
    }
    assert RunLength(lead, '#') == 0;
  }

  /** Indentation never changes how a line is read: every pattern starts with
      `^\s*`, and trimming removes it too. */
  lemma ClassifyIgnoresIndent(indent: string, line: string)
    requires AllSpace(indent) && |line| > 0 && !IsSpace(line[0])
    ensures Classify(indent + line) == Classify(line)
  {
    TrimmedStartsWith(indent, line);
    TrimmedStartsWith("", line);
    assert "" + line == line;
    TrimOfIndented(indent, line);
    TrimOfIndented("", line);
    ClassifyByLead(indent + line, line);
    ClassifyByLead(line, line);
  }

  /** A line starting with `-`, `*` or `+` and whitespace is a bulleted item
      holding the trimmed rest of the line. */
  lemma ClassifyBullet(marker: char, gap: string, body: string)
    requires marker == '-' || marker == '*' || marker == '+'
    requires |gap| >= 1 && AllSpace(gap)
    requires NoLineTerminator(body)
    ensures Classify([marker] + (gap + body)) == Item(Unordered, Trim(body))
  {
    var lead := [marker] + (gap + body);
    BulletIsNoRule("", marker, gap, body);
    assert "" + lead == lead;
    TrimmedStartsWith("", lead);
    BulletLead(marker, gap, body);
    TrimOfTrimStart(body);
    AfterRuleTest(Trim(lead), lead);
  }

  lemma BulletLead(marker: char, gap: string, body: string)
    requires (marker == '-' || marker == '*' || marker == '+')
    requires |gap| >= 1 && AllSpace(gap)
    requires NoLineTerminator(body)
    ensures MatchBullet([marker] + (gap + body)) == Some(TrimStart(body))
    ensures MatchHeading([marker] + (gap + body)).None?
    ensures MatchQuote([marker] + (gap + body)).None?
    ensures ([marker] + (gap + body))[0] == marker
  {
    var lead := [marker] + (gap + body);
    assert lead[1..] == gap + body;
    assert RunLength(lead, '#') == 0;
    TrimStartSkipsSpace(gap, body);
    TrimStartKeepsLine(body);
  }

  /** After the marker comes whitespace, or nothing once the line is
      trimmed, so the line is no rule. */
  lemma BulletIsNoRule(indent: string, marker: char, gap: string, body: string)
    requires AllSpace(indent) && |gap| >= 1 && AllSpace(gap) && !IsSpace(marker)
    ensures !IsRule(Trim(indent + ([marker] + (gap + body))))
  {
    var raw := indent + ([marker] + (gap + body));
    if AllSpace(body) {
      forall i | 0 <= i < |gap + body| ensures IsSpace((gap + body)[i]) {
        if i < |gap| { assert (gap + body)[i] == gap[i]; } else { assert (gap + body)[i] == body[i - |gap|]; }
      }
      ConcatAssoc(indent, [marker], gap + body);
      TrimOfPadded(indent, [marker], gap + body);
    } else {
      var head := [marker] + gap;
      assert raw == indent + head + body;
      TrimEndKeepsPrefix(indent + head, body);
      ConcatAssoc(indent, head, TrimEnd(body));
      TrimStartOfPadded(indent, head + TrimEnd(body));
      assert Trim(raw) == head + TrimEnd(body);
      assert Trim(raw)[1] == gap[0];
    }
  }

  /** Digits, `.` and whitespace at the start make a numbered item. */
  lemma ClassifyNumbered(digits: string, gap: string, body: string)
    requires |digits| >= 1 && forall i | 0 <= i < |digits| :: IsDigit(digits[i])
    requires |gap| >= 1 && AllSpace(gap)
    requires NoLineTerminator(body)
    ensures Classify(digits + ("." + (gap + body))) == Item(Ordered, Trim(body))
  {
    var lead := digits + ("." + (gap + body));
    TrimOfTrimStart(body);
    assert lead[0] == digits[0] && IsDigit(lead[0]);
    TrimmedStartsWith("", lead);
    assert "" + lead == lead;
    var t := Trim(lead);
    NoRuleMarker(t);
    NumberedLead(digits, gap, body);
    AfterRuleTest(t, lead);
  }

  lemma NumberedLead(digits: string, gap: string, body: string)
    requires |digits| >= 1 && forall i | 0 <= i < |digits| :: IsDigit(digits[i])
    requires |gap| >= 1 && AllSpace(gap)
    requires NoLineTerminator(body)
    ensures MatchNumbered(digits + ("." + (gap + body))) == Some(TrimStart(body))
    ensures MatchHeading(digits + ("." + (gap + body))).None?
    ensures MatchQuote(digits + ("." + (gap + body))).None?
    ensures MatchBullet(digits + ("." + (gap + body))).None?
    ensures (digits + ("." + (gap + body)))[0] == digits[0]
  {
    var rest := gap + body;
    var lead := digits + ("." + rest);
    assert lead[|digits|] == '.';
    assert DigitRun(lead) == |digits|;
    assert lead[|digits| + 1..] == rest;
    assert lead[0] == digits[0];
    DigitLeadIsNoOther(lead);
    TrimStartSkipsSpace(gap, body);
    TrimStartKeepsLine(body);
  }

  /** A line that starts with a digit is no heading, quote or bulleted item. */
  lemma DigitLeadIsNoOther(lead: string)
    requires |lead| > 0 && IsDigit(lead[0])
    ensures MatchHeading(lead).None? && MatchQuote(lead).None? && MatchBullet(lead).None?
  {
    assert RunLength(lead, '#') == 0;
  }
}
