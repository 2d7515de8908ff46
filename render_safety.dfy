/**
  What markup `formatSummaryHtml` can write. Each piece of text reaches the
  output only through `escapeHtml` and the inline pass, and the block
  renderer adds only its own tags, so every `<` of the summary starts one of
  those tags or an anchor whose address starts with `http://` or `https://`:
  no `<script`, no `<code`, and no anchor of any other scheme.
*/
module RenderSafety {
  import opened Text
  import opened Wrappers
  import opened SummaryBlocks
  import opened SummaryRenderer
  import opened SummaryProperties
  import opened MarkupSafety
  import InlineFormat

  // ---------------------------------------------------------------------------
  // The tags of the blocks
  // ---------------------------------------------------------------------------

  lemma BlockTagIsOwnMarkup(b: string)
    requires BlockTagName(b)
    ensures OwnMarkup("<" + b)
  {
    BlockTagNameShape(b);
    OwnTagIsOwnMarkup(b);
  }

  lemma HeadingTagIsOwnMarkup(b: string)
    requires HeadingTagName(b)
    ensures OwnMarkup("<" + b)
  {
    HeadingTagNameShape(b);
    OwnTagIsOwnMarkup(b);
  }

  /** A heading level of 1 to 4 is written as one digit. */
  lemma LevelDigit(level: nat)
    requires 1 <= level <= 4
    ensures NatToString(level) == [('0' as int + level) as char]
  {
    if level == 1 {
      assert NatToString(1) == ['1'];
    } else if level == 2 {
      assert NatToString(2) == ['2'];
    } else if level == 3 {
      assert NatToString(3) == ['3'];
    } else {
      assert NatToString(4) == ['4'];
    }
  }

  lemma HeadingTagsAreOwnMarkup(level: nat)
    requires 1 <= level <= 4
    ensures OwnMarkup("<h" + NatToString(level) + " class=\"summary-heading\">")
    ensures OwnMarkup("</h" + NatToString(level) + ">")
  {
    LevelDigit(level);
    var digit := NatToString(level);
    var open := "h" + digit + HeadingClass;
    assert open[2..] == HeadingClass;
    HeadingTagIsOwnMarkup(open);
    assert "<h" + digit + " class=\"summary-heading\">" == "<" + open;
    var close := "/h" + digit + ">";
    HeadingTagIsOwnMarkup(close);
    assert "</h" + digit + ">" == "<" + close;
  }

  lemma RuleIsOwnMarkup()
    ensures OwnMarkup(RuleHtml)
  {
    HeadingTagIsOwnMarkup("hr" + RuleClass);
    assert RuleHtml == "<" + ("hr" + RuleClass);
  }

  lemma ListTagsAreOwnMarkup(k: ListKind)
    ensures OwnMarkup(OpenTag(TagName(k))) && OwnMarkup(CloseTag(TagName(k)))
  {
    if k == Unordered {
      BlockTagIsOwnMarkup("ul>");
      BlockTagIsOwnMarkup("/ul>");
      assert OpenTag("ul") == "<" + "ul>" && CloseTag("ul") == "<" + "/ul>";
    } else {
      BlockTagIsOwnMarkup("ol>");
      BlockTagIsOwnMarkup("/ol>");
      assert OpenTag("ol") == "<" + "ol>" && CloseTag("ol") == "<" + "/ol>";
    }
  }

  lemma Wrapped(open: string, inner: string, close: string)
    requires OwnMarkup(open) && OwnMarkup(inner) && OwnMarkup(close)
    ensures OwnMarkup(open + inner + close)
  {
    OwnMarkupConcat(open, inner);
    OwnMarkupConcat(open + inner, close);
  }

  /** Every text of a block goes through `escapeHtml` and the inline pass. */
  lemma InlineIsOwnMarkup(text: string)
    ensures OwnMarkup(Inline(text))
  {
    EscapedInlineOwnMarkup(text);
  }

  lemma HeadingIsOwnMarkup(level: nat, text: string)
    requires 1 <= level <= 4
    ensures OwnMarkup(HeadingHtml(level, text, Inline))
  {
    var open, close := "<h" + NatToString(level) + " class=\"summary-heading\">", "</h" + NatToString(level) + ">";
    HeadingTagsAreOwnMarkup(level);
    InlineIsOwnMarkup(text);
    Wrapped(open, Inline(text), close);
    Regrouped(open + Inline(text), "</h", NatToString(level), ">");
  }

  lemma QuoteIsOwnMarkup(text: string)
    ensures OwnMarkup(QuoteHtml(text, Inline))
  {
    BlockTagIsOwnMarkup("blockquote>");
    BlockTagIsOwnMarkup("/blockquote>");
    assert "<" + "blockquote>" == "<blockquote>" && "<" + "/blockquote>" == "</blockquote>";
    InlineIsOwnMarkup(text);
    Wrapped("<blockquote>", Inline(text), "</blockquote>");
  }

  lemma ItemIsOwnMarkup(text: string)
    ensures OwnMarkup(ItemHtml(text, Inline))
  {
    BlockTagIsOwnMarkup("li>");
    BlockTagIsOwnMarkup("/li>");
    assert "<" + "li>" == "<li>" && "<" + "/li>" == "</li>";
    InlineIsOwnMarkup(text);
    Wrapped("<li>", Inline(text), "</li>");
  }

  lemma ParagraphIsOwnMarkup(text: string)
    ensures OwnMarkup(ParagraphHtml(text, Inline))
  {
    BlockTagIsOwnMarkup("p>");
    BlockTagIsOwnMarkup("/p>");
    assert "<" + "p>" == "<p>" && "<" + "/p>" == "</p>";
    InlineIsOwnMarkup(text);
    Wrapped("<p>", Inline(text), "</p>");
  }

  // ---------------------------------------------------------------------------
  // The parts of the blocks
  // ---------------------------------------------------------------------------

  ghost predicate AllOwnMarkup(parts: seq<string>) {
    forall k | 0 <= k < |parts| :: OwnMarkup(parts[k])
  }

  /** Heading blocks have a level of 1 to 4. */
  predicate LevelsInRange(bs: seq<Block>) {
    forall k | 0 <= k < |bs| :: bs[k].HeadingBlock? ==> 1 <= bs[k].level <= 4
  }

  lemma {:induction false} ItemsAreOwnMarkup(items: seq<string>)
    ensures AllOwnMarkup(ItemsHtml(items, Inline))
    decreases |items|
  {
    if |items| > 0 {
      ItemIsOwnMarkup(items[0]);
      ItemsAreOwnMarkup(items[1..]);
    }
  }

  lemma BlockIsOwnMarkup(b: Block)
    requires b.HeadingBlock? ==> 1 <= b.level <= 4
    ensures AllOwnMarkup(BlockHtml(b, Inline))
  {
    match b
    case ListBlock(k, items) =>
      ListTagsAreOwnMarkup(k);
      ItemsAreOwnMarkup(items);
    case ParagraphBlock(lines) => ParagraphIsOwnMarkup(Join(lines, " "));
    case HeadingBlock(level, text) => HeadingIsOwnMarkup(level, text);
    case RuleBlock => RuleIsOwnMarkup();
    case QuoteBlock(text) => QuoteIsOwnMarkup(text);
  }

  lemma {:induction false} BlocksAreOwnMarkup(bs: seq<Block>)
    requires LevelsInRange(bs)
    ensures AllOwnMarkup(BlocksHtml(bs, Inline))
    decreases |bs|
  {
    if |bs| > 0 {
      BlockIsOwnMarkup(bs[0]);
      BlocksAreOwnMarkup(bs[1..]);
    }
  }

  /** The blocks keep the levels of the heading lines. */
  lemma {:induction false} BlocksKeepLevels(ls: seq<Line>)
    requires forall i | 0 <= i < |ls| :: ls[i].Heading? ==> 1 <= ls[i].level <= 4
    ensures LevelsInRange(Blocks(ls))
    decreases |ls|
  {
    if |ls| > 0 {
      match ls[0]
      case Item(k, _) => BlocksKeepLevels(ls[ItemRun(ls, k)..]);
      case Plain(_) => BlocksKeepLevels(ls[PlainRun(ls)..]);
      case _ => BlocksKeepLevels(ls[1..]);
    }
  }

  lemma {:induction false} ConcatIsOwnMarkup(parts: seq<string>)
    requires AllOwnMarkup(parts)
    ensures OwnMarkup(Concat(parts))
    decreases |parts|
  {
    if |parts| > 0 {
      ConcatIsOwnMarkup(parts[1..]);
      OwnMarkupConcat(parts[0], Concat(parts[1..]));
    }
  }

  // ---------------------------------------------------------------------------
  // formatSummaryHtml
  // ---------------------------------------------------------------------------

  /** Every `<` of the summary starts one of the renderer's own tags or an
      anchor whose address starts with `http://` or `https://`. */
  lemma RenderWritesOwnMarkup(text: Option<string>)
    ensures OwnMarkup(Render(text))
  {
    if text.Some? && text.value != "" {
      var ls := ClassifyAll(SourceLines(text.value));
      RenderIsBlockwise(text.value);
      BlocksKeepLevels(ls);
      BlocksAreOwnMarkup(Blocks(ls));
      ConcatIsOwnMarkup(BlocksHtml(Blocks(ls), Inline));
    }
  }

  /** None of the renderer's own tags starts like an anchor. */
  lemma OwnTagIsNoAnchor(u: string)
    ensures OwnTagAt(u) ==> !StartsWith(u, LinkOpen)
  {
    if OwnTagAt(u) {
      var b :| OwnTagName(b) && StartsWith(u, "<" + b);
      OwnTagNameShape(b);
      assert u[1] == ("<" + b)[1] == b[0];
    }
  }

  /** Nothing the renderer writes starts `<script` or `<code`. */
  lemma TagIsNotScriptOrCode(u: string)
    ensures TagStart(u) ==> !StartsWith(u, "<script") && !StartsWith(u, "<code")
  {
    if OwnTagAt(u) {
      var b :| OwnTagName(b) && StartsWith(u, "<" + b);
      OwnTagNameShape(b);
      assert u[1] == ("<" + b)[1] == b[0] && u[2] == ("<" + b)[2] == b[1];
    } else if WebLinkAt(u) {
      assert u[1] == LinkOpen[1];
    }
  }

  /** Every anchor of the summary links to an `http:` or `https:` address:
      a `javascript:` or `data:` address leaves only its caption. */
  lemma RenderAnchorsAreWeb(text: Option<string>)
    ensures forall i | 0 <= i < |Render(text)| && StartsWith(Render(text)[i..], "<a href=\"") ::
      InlineFormat.HasWebScheme(Render(text)[i + 9..])
  {
    var html := Render(text);
    RenderWritesOwnMarkup(text);
    forall i | 0 <= i < |html| && StartsWith(html[i..], "<a href=\"") ensures InlineFormat.HasWebScheme(html[i + 9..]) {
      assert html[i] == html[i..][0];
      OwnTagIsNoAnchor(html[i..]);
      assert html[i..][9..] == html[i + 9..];
    }
  }

  /** The summary holds no `<script` and no `<code`, whatever the text: every
      `<` of the text itself is escaped, and a code span comes back as bold
      placeholder text. */
  lemma RenderWritesNoScriptOrCode(text: Option<string>)
    ensures forall i | 0 <= i < |Render(text)| ::
      !StartsWith(Render(text)[i..], "<script") && !StartsWith(Render(text)[i..], "<code")
  {
    var html := Render(text);
    RenderWritesOwnMarkup(text);
    forall i | 0 <= i < |html| ensures !StartsWith(html[i..], "<script") && !StartsWith(html[i..], "<code") {
      TagIsNotScriptOrCode(html[i..]);
      assert html[i..][0] == html[i];
    }
  }
}
