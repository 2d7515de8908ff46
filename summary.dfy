/**
  The block scanner of `formatSummaryHtml` (popup.js:17-155, the same text at
  reader-popup.js:20-158). The function keeps four local variables that its
  closures `closeList` and `flushParagraph` and the loop body update in place:
  the output list `htmlParts`, the list state `inList`/`listTag`, and
  `paragraphBuffer`. `SummaryBuilder` holds them as fields; the functions on
  `State` say what each update does, and `Run` is the whole scan.
*/
module SummaryRenderer {
  import opened Text
  import opened Wrappers
  import opened SummaryBlocks
  import HtmlEscape
  import InlineFormat

  /** `applyInlineFormatting(escapeHtml(text))`: the markup of a block's text. */
  function Inline(text: string): string {
    InlineFormat.InlineFormat(HtmlEscape.EscapeHtml(text))
  }

  /** The scan does not look inside the markup of a block's text, so the
      functions below take the formatter as a parameter; `Render` and the
      class pass `Inline`, and the properties of the scan hold for any. */
  type Formatter = string -> string

  function HeadingHtml(level: nat, text: string, fmt: Formatter): string {
    "<h" + NatToString(level) + " class=\"summary-heading\">" + fmt(text) + "</h" + NatToString(level) + ">"
  }

  const RuleHtml: string := "<hr class=\"summary-rule\">"

  function QuoteHtml(text: string, fmt: Formatter): string {
    "<blockquote>" + fmt(text) + "</blockquote>"
  }

  function ItemHtml(text: string, fmt: Formatter): string {
    "<li>" + fmt(text) + "</li>"
  }

  function ParagraphHtml(text: string, fmt: Formatter): string {
    "<p>" + fmt(text) + "</p>"
  }

  function OpenTag(tag: string): string {
    "<" + tag + ">"
  }

  function CloseTag(tag: string): string {
    "</" + tag + ">"
  }

  /** The four variables of the scan. */
  datatype State = State(htmlParts: seq<string>, inList: bool, listTag: string, paragraphBuffer: seq<string>)

  const Initial: State := State([], false, "", [])

  /** What the scan keeps true between lines: `inList` and `listTag` change
      together, the buffer is only filled while no list is open, and every
      buffered line is non-empty and trimmed. */
  predicate Valid(st: State) {
    && (st.inList ==> st.listTag == "ul" || st.listTag == "ol")
    && (!st.inList ==> st.listTag == "")
    && (|st.paragraphBuffer| > 0 ==> !st.inList)
    && forall i | 0 <= i < |st.paragraphBuffer| :: st.paragraphBuffer[i] != [] && Trimmed(st.paragraphBuffer[i])
  }

  /** `closeList` */
  function ListClosed(st: State): State {
    if st.inList then st.(htmlParts := st.htmlParts + [CloseTag(st.listTag)], inList := false, listTag := "")
    else st
  }

  /** `flushParagraph` */
  function ParagraphFlushed(st: State, fmt: Formatter): State {
    if |st.paragraphBuffer| == 0 then st
    else
      var combined := Trim(Join(st.paragraphBuffer, " "));
      var parts := if combined != [] then st.htmlParts + [ParagraphHtml(combined, fmt)] else st.htmlParts;
      st.(htmlParts := parts, paragraphBuffer := [])
  }

  /** The list handling of the `ul` and `ol` branches: a list of the other kind,
      or none, is closed and a list of this kind opened. */
  function ListOpened(st: State, kind: ListKind): State {
    if !st.inList || st.listTag != TagName(kind) then
      var closed := ListClosed(st);
      closed.(htmlParts := closed.htmlParts + [OpenTag(TagName(kind))], inList := true, listTag := TagName(kind))
    else st
  }

  function Pushed(st: State, html: string): State {
    st.(htmlParts := st.htmlParts + [html])
  }

  /** One round of the loop body, on a line already classified. */
  function LineHandled(st: State, line: Line, fmt: Formatter): State {
    match line
    case Blank => ListClosed(ParagraphFlushed(st, fmt))
    case Heading(level, content) => Pushed(ListClosed(ParagraphFlushed(st, fmt)), HeadingHtml(level, content, fmt))
    case Rule => Pushed(ListClosed(ParagraphFlushed(st, fmt)), RuleHtml)
    case Quote(content) => Pushed(ListClosed(ParagraphFlushed(st, fmt)), QuoteHtml(content, fmt))
    case Item(kind, content) => Pushed(ListOpened(ParagraphFlushed(st, fmt), kind), ItemHtml(content, fmt))
    case Plain(content) =>
      var closed := ListClosed(st);
      closed.(paragraphBuffer := closed.paragraphBuffer + [content])
  }

  /** The two calls after the loop. */
  function Finished(st: State, fmt: Formatter): State {
    ListClosed(ParagraphFlushed(st, fmt))
  }

  /** The rest of the scan from `st` over the lines `ls`, with the final calls. */
  function Run(st: State, ls: seq<Line>, fmt: Formatter): State
    decreases |ls|
  {
    if |ls| == 0 then Finished(st, fmt) else Run(LineHandled(st, ls[0], fmt), ls[1..], fmt)
  }

  function ClassifyAll(rawLines: seq<string>): (ls: seq<Line>)
    ensures |ls| == |rawLines|
    ensures forall i | 0 <= i < |ls| :: ls[i] == Classify(rawLines[i])
  {
    if |rawLines| == 0 then [] else [Classify(rawLines[0])] + ClassifyAll(rawLines[1..])
  }

  /** `text.replace(/\r\n/g, "\n").split("\n")` */
  function SourceLines(text: string): seq<string> {
    Split(NormalizeNewlines(text), '\n')
  }

  /** The value `formatSummaryHtml` returns; `None` stands for `null` and
      `undefined`, which, like the empty string, give the empty string. */
  function Render(text: Option<string>): string {
    if text.None? || text.value == "" then ""
    else Concat(Run(Initial, ClassifyAll(SourceLines(text.value)), Inline).htmlParts)
  }

  /** The local state of one call of `formatSummaryHtml`. */
  class SummaryBuilder {
    var htmlParts: seq<string>
    var inList: bool
    var listTag: string
    var paragraphBuffer: seq<string>

    function Snapshot(): State
      reads this
    {
      State(htmlParts, inList, listTag, paragraphBuffer)
    }

    constructor ()
      ensures Snapshot() == Initial
    {
      htmlParts := [];
      inList := false;
      listTag := "";
      paragraphBuffer := [];
    }

    method CloseList()
      modifies this
      ensures Snapshot() == ListClosed(old(Snapshot()))
    {
      if inList {
        htmlParts := htmlParts + [CloseTag(listTag)];
        inList := false;
        listTag := "";
      }
    }

    method FlushParagraph()
      modifies this
      ensures Snapshot() == ParagraphFlushed(old(Snapshot()), Inline)
    {
      if |paragraphBuffer| == 0 {
        return;
      }
      var combined := Trim(Join(paragraphBuffer, " "));
      if combined != [] {
        htmlParts := htmlParts + [ParagraphHtml(combined, Inline)];
      }
      paragraphBuffer := [];
    }

    /** The loop body for one raw line. */
    method AddLine(rawLine: string)
      modifies this
      ensures Snapshot() == LineHandled(old(Snapshot()), Classify(rawLine), Inline)
    {
      var line := Classify(rawLine);
      match line
      case Blank =>
        FlushParagraph();
        CloseList();
      case Heading(level, content) =>
        FlushParagraph();
        CloseList();
        htmlParts := htmlParts + [HeadingHtml(level, content, Inline)];
      case Rule =>
        FlushParagraph();
        CloseList();
        htmlParts := htmlParts + [RuleHtml];
      case Quote(content) =>
        FlushParagraph();
        CloseList();
        htmlParts := htmlParts + [QuoteHtml(content, Inline)];
      case Item(kind, content) =>
        FlushParagraph();
        if !inList || listTag != TagName(kind) {
          CloseList();
          htmlParts := htmlParts + [OpenTag(TagName(kind))];
          inList := true;
          listTag := TagName(kind);
        }
        htmlParts := htmlParts + [ItemHtml(content, Inline)];
      case Plain(content) =>
        CloseList();
        paragraphBuffer := paragraphBuffer + [content];
    }
  }

  /** `formatSummaryHtml` */
  method FormatSummaryHtml(text: Option<string>) returns (html: string)
    ensures html == Render(text)
  {
    if text.None? || text.value == "" {
      return "";
    }
    var lines := SourceLines(text.value);
    ghost var classified := ClassifyAll(lines);
    var builder := new SummaryBuilder();
    for i := 0 to |lines|
      invariant Run(builder.Snapshot(), ClassifyAll(lines[i..]), Inline) == Run(Initial, classified, Inline)
    {
      assert lines[i..][1..] == lines[i + 1..];
      builder.AddLine(lines[i]);
    }
    assert lines[..] == lines[0..];
    builder.FlushParagraph();
    builder.CloseList();
    html := Concat(builder.htmlParts);
  }
}
