/**
  What the block scanner of `formatSummaryHtml` computes, stated without its
  state: the lines are grouped into blocks, where a list is a maximal run of
  items of one kind and a paragraph is a maximal run of plain lines, and each
  block is written on its own. `ScanIsBlockwise` proves that the scan (the
  loop with `closeList` and `flushParagraph`) writes exactly that.
*/
module SummaryProperties {
  import opened Text
  import opened Wrappers
  import opened SummaryBlocks
  import opened SummaryRenderer

  datatype Block =
    | ListBlock(kind: ListKind, items: seq<string>)
    | ParagraphBlock(lines: seq<string>)
    | HeadingBlock(level: nat, text: string)
    | RuleBlock
    | QuoteBlock(text: string)

  predicate IsItemOf(l: Line, k: ListKind) {
    l.Item? && l.kind == k
  }

  /** The number of items of kind `k` that `ls` starts with. */
  function ItemRun(ls: seq<Line>, k: ListKind): (n: nat)
    ensures n <= |ls|
    ensures forall i | 0 <= i < n :: IsItemOf(ls[i], k)
    ensures n == |ls| || !IsItemOf(ls[n], k)
  {
    if |ls| > 0 && IsItemOf(ls[0], k) then 1 + ItemRun(ls[1..], k) else 0
  }

  /** The number of plain lines that `ls` starts with. */
  function PlainRun(ls: seq<Line>): (n: nat)
    ensures n <= |ls|
    ensures forall i | 0 <= i < n :: ls[i].Plain?
    ensures n == |ls| || !ls[n].Plain?
  {
    if |ls| > 0 && ls[0].Plain? then 1 + PlainRun(ls[1..]) else 0
  }

  function TextOf(l: Line): string {
    match l
    case Heading(_, c) => c
    case Quote(c) => c
    case Item(_, c) => c
    case Plain(c) => c
    case _ => ""
  }

  function Texts(ls: seq<Line>): (ts: seq<string>)
    ensures |ts| == |ls|
  {
    if |ls| == 0 then [] else [TextOf(ls[0])] + Texts(ls[1..])
  }

  /** The blocks that the lines make. */
  function Blocks(ls: seq<Line>): seq<Block>
    decreases |ls|
  {
    if |ls| == 0 then []
    else
      match ls[0]
      case Blank => Blocks(ls[1..])
      case Heading(level, c) => [HeadingBlock(level, c)] + Blocks(ls[1..])
      case Rule => [RuleBlock] + Blocks(ls[1..])
      case Quote(c) => [QuoteBlock(c)] + Blocks(ls[1..])
      case Item(k, _) =>
        var n := ItemRun(ls, k);
        [ListBlock(k, Texts(ls[..n]))] + Blocks(ls[n..])
      case Plain(_) =>
        var n := PlainRun(ls);
        [ParagraphBlock(Texts(ls[..n]))] + Blocks(ls[n..])
  }

  function ItemsHtml(items: seq<string>, fmt: Formatter): seq<string> {
    if |items| == 0 then [] else [ItemHtml(items[0], fmt)] + ItemsHtml(items[1..], fmt)
  }

  /** The parts one block writes: a list is opened, gets one `<li>` per item
      and is closed; the lines of a paragraph are joined with one space. */
  function BlockHtml(b: Block, fmt: Formatter): seq<string> {
    match b
    case ListBlock(k, items) => [OpenTag(TagName(k))] + ItemsHtml(items, fmt) + [CloseTag(TagName(k))]
    case ParagraphBlock(lines) => [ParagraphHtml(Join(lines, " "), fmt)]
    case HeadingBlock(level, text) => [HeadingHtml(level, text, fmt)]
    case RuleBlock => [RuleHtml]
    case QuoteBlock(text) => [QuoteHtml(text, fmt)]
  }

  function BlocksHtml(bs: seq<Block>, fmt: Formatter): seq<string> {
    if |bs| == 0 then [] else BlockHtml(bs[0], fmt) + BlocksHtml(bs[1..], fmt)
  }

  /** Plain lines carry trimmed, non-empty text, as `Classify` gives them. */
  predicate WellFormed(ls: seq<Line>) {
    forall i | 0 <= i < |ls| :: ls[i].Plain? ==> ls[i].content != [] && Trimmed(ls[i].content)
  }

  function KindOf(tag: string): ListKind {
    if tag == "ul" then Unordered else Ordered
  }

  /** The parts still to come from an open paragraph holding `buffer`: it
      takes the plain lines that follow, and the rest is written block by block. */
  function ParagraphPending(buffer: seq<string>, ls: seq<Line>, fmt: Formatter): seq<string> {
    var n := PlainRun(ls);
    [ParagraphHtml(Join(buffer + Texts(ls[..n]), " "), fmt)] + BlocksHtml(Blocks(ls[n..]), fmt)
  }

  /** The parts still to come from an open list of kind `k`: it takes the
      items of its kind that follow, is closed, and the rest is written block
      by block. */
  function ListPending(k: ListKind, ls: seq<Line>, fmt: Formatter): seq<string> {
    var n := ItemRun(ls, k);
    ItemsHtml(Texts(ls[..n]), fmt) + [CloseTag(TagName(k))] + BlocksHtml(Blocks(ls[n..]), fmt)
  }

  /** The parts still to come when the scan is in state `st` with `ls` left. */
  function Pending(st: State, ls: seq<Line>, fmt: Formatter): seq<string> {
    if |st.paragraphBuffer| > 0 then ParagraphPending(st.paragraphBuffer, ls, fmt)
    else if st.inList then ListPending(KindOf(st.listTag), ls, fmt)
    else BlocksHtml(Blocks(ls), fmt)
  }

  // ---------------------------------------------------------------------------
  // Small facts about the definitions
  // ---------------------------------------------------------------------------

  lemma BlocksHtmlCons(b: Block, bs: seq<Block>, fmt: Formatter)
    ensures BlocksHtml([b] + bs, fmt) == BlockHtml(b, fmt) + BlocksHtml(bs, fmt)
  {
    assert ([b] + bs)[1..] == bs;
  }

  lemma ItemsHtmlCons(c: string, cs: seq<string>, fmt: Formatter)
    ensures ItemsHtml([c] + cs, fmt) == [ItemHtml(c, fmt)] + ItemsHtml(cs, fmt)
  {
    assert ([c] + cs)[1..] == cs;
  }

  /** The first `n` lines, seen from the second line on. */
  lemma TextsOfRun(ls: seq<Line>, n: nat)
    requires 1 <= n <= |ls|
    ensures Texts(ls[..n]) == [TextOf(ls[0])] + Texts(ls[1..][..n - 1])
    ensures ls[n..] == ls[1..][n - 1..]
  {
    assert ls[..n][1..] == ls[1..][..n - 1];
  }

  lemma TextsEmpty(ls: seq<Line>)
    ensures Texts(ls[..0]) == []
    ensures ls[0..] == ls
  {
    assert ls[..0] == [];
  }

  /** Words that are non-empty and trimmed join, with single spaces, into a
      non-empty trimmed text, so `trim` leaves the joined paragraph as it is. */
  lemma {:induction false} JoinOfTrimmed(ws: seq<string>)
    requires |ws| > 0
    requires forall i | 0 <= i < |ws| :: ws[i] != [] && Trimmed(ws[i])
    ensures Join(ws, " ") != []
    ensures Join(ws, " ")[0] == ws[0][0]
    ensures Join(ws, " ")[|Join(ws, " ")| - 1] == ws[|ws| - 1][|ws[|ws| - 1]| - 1]
  {
    if |ws| > 1 {
      JoinOfTrimmed(ws[1..]);
      var rest := Join(ws[1..], " ");
      assert Join(ws, " ") == ws[0] + " " + rest;
    }
  }

  lemma TrimOfJoin(ws: seq<string>)
    requires |ws| > 0
    requires forall i | 0 <= i < |ws| :: ws[i] != [] && Trimmed(ws[i])
    ensures Trim(Join(ws, " ")) == Join(ws, " ")
  {
    JoinOfTrimmed(ws);
    var j := Join(ws, " ");
    assert Trimmed(ws[0]) && Trimmed(ws[|ws| - 1]);
    TrimOfTrimmed(j);
  }

  // ---------------------------------------------------------------------------
  // The scan keeps its invariant
  // ---------------------------------------------------------------------------

  lemma LineHandledValid(st: State, l: Line, fmt: Formatter)
    requires Valid(st)
    requires l.Plain? ==> l.content != [] && Trimmed(l.content)
    ensures Valid(LineHandled(st, l, fmt))
  {
  }

  // ---------------------------------------------------------------------------
  // How the pending parts unfold by one line
  // ---------------------------------------------------------------------------

  /** A heading, rule or quote line makes a block of its own. */
  function SimpleBlock(l: Line): Block
    requires l.Heading? || l.Rule? || l.Quote?
  {
    match l
    case Heading(level, c) => HeadingBlock(level, c)
    case Rule => RuleBlock
    case Quote(c) => QuoteBlock(c)
  }

  lemma BlocksSimple(ls: seq<Line>, fmt: Formatter)
    requires |ls| > 0 && (ls[0].Heading? || ls[0].Rule? || ls[0].Quote?)
    ensures BlocksHtml(Blocks(ls), fmt) == BlockHtml(SimpleBlock(ls[0]), fmt) + BlocksHtml(Blocks(ls[1..]), fmt)
  {
    assert Blocks(ls) == [SimpleBlock(ls[0])] + Blocks(ls[1..]);
    BlocksHtmlCons(SimpleBlock(ls[0]), Blocks(ls[1..]), fmt);
  }

  lemma BlocksOfItem(ls: seq<Line>)
    requires |ls| > 0 && ls[0].Item?
    ensures var n := ItemRun(ls, ls[0].kind);
            Blocks(ls) == [ListBlock(ls[0].kind, Texts(ls[..n]))] + Blocks(ls[n..])
  {
  }

  lemma Regrouped<T>(a: seq<T>, b: seq<T>, c: seq<T>, d: seq<T>)
    ensures a + b + c + d == a + (b + c + d)
  {
  }

  /** A list starts at an item. */
  lemma BlocksList(ls: seq<Line>, fmt: Formatter)
    requires |ls| > 0 && ls[0].Item?
    ensures BlocksHtml(Blocks(ls), fmt) == [OpenTag(TagName(ls[0].kind))] + ListPending(ls[0].kind, ls, fmt)
  {
    var k := ls[0].kind;
    var n := ItemRun(ls, k);
    var b := ListBlock(k, Texts(ls[..n]));
    BlocksOfItem(ls);
    var rest := Blocks(ls[n..]);
    BlocksHtmlCons(b, rest, fmt);
    var items, tail := ItemsHtml(Texts(ls[..n]), fmt), BlocksHtml(rest, fmt);
    assert BlockHtml(b, fmt) == [OpenTag(TagName(k))] + items + [CloseTag(TagName(k))];
    assert ListPending(k, ls, fmt) == items + [CloseTag(TagName(k))] + tail;
    Regrouped([OpenTag(TagName(k))], items, [CloseTag(TagName(k))], tail);
  }

  /** A paragraph starts at a plain line. */
  lemma BlocksParagraph(ls: seq<Line>, fmt: Formatter)
    requires |ls| > 0 && ls[0].Plain?
    ensures BlocksHtml(Blocks(ls), fmt) == ParagraphPending([], ls, fmt)
  {
    var n := PlainRun(ls);
    var b := ParagraphBlock(Texts(ls[..n]));
    assert Blocks(ls) == [b] + Blocks(ls[n..]);
    BlocksHtmlCons(b, Blocks(ls[n..]), fmt);
    assert [] + Texts(ls[..n]) == Texts(ls[..n]);
  }

  /** An item of the open list's kind joins it. */
  lemma ItemRunTail(k: ListKind, ls: seq<Line>, fmt: Formatter)
    requires |ls| > 0 && IsItemOf(ls[0], k)
    ensures ItemsHtml(Texts(ls[..ItemRun(ls, k)]), fmt)
         == [ItemHtml(ls[0].content, fmt)] + ItemsHtml(Texts(ls[1..][..ItemRun(ls[1..], k)]), fmt)
    ensures ls[ItemRun(ls, k)..] == ls[1..][ItemRun(ls[1..], k)..]
  {
    var n := ItemRun(ls, k);
    assert n == 1 + ItemRun(ls[1..], k);
    TextsOfRun(ls, n);
    ItemsHtmlCons(ls[0].content, Texts(ls[1..][..n - 1]), fmt);
  }

  lemma ListPendingItem(k: ListKind, ls: seq<Line>, fmt: Formatter)
    requires |ls| > 0 && IsItemOf(ls[0], k)
    ensures ListPending(k, ls, fmt) == [ItemHtml(ls[0].content, fmt)] + ListPending(k, ls[1..], fmt)
  {
    ItemRunTail(k, ls, fmt);
  }

  lemma EmptyItemRun(k: ListKind, ls: seq<Line>, fmt: Formatter)
    ensures ItemsHtml(Texts(ls[..0]), fmt) + [CloseTag(TagName(k))] + BlocksHtml(Blocks(ls[0..]), fmt)
         == [CloseTag(TagName(k))] + BlocksHtml(Blocks(ls), fmt)
  {
    TextsEmpty(ls);
  }

  lemma ListPendingOther(k: ListKind, ls: seq<Line>, fmt: Formatter)
    requires |ls| == 0 || !IsItemOf(ls[0], k)
    ensures ListPending(k, ls, fmt) == [CloseTag(TagName(k))] + BlocksHtml(Blocks(ls), fmt)
  {
    assert ItemRun(ls, k) == 0;
    EmptyItemRun(k, ls, fmt);
  }

  /** A plain line joins the open paragraph. */
  lemma PlainRunTail(buffer: seq<string>, ls: seq<Line>)
    requires |ls| > 0 && ls[0].Plain?
    ensures buffer + Texts(ls[..PlainRun(ls)]) == (buffer + [ls[0].content]) + Texts(ls[1..][..PlainRun(ls[1..])])
    ensures ls[PlainRun(ls)..] == ls[1..][PlainRun(ls[1..])..]
  {
    var n := PlainRun(ls);
    assert n == 1 + PlainRun(ls[1..]);
    TextsOfRun(ls, n);
    ConcatAssoc(buffer, [ls[0].content], Texts(ls[1..][..n - 1]));
  }

  lemma ParagraphPendingPlain(buffer: seq<string>, ls: seq<Line>, fmt: Formatter)
    requires |ls| > 0 && ls[0].Plain?
    ensures ParagraphPending(buffer, ls, fmt) == ParagraphPending(buffer + [ls[0].content], ls[1..], fmt)
  {
    PlainRunTail(buffer, ls);
  }

  lemma EmptyPlainRun(buffer: seq<string>, ls: seq<Line>, fmt: Formatter)
    ensures [ParagraphHtml(Join(buffer + Texts(ls[..0]), " "), fmt)] + BlocksHtml(Blocks(ls[0..]), fmt)
         == [ParagraphHtml(Join(buffer, " "), fmt)] + BlocksHtml(Blocks(ls), fmt)
  {
    TextsEmpty(ls);
    assert buffer + [] == buffer;
  }

  lemma ParagraphPendingOther(buffer: seq<string>, ls: seq<Line>, fmt: Formatter)
    requires |ls| == 0 || !ls[0].Plain?
    ensures ParagraphPending(buffer, ls, fmt) == [ParagraphHtml(Join(buffer, " "), fmt)] + BlocksHtml(Blocks(ls), fmt)
  {
    assert PlainRun(ls) == 0;
    EmptyPlainRun(buffer, ls, fmt);
  }

  // ---------------------------------------------------------------------------
  // One step of the scan does not change what is written in total
  // ---------------------------------------------------------------------------

  /** What one step adds to the parts, plus what is then pending, is what was
      pending before it. */
  predicate StepKeepsTotal(st: State, ls: seq<Line>, fmt: Formatter)
    requires |ls| > 0
  {
    LineHandled(st, ls[0], fmt).htmlParts + Pending(LineHandled(st, ls[0], fmt), ls[1..], fmt)
      == st.htmlParts + Pending(st, ls, fmt)
  }

  lemma StepOutsideSimple(st: State, ls: seq<Line>, fmt: Formatter)
    requires |st.paragraphBuffer| == 0 && !st.inList
    requires |ls| > 0 && (ls[0].Heading? || ls[0].Rule? || ls[0].Quote?)
    ensures StepKeepsTotal(st, ls, fmt)
  {
    var html := BlockHtml(SimpleBlock(ls[0]), fmt);
    assert ParagraphFlushed(st, fmt) == st && ListClosed(st) == st;
    assert LineHandled(st, ls[0], fmt) == st.(htmlParts := st.htmlParts + html);
    BlocksSimple(ls, fmt);
    ConcatAssoc(st.htmlParts, html, BlocksHtml(Blocks(ls[1..]), fmt));
  }

  lemma StepOutsideItem(st: State, ls: seq<Line>, fmt: Formatter)
    requires |st.paragraphBuffer| == 0 && !st.inList
    requires |ls| > 0 && ls[0].Item?
    ensures StepKeepsTotal(st, ls, fmt)
  {
    var k := ls[0].kind;
    var added := [OpenTag(TagName(k)), ItemHtml(ls[0].content, fmt)];
    assert LineHandled(st, ls[0], fmt) == State(st.htmlParts + added, true, TagName(k), []);
    assert KindOf(TagName(k)) == k;
    BlocksList(ls, fmt);
    ListPendingItem(k, ls, fmt);
    ConcatAssoc(st.htmlParts, added, ListPending(k, ls[1..], fmt));
  }

  lemma StepOutsidePlain(st: State, ls: seq<Line>, fmt: Formatter)
    requires |st.paragraphBuffer| == 0 && !st.inList
    requires |ls| > 0 && ls[0].Plain?
    ensures StepKeepsTotal(st, ls, fmt)
  {
    assert LineHandled(st, ls[0], fmt) == st.(paragraphBuffer := [ls[0].content]);
    BlocksParagraph(ls, fmt);
    ParagraphPendingPlain([], ls, fmt);
  }

  /** With nothing open, one line. */
  lemma StepOutside(st: State, ls: seq<Line>, fmt: Formatter)
    requires |st.paragraphBuffer| == 0 && !st.inList
    requires |ls| > 0
    ensures StepKeepsTotal(st, ls, fmt)
  {
    match ls[0]
    case Blank =>
      assert LineHandled(st, ls[0], fmt) == st;
    case Item(_, _) => StepOutsideItem(st, ls, fmt);
    case Plain(_) => StepOutsidePlain(st, ls, fmt);
    case _ => StepOutsideSimple(st, ls, fmt);
  }

  /** Inside an open list, a line that is not an item of its kind: the scan
      goes on as if the list had been closed first. */
  lemma ListEndsBefore(st: State, ls: seq<Line>, fmt: Formatter)
    requires Valid(st) && st.inList
    requires |ls| > 0 && !IsItemOf(ls[0], KindOf(st.listTag))
    ensures LineHandled(st, ls[0], fmt) == LineHandled(ListClosed(st), ls[0], fmt)
    ensures st.htmlParts + Pending(st, ls, fmt) == ListClosed(st).htmlParts + Pending(ListClosed(st), ls, fmt)
  {
    assert TagName(KindOf(st.listTag)) == st.listTag;
    assert ParagraphFlushed(st, fmt) == st;
    var closed := ListClosed(st);
    assert ParagraphFlushed(closed, fmt) == closed && ListClosed(closed) == closed;
    ClosedPending(st, ls, fmt);
  }

  lemma ClosedPending(st: State, ls: seq<Line>, fmt: Formatter)
    requires Valid(st) && st.inList
    requires |ls| == 0 || !IsItemOf(ls[0], KindOf(st.listTag))
    ensures st.htmlParts + Pending(st, ls, fmt) == ListClosed(st).htmlParts + Pending(ListClosed(st), ls, fmt)
  {
    var close := CloseTag(st.listTag);
    assert TagName(KindOf(st.listTag)) == st.listTag;
    assert ListClosed(st) == State(st.htmlParts + [close], false, "", []);
    ListPendingOther(KindOf(st.listTag), ls, fmt);
    ConcatAssoc(st.htmlParts, [close], BlocksHtml(Blocks(ls), fmt));
  }

  /** Inside an open list, an item of its kind. */
  lemma StepInListItem(st: State, ls: seq<Line>, fmt: Formatter)
    requires Valid(st) && st.inList
    requires |ls| > 0 && IsItemOf(ls[0], KindOf(st.listTag))
    ensures StepKeepsTotal(st, ls, fmt)
  {
    var k := KindOf(st.listTag);
    assert TagName(k) == st.listTag;
    assert LineHandled(st, ls[0], fmt) == st.(htmlParts := st.htmlParts + [ItemHtml(ls[0].content, fmt)]);
    ListPendingItem(k, ls, fmt);
  }

  /** Inside an open list, one line. */
  lemma StepInList(st: State, ls: seq<Line>, fmt: Formatter)
    requires Valid(st) && st.inList
    requires |ls| > 0
    ensures StepKeepsTotal(st, ls, fmt)
  {
    if IsItemOf(ls[0], KindOf(st.listTag)) {
      StepInListItem(st, ls, fmt);
    } else {
      ListEndsBefore(st, ls, fmt);
      StepOutside(ListClosed(st), ls, fmt);
    }
  }

  /** With a paragraph open, a line that is not plain: the scan goes on as if
      the paragraph had been flushed first. */
  lemma ParagraphEndsBefore(st: State, ls: seq<Line>, fmt: Formatter)
    requires Valid(st) && |st.paragraphBuffer| > 0
    requires |ls| > 0 && !ls[0].Plain?
    ensures LineHandled(st, ls[0], fmt) == LineHandled(ParagraphFlushed(st, fmt), ls[0], fmt)
    ensures st.htmlParts + Pending(st, ls, fmt) == ParagraphFlushed(st, fmt).htmlParts + Pending(ParagraphFlushed(st, fmt), ls, fmt)
  {
    var flushed := ParagraphFlushed(st, fmt);
    assert ParagraphFlushed(flushed, fmt) == flushed;
    FlushedPending(st, ls, fmt);
  }

  lemma FlushedPending(st: State, ls: seq<Line>, fmt: Formatter)
    requires Valid(st) && |st.paragraphBuffer| > 0
    requires |ls| == 0 || !ls[0].Plain?
    ensures st.htmlParts + Pending(st, ls, fmt) == ParagraphFlushed(st, fmt).htmlParts + Pending(ParagraphFlushed(st, fmt), ls, fmt)
  {
    var para := ParagraphHtml(Join(st.paragraphBuffer, " "), fmt);
    TrimOfJoin(st.paragraphBuffer);
    assert ParagraphFlushed(st, fmt) == st.(htmlParts := st.htmlParts + [para], paragraphBuffer := []);
    ParagraphPendingOther(st.paragraphBuffer, ls, fmt);
    ConcatAssoc(st.htmlParts, [para], BlocksHtml(Blocks(ls), fmt));
  }

  /** With a paragraph open, one line. */
  lemma StepInParagraph(st: State, ls: seq<Line>, fmt: Formatter)
    requires Valid(st) && |st.paragraphBuffer| > 0
    requires |ls| > 0
    ensures StepKeepsTotal(st, ls, fmt)
  {
    if ls[0].Plain? {
      assert LineHandled(st, ls[0], fmt) == st.(paragraphBuffer := st.paragraphBuffer + [ls[0].content]);
      ParagraphPendingPlain(st.paragraphBuffer, ls, fmt);
    } else {
      ParagraphEndsBefore(st, ls, fmt);
      StepOutside(ParagraphFlushed(st, fmt), ls, fmt);
    }
  }

  /** After the last line, the two final calls write what was pending. */
  lemma FinishedWritesPending(st: State, fmt: Formatter)
    requires Valid(st)
    ensures Finished(st, fmt).htmlParts == st.htmlParts + Pending(st, [], fmt)
  {
    if |st.paragraphBuffer| > 0 {
      FlushedPending(st, [], fmt);
    } else if st.inList {
      ClosedPending(st, [], fmt);
    }
  }

  /** The scan from any valid state writes what it has written, then the
      pending parts. */
  lemma {:induction false} RunWritesPending(st: State, ls: seq<Line>, fmt: Formatter)
    requires Valid(st) && WellFormed(ls)
    ensures Run(st, ls, fmt).htmlParts == st.htmlParts + Pending(st, ls, fmt)
    decreases |ls|
  {
    if |ls| == 0 {
      FinishedWritesPending(st, fmt);
    } else {
      var next := LineHandled(st, ls[0], fmt);
      LineHandledValid(st, ls[0], fmt);
      assert WellFormed(ls[1..]);
      RunWritesPending(next, ls[1..], fmt);
      if |st.paragraphBuffer| > 0 {
        StepInParagraph(st, ls, fmt);
      } else if st.inList {
        StepInList(st, ls, fmt);
      } else {
        StepOutside(st, ls, fmt);
      }
    }
  }

  /** The scan writes the blocks of the lines, one after the other. */
  lemma ScanIsBlockwise(ls: seq<Line>, fmt: Formatter)
    requires WellFormed(ls)
    ensures Run(Initial, ls, fmt).htmlParts == BlocksHtml(Blocks(ls), fmt)
  {
    RunWritesPending(Initial, ls, fmt);
  }

  lemma ClassifiedLinesWellFormed(rawLines: seq<string>)
    ensures WellFormed(ClassifyAll(rawLines))
  {
    var ls := ClassifyAll(rawLines);
    forall i | 0 <= i < |ls| && ls[i].Plain?
      ensures ls[i].content != [] && Trimmed(ls[i].content)
    {
      assert ls[i] == Classify(rawLines[i]);
    }
  }

  /** `formatSummaryHtml` joins the parts of the blocks its lines make. */
  lemma RenderIsBlockwise(text: string)
    requires text != ""
    ensures Render(Some(text)) == Concat(BlocksHtml(Blocks(ClassifyAll(SourceLines(text))), Inline))
  {
    ClassifiedLinesWellFormed(SourceLines(text));
    ScanIsBlockwise(ClassifyAll(SourceLines(text)), Inline);
  }

  /** After the last line no list is left open. */
  lemma ScanClosesLists(st: State, ls: seq<Line>, fmt: Formatter)
    ensures !Run(st, ls, fmt).inList && Run(st, ls, fmt).paragraphBuffer == []
    decreases |ls|
  {
    if |ls| > 0 {
      ScanClosesLists(LineHandled(st, ls[0], fmt), ls[1..], fmt);
    }
  }

  // ---------------------------------------------------------------------------
  // A blank summary renders to nothing, and only a blank one
  // ---------------------------------------------------------------------------

  /** Blank lines make no block, and every other line belongs to one. */
  lemma {:induction false} BlocksEmpty(ls: seq<Line>)
    ensures Blocks(ls) == [] <==> forall i | 0 <= i < |ls| :: ls[i].Blank?
    decreases |ls|
  {
    if |ls| > 0 {
      if ls[0].Blank? {
        BlocksEmpty(ls[1..]);
        assert forall i | 1 <= i < |ls| :: ls[i] == ls[1..][i - 1];
      } else {
        assert |Blocks(ls)| >= 1;
      }
    }
  }

  lemma BlocksHtmlStarts(bs: seq<Block>, fmt: Formatter)
    requires |bs| > 0
    ensures |BlocksHtml(bs, fmt)| > 0 && BlocksHtml(bs, fmt)[0] != ""
  {
    var first := BlockHtml(bs[0], fmt);
    assert |first| > 0 && first[0] != "";
    assert BlocksHtml(bs, fmt)[0] == first[0];
  }

  lemma ConcatStarts(parts: seq<string>)
    requires |parts| > 0 && parts[0] != ""
    ensures Concat(parts) != ""
  {
    assert |Concat(parts)| >= |parts[0]|;
  }

  /** A summary is blank exactly when each of its lines is. */
  lemma BlankLines(text: string)
    ensures AllSpace(text) <==> forall i | 0 <= i < |SourceLines(text)| :: AllSpace(SourceLines(text)[i])
  {
    AllSpaceNormalizeNewlines(text);
    assert AllSpace("\n");
    AllSpaceJoin(SourceLines(text), "\n");
  }

  lemma BlankClassified(lines: seq<string>)
    ensures (forall i | 0 <= i < |lines| :: AllSpace(lines[i]))
        <==> forall i | 0 <= i < |ClassifyAll(lines)| :: ClassifyAll(lines)[i].Blank?
  {
    if forall i | 0 <= i < |lines| :: AllSpace(lines[i]) {
      AllBlank(lines);
    } else {
      NotAllBlank(lines);
    }
  }

  lemma AllBlank(lines: seq<string>)
    requires forall i | 0 <= i < |lines| :: AllSpace(lines[i])
    ensures forall i | 0 <= i < |ClassifyAll(lines)| :: ClassifyAll(lines)[i].Blank?
  {
    var ls := ClassifyAll(lines);
    forall i | 0 <= i < |ls| ensures ls[i].Blank? {
      assert ls[i] == Classify(lines[i]);
    }
  }

  lemma NotAllBlank(lines: seq<string>)
    requires !forall i | 0 <= i < |lines| :: AllSpace(lines[i])
    ensures !forall i | 0 <= i < |ClassifyAll(lines)| :: ClassifyAll(lines)[i].Blank?
  {
    var ls := ClassifyAll(lines);
    var i :| 0 <= i < |lines| && !AllSpace(lines[i]);
    assert ls[i] == Classify(lines[i]);
    assert !ls[i].Blank?;
  }

  /** `formatSummaryHtml` returns the empty string exactly when the summary is
      empty or all whitespace. */
  lemma RenderEmptyIffBlank(text: string)
    ensures Render(Some(text)) == "" <==> AllSpace(text)
  {
    if text != "" {
      var ls := ClassifyAll(SourceLines(text));
      RenderIsBlockwise(text);
      BlankLines(text);
      BlankClassified(SourceLines(text));
      BlocksEmpty(ls);
      if Blocks(ls) != [] {
        BlocksHtmlStarts(Blocks(ls), Inline);
        ConcatStarts(BlocksHtml(Blocks(ls), Inline));
      }
    }
  }

  // ---------------------------------------------------------------------------
  // Lists are opened and closed in pairs
  // ---------------------------------------------------------------------------

  /** What one part is to the list structure. */
  datatype PartRole = Opens(tag: string) | Closes(tag: string) | ListItem | Outside

  function Role(p: string): PartRole {
    if p == "<ul>" || p == "<ol>" then Opens(p[1..3])
    else if p == "</ul>" || p == "</ol>" then Closes(p[2..4])
    else if StartsWith(p, "<li>") then ListItem
    else Outside
  }

  /** Reading the parts left to right, with `open` the list still open (`""`
      for none): a list opens only where none is open, items stand only inside
      a list, a list is closed by its own tag, nothing else stands inside a
      list, and no list is left open at the end. */
  predicate ListsNestFrom(parts: seq<string>, open: string)
    decreases |parts|
  {
    if |parts| == 0 then open == ""
    else
      match Role(parts[0])
      case Opens(t) => open == "" && ListsNestFrom(parts[1..], t)
      case Closes(t) => open == t && ListsNestFrom(parts[1..], "")
      case ListItem => open != "" && ListsNestFrom(parts[1..], open)
      case Outside => open == "" && ListsNestFrom(parts[1..], open)
  }

  lemma NestCons(p: string, rest: seq<string>, open: string)
    ensures ListsNestFrom([p] + rest, open) == match Role(p)
      case Opens(t) => open == "" && ListsNestFrom(rest, t)
      case Closes(t) => open == t && ListsNestFrom(rest, "")
      case ListItem => open != "" && ListsNestFrom(rest, open)
      case Outside => open == "" && ListsNestFrom(rest, open)
  {
    assert ([p] + rest)[0] == p && ([p] + rest)[1..] == rest;
  }

  lemma RoleOfOpenTag(k: ListKind)
    ensures Role(OpenTag(TagName(k))) == Opens(TagName(k))
  {
  }

  lemma RoleOfCloseTag(k: ListKind)
    ensures Role(CloseTag(TagName(k))) == Closes(TagName(k))
  {
  }

  lemma RoleOfItem(text: string, fmt: Formatter)
    ensures Role(ItemHtml(text, fmt)) == ListItem
  {
    var p := ItemHtml(text, fmt);
    assert |p| >= 9;
    assert p[..4] == "<li>";
  }

  /** A part that is longer than a list tag and whose second character is not `l`. */
  lemma RoleOfOther(p: string)
    requires |p| > 5 && p[1] != 'l'
    ensures Role(p) == Outside
  {
  }

  lemma {:induction false} ItemsNest(items: seq<string>, t: string, rest: seq<string>, fmt: Formatter)
    requires t != "" && ListsNestFrom(rest, t)
    ensures ListsNestFrom(ItemsHtml(items, fmt) + rest, t)
    decreases |items|
  {
    if |items| > 0 {
      ItemsNest(items[1..], t, rest, fmt);
      RoleOfItem(items[0], fmt);
      NestCons(ItemHtml(items[0], fmt), ItemsHtml(items[1..], fmt) + rest, t);
      ConcatAssoc([ItemHtml(items[0], fmt)], ItemsHtml(items[1..], fmt), rest);
    } else {
      assert ItemsHtml(items, fmt) + rest == rest;
    }
  }

  lemma ListBlockNests(k: ListKind, items: seq<string>, rest: seq<string>, fmt: Formatter)
    requires ListsNestFrom(rest, "")
    ensures ListsNestFrom(BlockHtml(ListBlock(k, items), fmt) + rest, "")
  {
    var t := TagName(k);
    var body := ItemsHtml(items, fmt);
    RoleOfCloseTag(k);
    NestCons(CloseTag(t), rest, t);
    ItemsNest(items, t, [CloseTag(t)] + rest, fmt);
    RoleOfOpenTag(k);
    NestCons(OpenTag(t), body + ([CloseTag(t)] + rest), "");
    assert BlockHtml(ListBlock(k, items), fmt) + rest == [OpenTag(t)] + (body + ([CloseTag(t)] + rest));
  }

  lemma OtherBlockNests(b: Block, rest: seq<string>, fmt: Formatter)
    requires !b.ListBlock? && ListsNestFrom(rest, "")
    ensures ListsNestFrom(BlockHtml(b, fmt) + rest, "")
  {
    var p := BlockHtml(b, fmt)[0];
    assert BlockHtml(b, fmt) == [p];
    assert |p| > 5 && p[1] != 'l';
    RoleOfOther(p);
    NestCons(p, rest, "");
  }

  lemma {:induction false} BlocksNest(bs: seq<Block>, fmt: Formatter)
    ensures ListsNestFrom(BlocksHtml(bs, fmt), "")
  {
    if |bs| > 0 {
      BlocksNest(bs[1..], fmt);
      if bs[0].ListBlock? {
        ListBlockNests(bs[0].kind, bs[0].items, BlocksHtml(bs[1..], fmt), fmt);
      } else {
        OtherBlockNests(bs[0], BlocksHtml(bs[1..], fmt), fmt);
      }
    }
  }

  /** The parts that `formatSummaryHtml` joins open and close their lists in
      pairs, with only items in between: `closeList` runs before every block
      that is not an item of the open list and once more at the end. */
  lemma RenderListsNest(text: string)
    requires text != ""
    ensures ListsNestFrom(Run(Initial, ClassifyAll(SourceLines(text)), Inline).htmlParts, "")
  {
    ClassifiedLinesWellFormed(SourceLines(text));
    ScanIsBlockwise(ClassifyAll(SourceLines(text)), Inline);
    BlocksNest(Blocks(ClassifyAll(SourceLines(text))), Inline);
  }
}
