/**
  How background.js turns the generated reply into compose content:
  `textToHtml` (background.js:53-64), the markup of the string fallback;
  `createReplySpan` (background.js:66-79), the DOM nodes of the normal HTML
  path; and the plain-text splice (background.js:192-196).
*/
module ReplyText {
  import opened Text
  import opened Wrappers
  import HtmlEscape

  /** `(text || "").replace(/\r\n/g, "\n")` followed by the removal of leading
      and trailing whitespace. `textToHtml` removes it with the global pattern
      `^\s+|\s+$`, which matches the leading run and then the trailing run, and
      `createReplySpan` with `trim()`; both leave `Trim` of the text. */
  function Cleaned(text: Option<string>): string {
    Trim(NormalizeNewlines(text.GetOr("")))
  }

  const SpanOpen: string := "<span data-ai-reply-text style=\"display:block;margin:0;padding:0;\">"
  const SpanClose: string := "</span>"

  /** The escaped text with each `\n` written as `<br>`. */
  function ReplyBody(cleaned: string): string {
    HtmlEscape.ReplaceChar(HtmlEscape.EscapeHtml(cleaned), '\n', "<br>")
  }

  /** `textToHtml` */
  function TextToHtml(text: Option<string>): string {
    SpanOpen + ReplyBody(Cleaned(text)) + SpanClose
  }

  function EscapeAll(lines: seq<string>): (r: seq<string>)
    ensures |r| == |lines|
    ensures forall i | 0 <= i < |r| :: r[i] == HtmlEscape.EscapeHtml(lines[i])
  {
    if |lines| == 0 then [] else [HtmlEscape.EscapeHtml(lines[0])] + EscapeAll(lines[1..])
  }

  /** Reads `<br>` back as `\n`. */
  function BrToNewline(s: string): string
    decreases |s|
  {
    if |s| == 0 then ""
    else if StartsWith(s, "<br>") then "\n" + BrToNewline(s[4..])
    else [s[0]] + BrToNewline(s[1..])
  }

  /** Reads a reply span back as the text it shows, if `html` is one. */
  function ReadReplyHtml(html: string): Option<string> {
    if |html| >= |SpanOpen| + |SpanClose| && StartsWith(html, SpanOpen)
       && html[|html| - |SpanClose|..] == SpanClose
    then Some(HtmlEscape.Unescape(BrToNewline(html[|SpanOpen|..|html| - |SpanClose|])))
    else None
  }

  // ---------------------------------------------------------------------------
  // textToHtml
  // ---------------------------------------------------------------------------

  lemma {:induction false} ReplaceCharOfJoin(parts: seq<string>, c: char, rep: string)
    requires forall i | 0 <= i < |parts| :: c !in parts[i]
    ensures HtmlEscape.ReplaceChar(Join(parts, [c]), c, rep) == Join(parts, rep)
  {
    if |parts| == 1 {
      HtmlEscape.ReplaceCharAbsent(parts[0], c, rep);
    } else if |parts| > 1 {
      ReplaceCharOfJoin(parts[1..], c, rep);
      HtmlEscape.ReplaceCharConcat(parts[0] + [c], Join(parts[1..], [c]), c, rep);
      HtmlEscape.ReplaceCharConcat(parts[0], [c], c, rep);
      HtmlEscape.ReplaceCharAbsent(parts[0], c, rep);
      HtmlEscape.ReplaceCharOne(c, c, rep);
    }
  }

  lemma {:induction false} EscapeOfJoin(parts: seq<string>)
    ensures HtmlEscape.EscapeHtml(Join(parts, "\n")) == Join(EscapeAll(parts), "\n")
  {
    if |parts| > 1 {
      EscapeOfJoin(parts[1..]);
      assert EscapeAll(parts)[1..] == EscapeAll(parts[1..]);
      HtmlEscape.EscapeHtmlConcat(parts[0] + "\n", Join(parts[1..], "\n"));
      HtmlEscape.EscapeHtmlConcat(parts[0], "\n");
      HtmlEscape.EscapeHtmlOneChar('\n');
    }
  }

  lemma EscapeKeepsNewlinesOut(s: string)
    requires '\n' !in s
    ensures '\n' !in HtmlEscape.EscapeHtml(s)
  {
    HtmlEscape.EscapeHtmlIsCharwise(s);
    EscapeEachKeepsOut(s, '\n');
  }

  lemma {:induction false} EscapeEachKeepsOut(s: string, c: char)
    requires c !in s && c != '&' && c != ';' && !('a' <= c <= 'z')
    ensures c !in HtmlEscape.EscapeEach(s)
  {
    if |s| > 0 {
      EscapeEachKeepsOut(s[1..], c);
      assert c !in HtmlEscape.EscapeChar(s[0]);
    }
  }

  /** The reply markup is the wrapper span around the lines of the cleaned
      text, each escaped, with `<br>` between them; so the only markup in it is
      the span and the `<br>`s. */
  lemma TextToHtmlLines(text: Option<string>)
    ensures TextToHtml(text) == SpanOpen + Join(EscapeAll(Split(Cleaned(text), '\n')), "<br>") + SpanClose
    ensures forall i | 0 <= i < |Split(Cleaned(text), '\n')| ::
              HtmlEscape.Escaped(EscapeAll(Split(Cleaned(text), '\n'))[i])
              && '\n' !in EscapeAll(Split(Cleaned(text), '\n'))[i]
  {
    var lines := Split(Cleaned(text), '\n');
    var escaped := EscapeAll(lines);
    EscapeOfJoin(lines);
    forall i | 0 <= i < |escaped|
      ensures HtmlEscape.Escaped(escaped[i]) && '\n' !in escaped[i]
    {
      HtmlEscape.EscapeHtmlEscapes(lines[i]);
      EscapeKeepsNewlinesOut(lines[i]);
    }
    ReplaceCharOfJoin(escaped, '\n', "<br>");
  }

  lemma {:induction false} BrToNewlineOfReplaced(e: string)
    requires '<' !in e
    ensures BrToNewline(HtmlEscape.ReplaceChar(e, '\n', "<br>")) == e
  {
    if |e| > 0 {
      var rest := HtmlEscape.ReplaceChar(e[1..], '\n', "<br>");
      BrToNewlineOfReplaced(e[1..]);
      if e[0] == '\n' {
        assert ("<br>" + rest)[4..] == rest;
      } else {
        assert ([e[0]] + rest)[1..] == rest;
      }
    }
  }

  /** Reading the reply markup back gives the cleaned text: escaping and the
      `<br>`s lose nothing. */
  lemma TextToHtmlRoundTrip(text: Option<string>)
    ensures ReadReplyHtml(TextToHtml(text)) == Some(Cleaned(text))
  {
    var cleaned := Cleaned(text);
    var html := TextToHtml(text);
    var body := ReplyBody(cleaned);
    HtmlEscape.EscapeHtmlEscapes(cleaned);
    var e := HtmlEscape.EscapeHtml(cleaned);
    assert '<' !in e;
    BrToNewlineOfReplaced(e);
    HtmlEscape.UnescapeEscapeHtml(cleaned);
    assert html[|SpanOpen|..|html| - |SpanClose|] == body;
    assert html[|html| - |SpanClose|..] == SpanClose;
  }

  // ---------------------------------------------------------------------------
  // createReplySpan
  // ---------------------------------------------------------------------------

  /** A child of the reply span: a text node or a `<br>` element. */
  datatype ReplyNode = TextNode(text: string) | BrNode

  /** One text node per line, with a `<br>` between consecutive lines. */
  function Interleaved(lines: seq<string>): seq<ReplyNode>
    decreases |lines|
  {
    if |lines| == 0 then []
    else if |lines| == 1 then [TextNode(lines[0])]
    else [TextNode(lines[0]), BrNode] + Interleaved(lines[1..])
  }

  /** The lines the text nodes hold, in order. */
  function NodeTexts(nodes: seq<ReplyNode>): seq<string> {
    if |nodes| == 0 then []
    else if nodes[0].TextNode? then [nodes[0].text] + NodeTexts(nodes[1..])
    else NodeTexts(nodes[1..])
  }

  /** `k` lines give `2k - 1` children: the lines at even positions, `<br>` at
      odd ones. */
  lemma {:induction false} InterleavedShape(lines: seq<string>)
    requires |lines| > 0
    ensures |Interleaved(lines)| == 2 * |lines| - 1
    ensures forall i | 0 <= i < |lines| :: Interleaved(lines)[2 * i] == TextNode(lines[i])
    ensures forall i | 0 <= i < |lines| - 1 :: Interleaved(lines)[2 * i + 1] == BrNode
    decreases |lines|
  {
    if |lines| > 1 {
      InterleavedShape(lines[1..]);
      var r := Interleaved(lines);
      var t := Interleaved(lines[1..]);
      assert r == [TextNode(lines[0]), BrNode] + t;
      forall i | 1 <= i < |lines| ensures r[2 * i] == TextNode(lines[i]) {
        assert r[2 * i] == t[2 * (i - 1)];
      }
      forall i | 1 <= i < |lines| - 1 ensures r[2 * i + 1] == BrNode {
        assert r[2 * i + 1] == t[2 * (i - 1) + 1];
      }
    }
  }

  /** The text nodes hold exactly the lines. */
  lemma {:induction false} InterleavedTexts(lines: seq<string>)
    ensures NodeTexts(Interleaved(lines)) == lines
    decreases |lines|
  {
    if |lines| > 1 {
      InterleavedTexts(lines[1..]);
      var t := Interleaved(lines[1..]);
      assert ([TextNode(lines[0]), BrNode] + t)[1..] == [BrNode] + t;
      assert ([BrNode] + t)[1..] == t;
    }
  }

  /** The element `createReplySpan` builds; the attribute and the three style
      properties it sets are constants, the children are what it appends. */
  class ReplySpan {
    var children: seq<ReplyNode>

    constructor ()
      ensures children == []
    {
      children := [];
    }

    method AppendChild(node: ReplyNode)
      modifies this
      ensures children == old(children) + [node]
    {
      children := children + [node];
    }
  }

  /** The lines of the reply: `cleaned.split("\n")`. */
  function ReplyLines(text: Option<string>): (lines: seq<string>)
    ensures |lines| >= 1
    ensures forall i | 0 <= i < |lines| :: '\n' !in lines[i]
    ensures Join(lines, "\n") == Cleaned(text)
  {
    Split(Cleaned(text), '\n')
  }

  lemma InterleavedStep(lines: seq<string>, idx: nat)
    requires idx < |lines|
    ensures Interleaved(lines[..idx + 1])
         == Interleaved(lines[..idx]) + (if idx == 0 then [] else [BrNode]) + [TextNode(lines[idx])]
    decreases idx
  {
    if idx > 0 {
      var tail := lines[1..];
      InterleavedStep(tail, idx - 1);
      assert lines[..idx + 1][1..] == tail[..idx];
      assert lines[..idx][1..] == tail[..idx - 1];
      if idx == 1 {
        assert Interleaved(lines[..1]) == [TextNode(lines[0])];
      }
    }
  }

  /** `createReplySpan`: one text node per line, and a `<br>` after every line
      but the last. */
  method CreateReplySpan(text: Option<string>) returns (span: ReplySpan)
    ensures fresh(span)
    ensures span.children == Interleaved(ReplyLines(text))
  {
    span := new ReplySpan();
    var parts := ReplyLines(text);
    for idx := 0 to |parts|
      invariant span.children == (if idx == 0 then [] else Interleaved(parts[..idx]) + (if idx < |parts| then [BrNode] else []))
    {
      InterleavedStep(parts, idx);
      span.AppendChild(TextNode(parts[idx]));
      if idx < |parts| - 1 {
        span.AppendChild(BrNode);
      }
    }
    assert parts[..|parts|] == parts;
  }

  /** The DOM path and the string fallback show the same lines: the fallback's
      markup is the text of the span's text nodes, escaped and joined by `<br>`. */
  lemma SpanAgreesWithFallback(text: Option<string>)
    ensures TextToHtml(text) == SpanOpen + Join(EscapeAll(NodeTexts(Interleaved(ReplyLines(text)))), "<br>") + SpanClose
  {
    InterleavedTexts(ReplyLines(text));
    TextToHtmlLines(text);
  }

  // ---------------------------------------------------------------------------
  // The plain-text splice
  // ---------------------------------------------------------------------------

  /** The new plain-text body: the reply without trailing (`/[\s\n]+$/`) and
      leading (`/^\s+/`) whitespace, a newline, and the original body without
      its leading whitespace. */
  function PlainSplice(reply: string, original: Option<string>): string {
    TrimStart(TrimEnd(reply)) + "\n" + TrimStart(original.GetOr(""))
  }

  /** The new body is the trimmed reply, one newline, and the original body
      from its first non-whitespace character on: only leading whitespace of
      the original is dropped. */
  lemma PlainSpliceParts(reply: string, original: string)
    ensures exists ws: string, rest: string ::
      && original == ws + rest
      && AllSpace(ws)
      && (rest == [] || !IsSpace(rest[0]))
      && PlainSplice(reply, Some(original)) == Trim(reply) + "\n" + rest
    ensures Trimmed(Trim(reply))
  {
    TrimStartSpec(original);
    var rest := TrimStart(original);
    var ws := original[..|original| - |rest|];
    assert original == ws + rest;
    TrimSpec(reply);
  }

  /** A reply that is already trimmed, as the generated content is, goes in
      unchanged. */
  lemma PlainSpliceKeepsTrimmedReply(reply: string, original: Option<string>)
    requires Trimmed(reply)
    ensures PlainSplice(reply, original) == reply + "\n" + TrimStart(original.GetOr(""))
  {
    TrimOfTrimmed(reply);
  }
}
