/**
  The HTML splice of `generateReplyForCompose` (background.js:200-232): the
  reply container goes in before the first of the signature, the citation
  prefix, the first `blockquote` and the body's first child; then up to three
  "effectively empty" nodes right before it are removed.

  The body is modelled as the sequence of its children. Parsing, `querySelector`
  and `innerHTML` are not modelled: what each selector found is given as a
  `Found` value, and an element carries its `innerHTML` text.
*/
module HtmlSplice {
  import opened Text
  import opened Wrappers
  import ReplyText

  /** A child of the body. */
  datatype Node =
    | TextNode(value: string)
    /** `tagName` (upper case in an HTML document) and `innerHTML`. */
    | Element(tag: string, inner: string)
    /** A comment, processing instruction or other node. */
    | OtherNode
    /** The `<div data-ai-reply>` holding the reply span, with the span's children. */
    | ReplyContainer(lines: seq<ReplyText.ReplyNode>)

  // ---------------------------------------------------------------------------
  // isEffectivelyEmpty
  // ---------------------------------------------------------------------------

  /** The number of whitespace characters `s` starts with. */
  function LeadingSpaces(s: string): (n: nat)
    ensures n <= |s|
    ensures forall i | 0 <= i < n :: IsSpace(s[i])
    ensures n < |s| ==> !IsSpace(s[n])
  {
    if |s| > 0 && IsSpace(s[0]) then 1 + LeadingSpaces(s[1..]) else 0
  }

  /** The length of the case-insensitive `<br\s*\/?>` that `s` starts with.
      The tag is over at its first `>`, so there is at most one such prefix:
      `\s*` cannot give back a character that `\/?>` could take. */
  function BrTagLength(s: string): (r: Option<nat>)
    ensures r.Some? ==> 4 <= r.value <= |s|
  {
    if !StartsWithIgnoreCase(s, "<br") then None
    else
      var j := 3 + LeadingSpaces(s[3..]);
      if j < |s| && s[j] == '>' then Some(j + 1)
      else if j + 1 < |s| && s[j] == '/' && s[j + 1] == '>' then Some(j + 2)
      else None
  }

  /** The lazy `.*?-->` from position `j`: the end of the first `-->` at or
      after `j` that no line terminator precedes. */
  function CommentEnd(s: string, j: nat): (r: Option<nat>)
    ensures r.Some? ==> j + 3 <= r.value <= |s|
    decreases |s| - j
  {
    if j + 3 <= |s| && s[j..j + 3] == "-->" then Some(j + 3)
    else if j < |s| && !IsLineTerminator(s[j]) then CommentEnd(s, j + 1)
    else None
  }

  /** The length of the optional `(<!--.*?-->)?` at the start of `s`: the
      group is tried first and left out when it cannot match. */
  function CommentLength(s: string): (n: nat)
    ensures n <= |s|
  {
    if StartsWith(s, "<!--") then
      match CommentEnd(s, 4)
      case Some(e) => e
      case None => 0
    else 0
  }

  /** `s.replace(/&nbsp;|\s|<br\s*\/?>(<!--.*?-->)?/gi, '') === ''`. The global
      replacement tries the alternatives at each position in turn; they begin
      with different characters (`&`, whitespace, `<`), so at most one
      applies, and a character no alternative consumes stays in the result. */
  function StripsToEmpty(s: string): bool
    decreases |s|
  {
    if |s| == 0 then true
    else if StartsWithIgnoreCase(s, "&nbsp;") then StripsToEmpty(s[6..])
    else if IsSpace(s[0]) then StripsToEmpty(s[1..])
    else
      match BrTagLength(s)
      case None => false
      case Some(n) => StripsToEmpty(s[n + CommentLength(s[n..])..])
  }

  /** `(?:<br\s*\/?>(?:&nbsp;)?)*$`: the rest of a run of `<br>` tags. */
  function BrTail(s: string): bool
    decreases |s|
  {
    if |s| == 0 then true
    else
      match BrTagLength(s)
      case None => false
      case Some(n) =>
        var r := s[n..];
        BrTail(r) || (StartsWithIgnoreCase(r, "&nbsp;") && BrTail(r[6..]))
  }

  /** `/^<br\s*\/?>(?:<br\s*\/?>(?:&nbsp;)?)*$/i.test(t)` */
  function BrRun(t: string): bool {
    match BrTagLength(t)
    case None => false
    case Some(n) => BrTail(t[n..])
  }

  /** `isEffectivelyEmpty`; `None` is a missing sibling. */
  function IsEffectivelyEmpty(node: Option<Node>): bool {
    match node
    case None => false
    case Some(TextNode(v)) => v == [] || Trim(v) == []
    case Some(Element(tag, inner)) =>
      if tag == "BR" || tag == "HR" then true
      else
        var t := Trim(inner);
        if t == [] || BrRun(t) then true
        else StripsToEmpty(t)
    case Some(OtherNode) => false
    /** Its markup starts with `<span`, which the strip pattern keeps. */
    case Some(ReplyContainer(_)) => false
  }

  // ---------------------------------------------------------------------------
  // Properties of isEffectivelyEmpty
  // ---------------------------------------------------------------------------

  /** A text node is empty exactly when it is all whitespace; a missing
      sibling and a node that is neither text nor an element never are. */
  lemma EmptyTextAndOthers(v: string)
    ensures IsEffectivelyEmpty(Some(TextNode(v))) <==> AllSpace(v)
    ensures !IsEffectivelyEmpty(None)
    ensures !IsEffectivelyEmpty(Some(OtherNode))
  {
    TrimSpec(v);
  }

  lemma StartsWithBrNotComment(s: string)
    requires StartsWithIgnoreCase(s, "<br") || StartsWithIgnoreCase(s, "&nbsp;") || s == []
    ensures CommentLength(s) == 0
  {
    if |s| > 0 {
      assert s[0] == '<' ==> LowerAscii(s[1]) == 'b';
    }
  }

  lemma {:induction false} BrTailStrips(s: string)
    requires BrTail(s)
    ensures StripsToEmpty(s)
    decreases |s|
  {
    if |s| > 0 {
      var n := BrTagLength(s).value;
      var r := s[n..];
      assert !StartsWithIgnoreCase(s, "&nbsp;") by { assert LowerAscii(s[0]) == '<'; }
      assert !IsSpace(s[0]) by { assert s[0] == '<'; }
      if BrTail(r) {
        BrTailStrips(r);
        if r != [] {
          assert BrTagLength(r).Some?;
        }
        StartsWithBrNotComment(r);
      } else {
        BrTailStrips(r[6..]);
        StartsWithBrNotComment(r);
        assert StripsToEmpty(r) by {
          assert LowerAscii(r[0]) == '&';
        }
      }
      assert s[n + CommentLength(s[n..])..] == r;
    }
  }

  /** The `<br>`-run test adds nothing to the strip test: a run of `<br>`s
      with `&nbsp;`s strips to nothing. */
  lemma BrRunStrips(t: string)
    requires BrRun(t)
    ensures StripsToEmpty(t)
  {
    var n := BrTagLength(t).value;
    var r := t[n..];
    assert !StartsWithIgnoreCase(t, "&nbsp;") by { assert LowerAscii(t[0]) == '<'; }
    assert !IsSpace(t[0]) by { assert t[0] == '<'; }
    BrTailStrips(r);
    if r != [] {
      assert BrTagLength(r).Some?;
    }
    StartsWithBrNotComment(r);
    assert t[n + CommentLength(t[n..])..] == r;
  }

  /** An element is effectively empty exactly when it is a `BR` or an `HR`,
      or its trimmed inner markup is made only of whitespace, `&nbsp;` and
      `<br>` tags (each optionally followed by a comment). */
  lemma EmptyElement(tag: string, inner: string)
    ensures IsEffectivelyEmpty(Some(Element(tag, inner)))
        <==> tag == "BR" || tag == "HR" || StripsToEmpty(Trim(inner))
  {
    var t := Trim(inner);
    if BrRun(t) {
      BrRunStrips(t);
    }
  }

  /** Whitespace and `&nbsp;`, in either letter case, strip to nothing. */
  lemma SpaceAndNbspStrip()
    ensures StripsToEmpty(" ")
    ensures StripsToEmpty("&nbsp;")
    ensures StripsToEmpty("&NBSP;")
  {
    assert !StartsWithIgnoreCase(" ", "&nbsp;");
    assert StripsToEmpty(" "[1..]);
    assert StripsToEmpty("&nbsp;"[6..]);
    assert StripsToEmpty("&NBSP;"[6..]);
  }

  /** A text that is one `<br>` tag of length `n` and a comment of length `c`
      strips to nothing. */
  lemma WholeTagStrips(s: string, n: nat, c: nat)
    requires |s| > 0 && s[0] == '<' && BrTagLength(s) == Some(n)
    requires CommentLength(s[n..]) == c && n + c == |s|
    ensures StripsToEmpty(s)
  {
    assert !StartsWithIgnoreCase(s, "&nbsp;") by { assert LowerAscii(s[0]) == '<'; }
    assert !IsSpace(s[0]);
    assert s[n + c..] == [];
  }

  /** A `<br>` tag strips to nothing. */
  lemma BrTagStrips()
    ensures StripsToEmpty("<br>")
  {
    var t := "<br>";
    assert BrTagLength(t) == Some(4) by {
      assert LeadingSpaces(t[3..]) == 0;
    }
    assert t[4..] == [];
    WholeTagStrips(t, 4, 0);
  }

  /** So does one in capitals with a space and the closing slash. */
  lemma SlashedBrTagStrips()
    ensures StripsToEmpty("<BR />")
  {
    var t := "<BR />";
    assert LeadingSpaces(t[3..]) == 1 by {
      assert t[3..] == " />";
      assert LeadingSpaces(t[3..][1..]) == 0;
    }
    assert BrTagLength(t) == Some(6);
    assert t[6..] == [];
    WholeTagStrips(t, 6, 0);
  }

  /** A comment right after a `<br>` goes with it. */
  lemma BrWithCommentStrips()
    ensures StripsToEmpty("<br><!---->")
  {
    var c := "<br><!---->";
    assert BrTagLength(c) == Some(4) by {
      assert LeadingSpaces(c[3..]) == 0;
    }
    var r := c[4..];
    assert r == "<!---->";
    assert CommentLength(r) == 7 by {
      assert StartsWith(r, "<!--");
      assert r[4..7] == "-->";
    }
    WholeTagStrips(c, 4, 7);
  }

  /** Visible content defeats the test: a letter, or a tag other than
      `<br>`, as in `<p>`. */
  lemma VisibleContent()
    ensures !StripsToEmpty("x")
    ensures !StripsToEmpty("<p></p>")
  {
    assert BrTagLength("x") == None;
    assert BrTagLength("<p></p>") == None by {
      assert LowerAscii("<p></p>"[1]) != 'b';
    }
    assert !StartsWithIgnoreCase("<p></p>", "&nbsp;");
  }

  // ---------------------------------------------------------------------------
  // The anchor
  // ---------------------------------------------------------------------------

  /** What a `querySelector` call found: nothing, the body's child at an
      index, or a node that is not a child of the body. */
  datatype Found = NotFound | Child(index: nat) | Deeper

  /** `signature || citePrefix || quote || doc.body.firstChild` */
  function ChooseAnchor(signature: Found, citePrefix: Found, quote: Found, childCount: nat): Found {
    if !signature.NotFound? then signature
    else if !citePrefix.NotFound? then citePrefix
    else if !quote.NotFound? then quote
    else if childCount > 0 then Child(0)
    else NotFound
  }

  /** The first found of the candidates, in order. */
  function FirstFound(candidates: seq<Found>): Found {
    if |candidates| == 0 then NotFound
    else if !candidates[0].NotFound? then candidates[0]
    else FirstFound(candidates[1..])
  }

  /** The anchor is the first candidate, in the order signature, citation
      prefix, quote, first child, that found something; with none there is
      no anchor and the container is appended. */
  lemma AnchorPriority(signature: Found, citePrefix: Found, quote: Found, childCount: nat)
    ensures ChooseAnchor(signature, citePrefix, quote, childCount)
         == FirstFound([signature, citePrefix, quote, if childCount > 0 then Child(0) else NotFound])
    ensures ChooseAnchor(signature, citePrefix, quote, childCount).NotFound?
        <==> signature.NotFound? && citePrefix.NotFound? && quote.NotFound? && childCount == 0
  {
    var last := if childCount > 0 then Child(0) else NotFound;
    var cs := [signature, citePrefix, quote, last];
    assert cs[1..] == [citePrefix, quote, last];
    assert cs[1..][1..] == [quote, last];
    assert cs[1..][1..][1..] == [last];
    assert cs[1..][1..][1..][1..] == [];
    assert FirstFound(cs[1..][1..][1..]) == last;
    assert FirstFound(cs[1..][1..]) == if !quote.NotFound? then quote else last;
    assert FirstFound(cs[1..]) == if !citePrefix.NotFound? then citePrefix else FirstFound(cs[1..][1..]);
  }

  /** Where the container goes: before the anchor, or at the end. */
  function InsertionPoint(children: seq<Node>, anchor: Found): nat {
    if anchor.Child? then anchor.index else |children|
  }

  // ---------------------------------------------------------------------------
  // The sibling removal
  // ---------------------------------------------------------------------------

  const MaxRemoved: nat := 3

  /** How many nodes at the end of `before` the loop removes with `budget`
      rounds: it stops at the first node that is not effectively empty. */
  function Removable(before: seq<Node>, budget: nat): (n: nat)
    ensures n <= budget && n <= |before|
  {
    if budget == 0 || |before| == 0 || !IsEffectivelyEmpty(Some(before[|before| - 1])) then 0
    else 1 + Removable(before[..|before| - 1], budget - 1)
  }

  /** The removed nodes are effectively empty, and unless the budget or the
      nodes ran out, the node before them is not. */
  lemma {:induction false} RemovableSpec(before: seq<Node>, budget: nat)
    ensures forall j | |before| - Removable(before, budget) <= j < |before| :: IsEffectivelyEmpty(Some(before[j]))
    ensures Removable(before, budget) < budget && Removable(before, budget) < |before|
        ==> !IsEffectivelyEmpty(Some(before[|before| - Removable(before, budget) - 1]))
    decreases budget
  {
    if budget > 0 && |before| > 0 && IsEffectivelyEmpty(Some(before[|before| - 1])) {
      var shorter := before[..|before| - 1];
      RemovableSpec(shorter, budget - 1);
      forall j | |before| - Removable(before, budget) <= j < |before| - 1
        ensures IsEffectivelyEmpty(Some(before[j]))
      {
        assert before[j] == shorter[j];
      }
    }
  }

  /** The body after the splice: the nodes before the insertion point less
      the removed ones, the container, then the rest unchanged. */
  function Spliced(children: seq<Node>, container: Node, at: nat): seq<Node>
    requires at <= |children|
  {
    var before := children[..at];
    before[..|before| - Removable(before, MaxRemoved)] + [container] + children[at..]
  }

  /** At most three nodes are removed, all of them effectively empty and all
      immediately before the container; the removal stops at the first node
      that is not empty; the anchor and everything after it stay, right after
      the container. */
  lemma SplicedSpec(children: seq<Node>, container: Node, at: nat)
    requires at <= |children|
    ensures var r := Spliced(children, container, at);
            var n := Removable(children[..at], MaxRemoved);
            && n <= MaxRemoved
            && |r| == |children| + 1 - n
            && r[..at - n] == children[..at - n]
            && r[at - n] == container
            && r[at - n + 1..] == children[at..]
            && (forall j | at - n <= j < at :: IsEffectivelyEmpty(Some(children[j])))
            && (n < MaxRemoved && n < at ==> !IsEffectivelyEmpty(Some(children[at - n - 1])))
  {
    var before := children[..at];
    var n := Removable(before, MaxRemoved);
    RemovableSpec(before, MaxRemoved);
    var r := Spliced(children, container, at);
    assert r == before[..at - n] + ([container] + children[at..]);
    forall j | at - n <= j < at ensures IsEffectivelyEmpty(Some(children[j])) {
      assert children[j] == before[j];
    }
    if n < MaxRemoved && n < at {
      assert children[at - n - 1] == before[at - n - 1];
    }
  }

  /** The body the splice works on. */
  class Body {
    var children: seq<Node>

    constructor (nodes: seq<Node>)
      ensures children == nodes
    {
      children := nodes;
    }

    /** `insertBefore(node, anchor)`: a missing anchor appends; an anchor that
        is not a child of the body throws and changes nothing. */
    method InsertBefore(node: Node, anchor: Found) returns (thrown: bool)
      requires anchor.Child? ==> anchor.index < |children|
      modifies this
      ensures thrown <==> anchor.Deeper?
      ensures thrown ==> children == old(children)
      ensures !thrown ==> children == old(children[..InsertionPoint(children, anchor)]) + [node]
                                      + old(children[InsertionPoint(children, anchor)..])
    {
      match anchor
      case Deeper =>
        return true;
      case NotFound =>
        assert old(children)[..|old(children)|] == old(children);
        assert old(children)[|old(children)|..] == [];
        children := children + [node];
        return false;
      case Child(i) =>
        children := children[..i] + [node] + children[i..];
        return false;
    }

    /** `remove()` on the child at `i`. */
    method RemoveAt(i: nat)
      requires i < |children|
      modifies this
      ensures children == old(children[..i]) + old(children[i + 1..])
    {
      children := children[..i] + children[i + 1..];
    }
  }

  /** The state of the removal loop after `i` rounds that each removed a
      node: the container is at `pos`, and the rounds left remove what the
      whole loop removes less the `i` already gone. */
  ghost predicate Removing(children: seq<Node>, original: seq<Node>, container: Node, at: nat, pos: nat, i: nat) {
    && at <= |original| && i <= at && pos == at - i && i <= MaxRemoved
    && children == original[..pos] + [container] + original[at..]
    && Removable(original[..at], MaxRemoved) == i + Removable(original[..pos], MaxRemoved - i)
  }

  lemma RemovingStart(original: seq<Node>, container: Node, at: nat)
    requires at <= |original|
    ensures Removing(original[..at] + [container] + original[at..], original, container, at, at, 0)
  {
    assert original[..at][..at] == original[..at];
  }

  lemma RemovingStep(children: seq<Node>, original: seq<Node>, container: Node, at: nat, pos: nat, i: nat)
    requires Removing(children, original, container, at, pos, i)
    requires i < MaxRemoved && pos > 0 && IsEffectivelyEmpty(Some(children[pos - 1]))
    ensures Removing(children[..pos - 1] + children[pos..], original, container, at, pos - 1, i + 1)
  {
    var before := original[..pos];
    assert children[pos - 1] == before[pos - 1];
    assert before[..pos - 1] == original[..pos - 1];
    assert children[..pos - 1] == original[..pos - 1];
    assert children[pos..] == [container] + original[at..];
  }

  lemma RemovingStop(children: seq<Node>, original: seq<Node>, container: Node, at: nat, pos: nat, i: nat)
    requires Removing(children, original, container, at, pos, i)
    requires i == MaxRemoved || pos == 0 || !IsEffectivelyEmpty(Some(children[pos - 1]))
    ensures children == Spliced(original, container, at)
  {
    var before := original[..pos];
    if pos > 0 {
      assert children[pos - 1] == before[pos - 1];
    }
    assert Removable(before, MaxRemoved - i) == 0;
    assert original[..at][..pos] == before;
  }

  /** The insertion and the removal loop. `inserted` is false when
      `insertBefore` threw, which sends the caller to its fallback. */
  method SpliceReply(body: Body, container: Node, anchor: Found) returns (inserted: bool)
    requires anchor.Child? ==> anchor.index < |body.children|
    modifies body
    ensures inserted <==> !anchor.Deeper?
    ensures !inserted ==> body.children == old(body.children)
    ensures inserted ==> body.children == Spliced(old(body.children), container, InsertionPoint(old(body.children), anchor))
  {
    ghost var original := body.children;
    var at := InsertionPoint(body.children, anchor);
    var thrown := body.InsertBefore(container, anchor);
    if thrown {
      return false;
    }
    RemovingStart(original, container, at);
    var pos := at;
    var i := 0;
    while i < MaxRemoved
      invariant Removing(body.children, original, container, at, pos, i)
      decreases MaxRemoved - i
    {
      var prev: Option<Node> := if pos > 0 then Some(body.children[pos - 1]) else None;
      if IsEffectivelyEmpty(prev) {
        RemovingStep(body.children, original, container, at, pos, i);
        body.RemoveAt(pos - 1);
        pos := pos - 1;
        i := i + 1;
      } else {
        break;
      }
    }
    RemovingStop(body.children, original, container, at, pos, i);
    return true;
  }
}
