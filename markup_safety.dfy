/**
  What markup the inline pass can write. Its input has been escaped, so it
  holds no `<`, and every `<` of the result is the start of a tag the
  formatter writes itself: `<strong>`, `<em>`, their closing tags, `</a>`, or
  a link opening `<a href="` whose address starts with `http://` or
  `https://`. The tags of the block renderer are in the same list, so the
  property carries over to the whole summary (module RenderSafety).
*/
module MarkupSafety {
  import opened Text
  import opened Wrappers
  import opened InlineFormat
  import opened InlineProperties
  import opened RestoreProperties
  import HtmlEscape

  /** The tags the inline pass writes, each without its leading `<`, apart
      from the opening of a link. */
  predicate InlineTagName(b: string) {
    b == "strong>" || b == "/strong>" || b == "em>" || b == "/em>" || b == "/a>"
  }

  /** The tags of paragraphs, quotes and lists. */
  predicate BlockTagName(b: string) {
    || b == "p>" || b == "/p>" || b == "blockquote>" || b == "/blockquote>"
    || b == "li>" || b == "/li>" || b == "ul>" || b == "/ul>" || b == "ol>" || b == "/ol>"
  }

  const HeadingClass: string := " class=\"summary-heading\">"
  const RuleClass: string := " class=\"summary-rule\">"

  /** The tags of headings of levels 1 to 4 and of the horizontal rule. */
  predicate HeadingTagName(b: string) {
    || b == "hr" + RuleClass
    || (|b| >= 2 && b[0] == 'h' && '1' <= b[1] <= '4' && b[2..] == HeadingClass)
    || (|b| == 4 && b[0] == '/' && b[1] == 'h' && '1' <= b[2] <= '4' && b[3] == '>')
  }

  /** The tags the renderer writes, each without its leading `<`, apart from
      the opening of a link. */
  predicate OwnTagName(b: string) {
    InlineTagName(b) || BlockTagName(b) || HeadingTagName(b)
  }

  const LinkOpen: string := "<a href=\""

  /** `u` starts with one of the renderer's own tags. */
  ghost predicate OwnTagAt(u: string) {
    exists b :: OwnTagName(b) && StartsWith(u, "<" + b)
  }

  /** `u` starts a link whose address starts with `http://` or `https://`. */
  predicate WebLinkAt(u: string) {
    StartsWith(u, LinkOpen) && HasWebScheme(u[|LinkOpen|..])
  }

  ghost predicate TagStart(u: string) {
    OwnTagAt(u) || WebLinkAt(u)
  }

  /** Every `<` in `s` starts one of the renderer's own tags or a link to a
      web address. */
  ghost predicate OwnMarkup(s: string) {
    forall i | 0 <= i < |s| && s[i] == '<' :: TagStart(s[i..])
  }

  // ---------------------------------------------------------------------------
  // The tags themselves
  // ---------------------------------------------------------------------------

  /** What the argument needs of a tag name: it does not start like `a href`,
      `code` or `script`, and holds no `<` and no emphasis delimiter. */
  predicate TagNameShape(b: string) {
    && |b| >= 2 && b[0] != 'a' && b[0] != 'c' && (b[0] == 's' ==> b[1] == 't')
    && '<' !in b && '*' !in b && '_' !in b
  }

  lemma InlineTagNameShape(b: string)
    requires InlineTagName(b)
    ensures TagNameShape(b)
  {
  }

  lemma BlockTagNameShape(b: string)
    requires BlockTagName(b)
    ensures TagNameShape(b)
  {
  }

  lemma ClassesArePlain()
    ensures '<' !in HeadingClass && '*' !in HeadingClass && '_' !in HeadingClass
    ensures '<' !in RuleClass && '*' !in RuleClass && '_' !in RuleClass
  {
    HeadingClassIsPlain();
    RuleClassIsPlain();
  }

  lemma HeadingClassIsPlain()
    ensures '<' !in HeadingClass && '*' !in HeadingClass && '_' !in HeadingClass
  {
  }

  lemma RuleClassIsPlain()
    ensures '<' !in RuleClass && '*' !in RuleClass && '_' !in RuleClass
  {
  }

  lemma HeadingTagNameShape(b: string)
    requires HeadingTagName(b)
    ensures TagNameShape(b)
  {
    ClassesArePlain();
    if |b| >= 2 && b[0] == 'h' && '1' <= b[1] <= '4' && b[2..] == HeadingClass {
      assert b == [b[0], b[1]] + HeadingClass;
    }
  }

  lemma OwnTagNameShape(b: string)
    requires OwnTagName(b)
    ensures TagNameShape(b)
  {
    if InlineTagName(b) {
      InlineTagNameShape(b);
    } else if BlockTagName(b) {
      BlockTagNameShape(b);
    } else {
      HeadingTagNameShape(b);
    }
  }

  lemma OwnTagIsOwnMarkup(b: string)
    requires OwnTagName(b) && TagNameShape(b)
    ensures OwnMarkup("<" + b)
  {
    var s := "<" + b;
    forall i | 0 < i < |s| ensures s[i] != '<' {
      assert s[i] == b[i - 1] && b[i - 1] in b;
    }
    assert StartsWith(s, "<" + b);
    assert s[0..] == s;
  }

  /** The tags the inline pass writes. */
  lemma InlineTagsAreOwnMarkup()
    ensures OwnMarkup("<strong>") && OwnMarkup("</strong>")
    ensures OwnMarkup("<em>") && OwnMarkup("</em>") && OwnMarkup("</a>")
  {
    StrongTagsAreOwnMarkup();
    EmTagsAreOwnMarkup();
    InlineTagIsOwnMarkup("/a>");
    assert "<" + "/a>" == "</a>";
  }

  lemma StrongTagsAreOwnMarkup()
    ensures OwnMarkup("<strong>") && OwnMarkup("</strong>")
  {
    InlineTagIsOwnMarkup("strong>");
    InlineTagIsOwnMarkup("/strong>");
    assert "<" + "strong>" == "<strong>";
    assert "<" + "/strong>" == "</strong>";
  }

  lemma EmTagsAreOwnMarkup()
    ensures OwnMarkup("<em>") && OwnMarkup("</em>")
  {
    InlineTagIsOwnMarkup("em>");
    InlineTagIsOwnMarkup("/em>");
    assert "<" + "em>" == "<em>";
    assert "<" + "/em>" == "</em>";
  }

  lemma InlineTagIsOwnMarkup(b: string)
    requires InlineTagName(b)
    ensures OwnMarkup("<" + b)
  {
    InlineTagNameShape(b);
    OwnTagIsOwnMarkup(b);
  }

  // ---------------------------------------------------------------------------
  // Web schemes
  // ---------------------------------------------------------------------------

  /** The length of the scheme prefix, `http://` or `https://`. */
  function SchemeLength(u: string): nat {
    if StartsWithIgnoreCase(u, "http://") then 7 else 8
  }

  /** The scheme prefix holds no `<` and no emphasis delimiter. */
  lemma SchemeIsPlain(u: string)
    requires HasWebScheme(u)
    ensures SchemeLength(u) <= |u|
    ensures forall k | 0 <= k < SchemeLength(u) :: u[k] != '<' && u[k] != '*' && u[k] != '_'
  {
    var scheme := if SchemeLength(u) == 7 then "http://" else "https://";
    forall k | 0 <= k < SchemeLength(u) ensures u[k] != '<' && u[k] != '*' && u[k] != '_' {
      assert LowerAscii(u[k]) == scheme[k] && scheme[k] in scheme;
    }
  }

  /** Only the scheme prefix decides `HasWebScheme`. */
  lemma SchemeKept(u: string, v: string)
    requires HasWebScheme(u) && SchemeLength(u) <= |u| && StartsWith(v, u[..SchemeLength(u)])
    ensures HasWebScheme(v)
  {
    var n := SchemeLength(u);
    assert forall k | 0 <= k < n :: v[k] == u[k];
  }

  // ---------------------------------------------------------------------------
  // Putting texts together
  // ---------------------------------------------------------------------------

  /** The stretch a tag start spans: no emphasis delimiter in it, no second
      `<`, and any text that starts with the same stretch starts a tag too. */
  lemma TagWindow(u: string) returns (n: nat)
    requires TagStart(u)
    ensures 2 <= n <= |u| && u[0] == '<'
    ensures forall k | 0 <= k < n :: u[k] != '*' && u[k] != '_'
    ensures forall k | 1 <= k < n :: u[k] != '<'
    ensures forall v | StartsWith(v, u[..n]) :: TagStart(v)
  {
    if OwnTagAt(u) {
      var b :| OwnTagName(b) && StartsWith(u, "<" + b);
      n := OwnTagWindow(u, b);
    } else {
      n := LinkWindow(u);
    }
  }

  lemma OwnTagWindow(u: string, b: string) returns (n: nat)
    requires OwnTagName(b) && StartsWith(u, "<" + b)
    ensures 2 <= n <= |u| && u[0] == '<'
    ensures forall k | 0 <= k < n :: u[k] != '*' && u[k] != '_'
    ensures forall k | 1 <= k < n :: u[k] != '<'
    ensures forall v | StartsWith(v, u[..n]) :: TagStart(v)
  {
    OwnTagNameShape(b);
    n := |b| + 1;
    forall k | 1 <= k < n ensures u[k] != '<' && u[k] != '*' && u[k] != '_' {
      assert u[k] == ("<" + b)[k] == b[k - 1] && b[k - 1] in b;
    }
    assert u[0] == ("<" + b)[0];
    forall v | StartsWith(v, u[..n]) ensures TagStart(v) {
      assert forall k | 0 <= k < n :: v[k] == ("<" + b)[k];
      assert StartsWith(v, "<" + b);
    }
  }

  lemma LinkWindow(u: string) returns (n: nat)
    requires WebLinkAt(u)
    ensures 2 <= n <= |u| && u[0] == '<'
    ensures forall k | 0 <= k < n :: u[k] != '*' && u[k] != '_'
    ensures forall k | 1 <= k < n :: u[k] != '<'
    ensures forall v | StartsWith(v, u[..n]) :: TagStart(v)
  {
    var w := u[|LinkOpen|..];
    SchemeIsPlain(w);
    var m := SchemeLength(w);
    n := |LinkOpen| + m;
    forall k | 0 <= k < n ensures u[k] != '*' && u[k] != '_' && (k > 0 ==> u[k] != '<') {
      if k < |LinkOpen| {
        assert u[k] == LinkOpen[k];
      } else {
        assert u[k] == w[k - |LinkOpen|];
      }
    }
    forall v | StartsWith(v, u[..n]) ensures TagStart(v) {
      assert StartsWith(v, LinkOpen);
      assert StartsWith(v[|LinkOpen|..], w[..m]);
      SchemeKept(w, v[|LinkOpen|..]);
    }
  }

  /** A run of `k` characters free of a delimiter ends before the delimiter at `m`. */
  lemma WindowBeforeDelimiter(u: string, n: nat, m: nat)
    requires n <= |u| && m < |u| && (u[m] == '*' || u[m] == '_')
    requires forall k | 0 <= k < n :: u[k] != '*' && u[k] != '_'
    ensures n <= m
  {
  }

  /** `v` continues `u` past the window at `i`. */
  lemma SharedStart(u: string, i: nat, n: nat, v: string, j: nat)
    requires i + n <= |u| && j <= |v| && |v| - j >= n
    requires forall t | j <= t < j + n :: v[t] == u[t - j + i]
    ensures StartsWith(v[j..], u[i..][..n])
  {
    forall k | 0 <= k < n ensures v[j..][k] == u[i..][..n][k] {
      assert v[j..][k] == v[j + k];
    }
  }

  lemma OwnMarkupConcat(a: string, b: string)
    requires OwnMarkup(a) && OwnMarkup(b)
    ensures OwnMarkup(a + b)
  {
    var s := a + b;
    forall i | 0 <= i < |s| && s[i] == '<' ensures TagStart(s[i..]) {
      if i < |a| {
        assert a[i] == '<';
        var n := TagWindow(a[i..]);
        assert forall t | i <= t < i + n :: s[t] == a[t - i + i];
        SharedStart(a, i, n, s, i);
      } else {
        assert s[i..] == b[i - |a|..];
      }
    }
  }

  lemma OwnMarkupCons(c: char, r: string)
    requires OwnMarkup(r) && (c == '<' ==> TagStart([c] + r))
    ensures OwnMarkup([c] + r)
  {
    var s := [c] + r;
    forall i | 0 < i < |s| && s[i] == '<' ensures TagStart(s[i..]) {
      assert s[i..] == r[i - 1..];
    }
    assert s[0..] == s;
  }

  /** A slice of `s` that ends at a delimiter or at the end keeps every tag
      start whole. */
  lemma OwnMarkupSlice(s: string, a: nat, b: nat)
    requires OwnMarkup(s) && a <= b <= |s|
    requires b < |s| ==> s[b] == '*' || s[b] == '_'
    ensures OwnMarkup(s[a..b])
  {
    forall i | 0 <= i < b - a && s[a..b][i] == '<' ensures TagStart(s[a..b][i..]) {
      assert s[a + i] == '<';
      SliceKeepsTag(s, a, b, i);
    }
  }

  lemma SliceKeepsTag(s: string, a: nat, b: nat, i: nat)
    requires a <= b <= |s| && i < b - a && TagStart(s[a + i..])
    requires b < |s| ==> s[b] == '*' || s[b] == '_'
    ensures TagStart(s[a..b][i..])
  {
    var u := s[a + i..];
    var n := TagWindow(u);
    if b < |s| {
      assert u[b - a - i] == s[b];
      WindowBeforeDelimiter(u, n, b - a - i);
    }
    WindowInSlice(s, a, b, i, n);
  }

  /** The window at `a + i` lies inside the slice `s[a..b]`. */
  lemma WindowInSlice(s: string, a: nat, b: nat, i: nat, n: nat)
    requires a + i + n <= b <= |s|
    ensures StartsWith(s[a..b][i..], s[a + i..][..n])
  {
    var t := s[a..b];
    forall k | 0 <= k < n ensures t[i..][k] == s[a + i..][..n][k] {
      assert t[i..][k] == s[a + i + k];
    }
  }

  lemma NoAngleIsOwnMarkup(s: string)
    requires '<' !in s
    ensures OwnMarkup(s)
  {
  }

  /** Two characters at the start of a tag: `<` is never followed by a delimiter. */
  lemma AngleThenNoDelimiter(s: string)
    requires OwnMarkup(s) && |s| > 1
    ensures s[0] == '<' ==> s[1] != '*' && s[1] != '_'
  {
    if s[0] == '<' {
      assert s[0..] == s;
      var n := TagWindow(s);
    }
  }

  // ---------------------------------------------------------------------------
  // The strong rules
  // ---------------------------------------------------------------------------

  /** The strong pass keeps a start that holds no delimiter of its own. */
  lemma {:induction false} StrongPassKeepsStart(s: string, d: char, w: string)
    requires StartsWith(s, w) && d !in w
    ensures StartsWith(StrongPass(s, d), w)
    decreases |w|
  {
    if |w| > 0 {
      assert s[0] == w[0] && w[0] in w;
      StrongPassCopy(s, d);
      assert s == [s[0]] + s[1..];
      StartsWithCons(s[0], s[1..], w);
      assert forall c | c in w[1..] :: c in w;
      StrongPassKeepsStart(s[1..], d, w[1..]);
      StartsWithCons(s[0], StrongPass(s[1..], d), w);
    }
  }

  /** A copied character keeps its tag start through the strong pass. */
  lemma StrongCopyOwnMarkup(s: string, d: char)
    requires |s| > 0 && OwnMarkup(s) && (d == '*' || d == '_')
    requires OwnMarkup(StrongPass(s[1..], d))
    ensures OwnMarkup([s[0]] + StrongPass(s[1..], d))
  {
    if s[0] == '<' {
      assert s[0..] == s;
      var n := TagWindow(s);
      assert StartsWith(s[1..], s[1..n]);
      assert d !in s[1..n];
      StrongPassKeepsStart(s[1..], d, s[1..n]);
      assert s[..n][1..] == s[1..n];
      StartsWithCons('<', StrongPass(s[1..], d), s[..n]);
    }
    OwnMarkupCons(s[0], StrongPass(s[1..], d));
  }

  /** A strong match writes its tags around a slice that ends at a delimiter. */
  lemma StrongMatchOwnMarkup(s: string, d: char, rest: string)
    requires OwnMarkup(s) && (d == '*' || d == '_') && OwnMarkup(rest)
    requires |s| > 1 && s[0] == d && s[1] == d && StrongClose(s, d, 2).Some?
    ensures OwnMarkup("<strong>" + s[2..StrongClose(s, d, 2).value] + "</strong>" + rest)
  {
    var j := StrongClose(s, d, 2).value;
    OwnMarkupSlice(s, 2, j);
    InlineTagsAreOwnMarkup();
    OwnMarkupConcat("<strong>", s[2..j]);
    OwnMarkupConcat("<strong>" + s[2..j], "</strong>");
    OwnMarkupConcat("<strong>" + s[2..j] + "</strong>", rest);
  }

  lemma {:induction false} StrongPassOwnMarkup(s: string, d: char)
    requires OwnMarkup(s) && (d == '*' || d == '_')
    ensures OwnMarkup(StrongPass(s, d))
    decreases |s|
  {
    if |s| > 0 {
      match StrongAt(s, d) {
        case Some(m) =>
          var j := StrongClose(s, d, 2).value;
          StrongAtClose(s, d, j);
          StrongPassTake(s, d, m.0, m.1);
          OwnMarkupSlice(s, j + 2, |s|);
          StrongPassOwnMarkup(s[j + 2..], d);
          StrongMatchOwnMarkup(s, d, StrongPass(s[j + 2..], d));
        case None =>
          StrongPassCopy(s, d);
          OwnMarkupSlice(s, 1, |s|);
          StrongPassOwnMarkup(s[1..], d);
          StrongCopyOwnMarkup(s, d);
      }
    }
  }

  // ---------------------------------------------------------------------------
  // The emphasis rule
  // ---------------------------------------------------------------------------

  /** The emphasis pass keeps a non-empty start that holds no `*`. */
  lemma {:induction false} EmPassKeepsStart(s: string, atStart: bool, w: string)
    requires StartsWith(s, w) && '*' !in w && |w| > 0
    ensures StartsWith(EmPass(s, atStart), w)
    decreases |w|
  {
    assert s[0] == w[0] && w[0] in w;
    if |w| == 1 {
      match EmAt(s, atStart) {
        case Some(m) => EmPassTake(s, atStart, m.0, m.1);
        case None => EmPassCopy(s, atStart);
      }
    } else {
      assert s[1] == w[1] && w[1] in w;
      EmPassCopy(s, atStart);
      assert s == [s[0]] + s[1..];
      StartsWithCons(s[0], s[1..], w);
      assert forall c | c in w[1..] :: c in w;
      EmPassKeepsStart(s[1..], false, w[1..]);
      StartsWithCons(s[0], EmPass(s[1..], false), w);
    }
  }

  /** The markup of one emphasis match: the prefix, `<em>`, a slice that ends
      at the closing `*`, `</em>`. */
  lemma EmTagsOwnMarkup(pre: string, s: string, from: nat, j: nat, rest: string)
    requires OwnMarkup(s) && from <= j < |s| && s[j] == '*' && '<' !in pre && OwnMarkup(rest)
    ensures OwnMarkup(pre + "<em>" + s[from..j] + "</em>" + rest)
  {
    OwnMarkupSlice(s, from, j);
    NoAngleIsOwnMarkup(pre);
    EmTagsAreOwnMarkup();
    OwnMarkupConcat(pre, "<em>");
    OwnMarkupConcat(pre + "<em>", s[from..j]);
    OwnMarkupConcat(pre + "<em>" + s[from..j], "</em>");
    OwnMarkupConcat(pre + "<em>" + s[from..j] + "</em>", rest);
  }

  lemma EmMatchOwnMarkup(s: string, atStart: bool)
    requires |s| > 0 && OwnMarkup(s) && EmAt(s, atStart).Some?
    requires OwnMarkup(EmPass(s[EmAt(s, atStart).value.1..], false))
    ensures OwnMarkup(EmPass(s, atStart))
  {
    var m := EmAt(s, atStart).value;
    var rest := EmPass(s[m.1..], false);
    EmPassTake(s, atStart, m.0, m.1);
    if atStart && s[0] == '*' && EmClose(s, 0).Some? {
      var j := EmClose(s, 0).value;
      assert m.0 == "" + "<em>" + s[1..j] + "</em>";
      EmTagsOwnMarkup("", s, 1, j, rest);
    } else {
      var j := EmClose(s, 1).value;
      assert m.0 == [s[0]] + "<em>" + s[2..j] + "</em>";
      AngleThenNoDelimiter(s);
      EmTagsOwnMarkup([s[0]], s, 2, j, rest);
    }
  }

  lemma EmCopyOwnMarkup(s: string, atStart: bool)
    requires |s| > 0 && OwnMarkup(s) && EmAt(s, atStart).None?
    requires OwnMarkup(EmPass(s[1..], false))
    ensures OwnMarkup(EmPass(s, atStart))
  {
    EmPassCopy(s, atStart);
    if s[0] == '<' {
      assert s[0..] == s;
      var n := TagWindow(s);
      assert StartsWith(s[1..], s[1..n]);
      assert '*' !in s[1..n];
      EmPassKeepsStart(s[1..], false, s[1..n]);
      assert s[..n][1..] == s[1..n];
      StartsWithCons('<', EmPass(s[1..], false), s[..n]);
    }
    OwnMarkupCons(s[0], EmPass(s[1..], false));
  }

  lemma {:induction false} EmPassOwnMarkup(s: string, atStart: bool)
    requires OwnMarkup(s)
    ensures OwnMarkup(EmPass(s, atStart))
    decreases |s|
  {
    if |s| > 0 {
      if EmAt(s, atStart).Some? {
        var k := EmAt(s, atStart).value.1;
        assert s[k - 1] == '*';
        OwnMarkupSlice(s, k, |s|);
        EmPassOwnMarkup(s[k..], false);
        EmMatchOwnMarkup(s, atStart);
      } else {
        OwnMarkupSlice(s, 1, |s|);
        EmPassOwnMarkup(s[1..], false);
        EmCopyOwnMarkup(s, atStart);
      }
    }
  }

  /** `formatEmphasis` writes only its own tags. */
  lemma FormatEmphasisOwnMarkup(s: string)
    requires OwnMarkup(s)
    ensures OwnMarkup(FormatEmphasis(s))
  {
    StrongPassOwnMarkup(s, '*');
    StrongPassOwnMarkup(StrongPass(s, '*'), '_');
    EmPassOwnMarkup(StrongPass(StrongPass(s, '*'), '_'), true);
  }

  // ---------------------------------------------------------------------------
  // Links and code spans
  // ---------------------------------------------------------------------------

  lemma {:induction false} ReplaceCharKeepsOut(s: string, c: char, rep: string, x: char)
    requires x !in s && x !in rep
    ensures x !in HtmlEscape.ReplaceChar(s, c, rep)
    decreases |s|
  {
    if |s| > 0 {
      ReplaceCharKeepsOut(s[1..], c, rep, x);
    }
  }

  lemma TrimKeepsOut(s: string, x: char)
    requires x !in s
    ensures x !in Trim(s)
  {
    TrimEndSpec(s);
    TrimStartSpec(TrimEnd(s));
  }

  /** A link opening followed by a web address. */
  lemma LinkOpenOwnMarkup(href: string)
    requires HasWebScheme(href) && '<' !in href
    ensures OwnMarkup(LinkOpen + href)
  {
    var s := LinkOpen + href;
    assert s[0..] == s && s[|LinkOpen|..] == href;
    assert StartsWith(s, LinkOpen);
    forall i | 0 < i < |s| ensures s[i] != '<' {
      if i < |LinkOpen| {
        assert s[i] == LinkOpen[i];
      } else {
        assert s[i] == href[i - |LinkOpen|];
      }
    }
  }

  /** The anchor the link callback writes around a formatted caption. */
  lemma AnchorOwnMarkup(href: string, caption: string)
    requires HasWebScheme(href) && '<' !in href && OwnMarkup(caption)
    ensures OwnMarkup(LinkOpen + href + LinkAttributes + caption + "</a>")
  {
    LinkOpenOwnMarkup(href);
    NoAngleIsOwnMarkup(LinkAttributes);
    InlineTagsAreOwnMarkup();
    OwnMarkupConcat(LinkOpen + href, LinkAttributes);
    OwnMarkupConcat(LinkOpen + href + LinkAttributes, caption);
    OwnMarkupConcat(LinkOpen + href + LinkAttributes + caption, "</a>");
  }

  /** The link callback writes an anchor only for a web address. */
  lemma LinkReplacementOwnMarkup(text: string, url: string)
    requires '<' !in text && '<' !in url
    ensures OwnMarkup(LinkReplacement(text, url))
  {
    NoAngleIsOwnMarkup(text);
    FormatEmphasisOwnMarkup(text);
    if HasWebScheme(Trim(url)) {
      var href := HtmlEscape.ReplaceChar(Trim(url), '"', "&quot;");
      TrimKeepsOut(url, '<');
      ReplaceCharKeepsOut(Trim(url), '"', "&quot;", '<');
      QuotingKeepsScheme(Trim(url));
      AnchorOwnMarkup(href, FormatEmphasis(text));
    }
  }

  lemma LinkAtOwnMarkup(s: string)
    requires '<' !in s && LinkAt(s).Some?
    ensures OwnMarkup(LinkAt(s).value.0)
  {
    var k := IndexOf(s, ']', 1);
    var e := IndexOf(s, ')', k + 2);
    assert LinkAt(s).value.0 == LinkReplacement(s[1..k], s[k + 2..e]);
    assert '<' !in s[1..k] && '<' !in s[k + 2..e];
    LinkReplacementOwnMarkup(s[1..k], s[k + 2..e]);
  }

  lemma {:induction false} LinkPassOwnMarkup(s: string)
    requires '<' !in s
    ensures OwnMarkup(LinkPass(s))
    decreases |s|
  {
    if |s| > 0 {
      match LinkAt(s) {
        case Some(m) =>
          LinkPassTake(s, m.0, m.1);
          LinkAtOwnMarkup(s);
          assert '<' !in s[m.1..];
          LinkPassOwnMarkup(s[m.1..]);
          OwnMarkupConcat(m.0, LinkPass(s[m.1..]));
        case None =>
          LinkPassCopy(s);
          assert '<' !in s[1..];
          LinkPassOwnMarkup(s[1..]);
          OwnMarkupCons(s[0], LinkPass(s[1..]));
      }
    }
  }

  /** The placeholders hold no `<`, so neither does the text the code pass writes. */
  lemma {:induction false} CodePassNoAngle(s: string, n: nat)
    requires '<' !in s
    ensures '<' !in CodePass(s, n).0
    decreases |s|
  {
    if |s| > 0 {
      match CodeAt(s) {
        case Some(m) =>
          PlaceholderIsLike(n);
          assert '<' !in s[m.1..];
          CodePassNoAngle(s[m.1..], n + 1);
        case None =>
          assert '<' !in s[1..];
          CodePassNoAngle(s[1..], n);
      }
    }
  }

  // ---------------------------------------------------------------------------
  // applyInlineFormatting
  // ---------------------------------------------------------------------------

  /** On a text with no `<`, every `<` the inline pass writes starts
      `<strong>`, `<em>`, a closing tag, or a link to an `http`/`https`
      address; in particular it writes no `<code>`. */
  lemma InlineFormatOwnMarkup(input: string)
    requires '<' !in input
    ensures OwnMarkup(InlineFormat.InlineFormat(input))
  {
    RestoreFindsNothing(input);
    CodePassNoAngle(input, 0);
    LinkPassOwnMarkup(CodePass(input, 0).0);
    FormatEmphasisOwnMarkup(LinkPass(CodePass(input, 0).0));
  }

  /** What the renderer does with each piece of text: escape, then format. */
  lemma EscapedInlineOwnMarkup(text: string)
    ensures OwnMarkup(InlineFormat.InlineFormat(HtmlEscape.EscapeHtml(text)))
  {
    HtmlEscape.EscapeHtmlEscapes(text);
    InlineFormatOwnMarkup(HtmlEscape.EscapeHtml(text));
  }
}
