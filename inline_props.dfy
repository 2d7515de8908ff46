/**
  Properties of the inline pass: code spans are numbered in order of
  appearance, a link is written only for an `http` or `https` address, and
  the emphasis rule for `__` turns a code placeholder into bold text (module
  RestoreProperties shows that the restore loop then finds nothing).
*/
module InlineProperties {
  import opened Text
  import HtmlEscape
  import opened Wrappers
  import opened InlineFormat

  // ---------------------------------------------------------------------------
  // Searching past a prefix
  // ---------------------------------------------------------------------------

  lemma {:induction false} IndexOfPast(a: string, b: string, c: char, from: nat)
    requires from <= |b|
    ensures IndexOf(a + b, c, |a| + from) == |a| + IndexOf(b, c, from)
    decreases |b| - from
  {
    var s := a + b;
    assert s[|a| + from..] == b[from..];
    if from < |b| && b[from] != c {
      IndexOfPast(a, b, c, from + 1);
    }
  }

  lemma {:induction false} IndexOfSkips(a: string, b: string, c: char, from: nat)
    requires from <= |a| && forall k | from <= k < |a| :: a[k] != c
    ensures IndexOf(a + b, c, from) == |a| + IndexOf(b, c, 0)
    decreases |a| - from
  {
    if from == |a| {
      IndexOfPast(a, b, c, 0);
    } else {
      IndexOfSkips(a, b, c, from + 1);
    }
  }

  // ---------------------------------------------------------------------------
  // Code spans
  // ---------------------------------------------------------------------------

  /** The code scan, one step: a span at the start becomes the placeholder
      numbered by the count so far, and its content is pushed. */
  lemma CodePassTake(s: string, n: nat, code: string, k: nat)
    requires |s| > 0 && CodeAt(s) == Some((code, k))
    ensures CodePass(s, n) == (Placeholder(n) + CodePass(s[k..], n + 1).0, [code] + CodePass(s[k..], n + 1).1)
  {
  }

  /** The code scan, one step: a character that opens no span is copied. */
  lemma CodePassCopy(s: string, n: nat)
    requires |s| > 0 && CodeAt(s) == None
    ensures CodePass(s, n) == ([s[0]] + CodePass(s[1..], n).0, CodePass(s[1..], n).1)
  {
  }

  /** Text without a backtick passes the code scan unchanged. */
  lemma {:induction false} NoCodeSpan(s: string, n: nat)
    requires '`' !in s
    ensures CodePass(s, n) == (s, [])
    decreases |s|
  {
    if |s| > 0 {
      CodePassCopy(s, n);
      NoCodeSpan(s[1..], n);
      assert [s[0]] + s[1..] == s;
    }
  }

  /** Text without a backtick is copied and the scan goes on after it with
      the same count. */
  lemma {:induction false} CodePassCopies(a: string, rest: string, n: nat)
    requires '`' !in a
    ensures CodePass(a + rest, n) == (a + CodePass(rest, n).0, CodePass(rest, n).1)
    decreases |a|
  {
    if |a| > 0 {
      var s := a + rest;
      assert s[0] == a[0] && s[1..] == a[1..] + rest;
      CodePassCopy(s, n);
      CodePassCopies(a[1..], rest, n);
      ConcatAssoc([a[0]], a[1..], CodePass(rest, n).0);
      assert [a[0]] + a[1..] == a;
    } else {
      assert a + rest == rest;
      assert a + CodePass(rest, n).0 == CodePass(rest, n).0;
    }
  }

  /** Where the backticks of `` `code`rest `` are. */
  lemma SpanBounds(code: string, rest: string)
    requires code != [] && '`' !in code
    ensures var s := "`" + code + "`" + rest;
            && s[0] == '`'
            && IndexOf(s, '`', 1) == |code| + 1
            && s[|code| + 2..] == rest
            && s[1..|code| + 1] == code
  {
    var s := "`" + code + "`" + rest;
    var head, tail := "`" + code, "`" + rest;
    assert s == head + tail;
    assert forall k | 1 <= k < |head| :: head[k] == code[k - 1];
    IndexOfSkips(head, tail, '`', 1);
    assert IndexOf(tail, '`', 0) == 0;
  }

  /** A span opening the text becomes the placeholder numbered by the count
      so far, its content is pushed, and the scan goes on with the count one
      higher. */
  lemma CodePassTakesSpan(code: string, rest: string, n: nat)
    requires code != [] && '`' !in code
    ensures CodePass("`" + code + "`" + rest, n)
         == (Placeholder(n) + CodePass(rest, n + 1).0, [code] + CodePass(rest, n + 1).1)
  {
    var s := "`" + code + "`" + rest;
    SpanBounds(code, rest);
    assert CodeAt(s) == Some((code, |code| + 2));
    CodePassTake(s, n, code, |code| + 2);
  }

  lemma LastSpan(b: string, n: nat)
    requires b != [] && '`' !in b
    ensures CodePass("`" + b + "`", n) == (Placeholder(n), [b])
  {
    assert "`" + b + "`" == "`" + b + "`" + "";
    CodePassTakesSpan(b, "", n);
    NoCodeSpan("", n + 1);
    assert Placeholder(n) + "" == Placeholder(n);
    assert [b] + [] == [b];
  }

  lemma TextThenLastSpan(between: string, b: string, n: nat)
    requires b != [] && '`' !in b && '`' !in between
    ensures CodePass(between + "`" + b + "`", n) == (between + Placeholder(n), [b])
  {
    var tail := "`" + b + "`";
    assert between + "`" + b + "`" == between + tail;
    CodePassCopies(between, tail, n);
    LastSpan(b, n);
  }

  lemma PairOfSpans(r: (string, seq<string>), t: (string, seq<string>), p0: string, between: string, p1: string, a: string, b: string)
    requires r == (p0 + t.0, [a] + t.1) && t == (between + p1, [b])
    ensures r == (p0 + between + p1, [a, b])
  {
    ConcatAssoc(p0, between, p1);
    assert [a] + [b] == [a, b];
  }

  lemma SpanThenKnown(a: string, rest: string, n: nat, t: (string, seq<string>))
    requires a != [] && '`' !in a && CodePass(rest, n + 1) == t
    ensures CodePass("`" + a + "`" + rest, n) == (Placeholder(n) + t.0, [a] + t.1)
  {
    CodePassTakesSpan(a, rest, n);
  }

  lemma SpanThenRest(a: string, b: string, between: string)
    requires a != [] && '`' !in a && b != [] && '`' !in b && '`' !in between
    ensures CodePass("`" + a + "`" + (between + "`" + b + "`"), 0)
         == (Placeholder(0) + between + Placeholder(1), [a, b])
  {
    var rest := between + "`" + b + "`";
    var t := (between + Placeholder(1), [b]);
    TextThenLastSpan(between, b, 1);
    SpanThenKnown(a, rest, 0, t);
    PairOfSpans(CodePass("`" + a + "`" + rest, 0), t, Placeholder(0), between, Placeholder(1), a, b);
  }

  lemma TwoSpansRegrouped(a: string, b: string, between: string)
    ensures "`" + a + "`" + between + "`" + b + "`" == "`" + a + "`" + (between + "`" + b + "`")
  {
    var h := "`" + a + "`";
    ConcatAssoc(h, between, "`");
    ConcatAssoc(h, between + "`", b);
    ConcatAssoc(h, between + "`" + b, "`");
  }

  /** Two spans are numbered 0 and 1, in order, and their contents pushed in
      the same order. */
  lemma CodeSpansInOrder(a: string, b: string, between: string)
    requires a != [] && '`' !in a && b != [] && '`' !in b && '`' !in between
    ensures CodePass("`" + a + "`" + between + "`" + b + "`", 0)
         == (Placeholder(0) + between + Placeholder(1), [a, b])
  {
    TwoSpansRegrouped(a, b, between);
    SpanThenRest(a, b, between);
  }

  /** Every pushed code is non-empty and holds no backtick. */
  lemma {:induction false} CodesAreSpans(s: string, n: nat)
    ensures forall i | 0 <= i < |CodePass(s, n).1| :: CodePass(s, n).1[i] != [] && '`' !in CodePass(s, n).1[i]
    decreases |s|
  {
    if |s| > 0 {
      match CodeAt(s) {
        case Some(m) =>
          CodePassTake(s, n, m.0, m.1);
          CodesAreSpans(s[m.1..], n + 1);
          IndexOfIsFirst(s, '`', 1);
          forall k | 0 <= k < |m.0| ensures m.0[k] != '`' {
            assert m.0[k] == s[1 + k];
          }
        case None =>
          CodePassCopy(s, n);
          CodesAreSpans(s[1..], n);
      }
    }
  }

  // ---------------------------------------------------------------------------
  // Links
  // ---------------------------------------------------------------------------

  const LinkAttributes: string := "\" target=\"_blank\" rel=\"noreferrer noopener\">"

  lemma {:induction false} ReplaceCharRemoves(s: string, c: char, rep: string)
    requires c !in rep
    ensures c !in HtmlEscape.ReplaceChar(s, c, rep)
  {
    if |s| > 0 {
      ReplaceCharRemoves(s[1..], c, rep);
    }
  }

  lemma KeepsPrefix(s: string, k: nat, c: char, rep: string)
    requires k <= |s| && c !in s[..k]
    ensures HtmlEscape.ReplaceChar(s, c, rep) == s[..k] + HtmlEscape.ReplaceChar(s[k..], c, rep)
  {
    assert s == s[..k] + s[k..];
    HtmlEscape.ReplaceCharConcat(s[..k], s[k..], c, rep);
    HtmlEscape.ReplaceCharAbsent(s[..k], c, rep);
  }

  lemma QuotingKeepsScheme(u: string)
    requires HasWebScheme(u)
    ensures HasWebScheme(HtmlEscape.ReplaceChar(u, '"', "&quot;"))
  {
    var k := if StartsWithIgnoreCase(u, "http://") then 7 else 8;
    assert '"' !in u[..k] by {
      forall i | 0 <= i < k ensures u[..k][i] != '"' {
        assert LowerAscii(u[i]) != '"';
      }
    }
    KeepsPrefix(u, k, '"', "&quot;");
  }

  /** The link callback: when the trimmed address starts with `http://` or
      `https://`, in any letter case, the label becomes the text of an `<a>`
      whose `href` keeps that scheme and holds no `"`; otherwise only the
      formatted label remains. */
  lemma LinkReplacementCases(text: string, url: string)
    ensures !HasWebScheme(Trim(url)) ==> LinkReplacement(text, url) == FormatEmphasis(text)
    ensures HasWebScheme(Trim(url)) ==>
      exists href ::
        && LinkReplacement(text, url) == "<a href=\"" + href + LinkAttributes + FormatEmphasis(text) + "</a>"
        && HasWebScheme(href)
        && '"' !in href
  {
    if HasWebScheme(Trim(url)) {
      var href := HtmlEscape.ReplaceChar(Trim(url), '"', "&quot;");
      ReplaceCharRemoves(Trim(url), '"', "&quot;");
      QuotingKeepsScheme(Trim(url));
      assert LinkReplacement(text, url) == "<a href=\"" + href + LinkAttributes + FormatEmphasis(text) + "</a>";
    }
  }

  /** The link scan, one step: a match at the start is replaced. */
  lemma LinkPassTake(s: string, out: string, k: nat)
    requires |s| > 0 && LinkAt(s) == Some((out, k))
    ensures LinkPass(s) == out + LinkPass(s[k..])
  {
  }

  /** The link scan, one step: a character that opens no link is copied. */
  lemma LinkPassCopy(s: string)
    requires |s| > 0 && LinkAt(s) == None
    ensures LinkPass(s) == [s[0]] + LinkPass(s[1..])
  {
  }

  /** A `[label](url)` at the start of the text, with a non-empty label up
      to the first `]` and a non-empty address up to the first `)`, is
      replaced by the callback's result, and the scan goes on after it. */
  lemma LinkPassTakesLink(caption: string, url: string, rest: string)
    requires caption != [] && ']' !in caption && url != [] && ')' !in url
    ensures LinkPass("[" + caption + "](" + url + ")" + rest) == LinkReplacement(caption, url) + LinkPass(rest)
  {
    var s := "[" + caption + "](" + url + ")" + rest;
    var k, e := |caption| + 1, |caption| + 3 + |url|;
    LinkBounds(caption, url, rest);
    LinkAtBrackets(s, k, e);
    LinkPassTake(s, LinkReplacement(caption, url), e + 1);
  }

  /** A link at the start whose `]` is at `k` and whose `)` is at `e`. */
  lemma LinkAtBrackets(s: string, k: nat, e: nat)
    requires e < |s| && s[0] == '[' && 1 < k && k + 2 < e
    requires IndexOf(s, ']', 1) == k && s[k + 1] == '(' && IndexOf(s, ')', k + 2) == e
    ensures LinkAt(s) == Some((LinkReplacement(s[1..k], s[k + 2..e]), e + 1))
  {
  }

  /** Where the brackets of `[caption](url)rest` are. */
  lemma LinkBounds(caption: string, url: string, rest: string)
    requires caption != [] && ']' !in caption && url != [] && ')' !in url
    ensures var s := "[" + caption + "](" + url + ")" + rest;
            var k, e := |caption| + 1, |caption| + 3 + |url|;
            && e < |s| && s[0] == '['
            && IndexOf(s, ']', 1) == k && s[k + 1] == '('
            && IndexOf(s, ')', k + 2) == e
            && s[1..k] == caption && s[k + 2..e] == url && s[e + 1..] == rest
  {
    var s := "[" + caption + "](" + url + ")" + rest;
    var k := |caption| + 1;
    assert s == "[" + caption + ("](" + url + ")" + rest);
    IndexOfSkips("[" + caption, "](" + url + ")" + rest, ']', 1);
    assert s == ("[" + caption + "](" + url) + (")" + rest);
    IndexOfSkips("[" + caption + "](" + url, ")" + rest, ')', k + 2);
  }

  /** Text without `[` passes the link scan unchanged. */
  lemma {:induction false} NoLink(s: string)
    requires '[' !in s
    ensures LinkPass(s) == s
    decreases |s|
  {
    if |s| > 0 {
      LinkPassCopy(s);
      NoLink(s[1..]);
      assert [s[0]] + s[1..] == s;
    }
  }

  /** The address check ignores letter case and looks at nothing but the
      scheme: `HTTPS://` passes, `javascript:` does not. */
  lemma WebSchemeExamples()
    ensures HasWebScheme("HTTPS://example.org")
    ensures !HasWebScheme("javascript:alert(1)")
    ensures !HasWebScheme("ftp://example.org")
  {
    assert LowerAscii("javascript:alert(1)"[0]) == 'j';
    assert LowerAscii("ftp://example.org"[0]) == 'f';
  }

  // ---------------------------------------------------------------------------
  // The placeholder is swallowed by the `__` rule
  // ---------------------------------------------------------------------------

  /** A doubled `d` starts at `k`. */
  predicate DoubleAt(s: string, d: char, k: nat) {
    k + 1 < |s| && s[k] == d && s[k + 1] == d
  }

  /** No two consecutive underscores. */
  predicate NoDoubleUnderscore(s: string) {
    forall i | 0 <= i < |s| :: !DoubleAt(s, '_', i)
  }

  lemma {:induction false} StrongCloseFinds(s: string, d: char, t: nat, j: nat)
    requires t + 1 <= j && j + 2 <= |s| && s[j] == d && s[j + 1] == d
    requires forall k | t <= k < j :: !IsLineTerminator(s[k])
    requires forall k | t + 1 <= k < j :: !DoubleAt(s, d, k)
    ensures StrongClose(s, d, t) == Some(j)
    decreases j - t
  {
    if t + 1 < j {
      assert !DoubleAt(s, d, t + 1);
      StrongCloseFinds(s, d, t + 1, j);
    }
  }

  /** The strong scan, one step: a match at the start is replaced. */
  lemma StrongPassTake(s: string, d: char, out: string, k: nat)
    requires |s| > 0 && StrongAt(s, d) == Some((out, k))
    ensures StrongPass(s, d) == out + StrongPass(s[k..], d)
  {
  }

  /** The strong scan, one step: a character that opens no match is copied. */
  lemma StrongPassCopy(s: string, d: char)
    requires |s| > 0 && StrongAt(s, d) == None
    ensures StrongPass(s, d) == [s[0]] + StrongPass(s[1..], d)
  {
  }

  lemma {:induction false} StrongPassNoDelimiter(s: string, d: char)
    requires d !in s
    ensures StrongPass(s, d) == s
    decreases |s|
  {
    if |s| > 0 {
      StrongPassCopy(s, d);
      StrongPassNoDelimiter(s[1..], d);
      assert [s[0]] + s[1..] == s;
    }
  }

  /** The emphasis scan, one step: a character that opens no match is copied. */
  lemma EmPassCopy(s: string, atStart: bool)
    requires |s| > 0 && EmAt(s, atStart) == None
    ensures EmPass(s, atStart) == [s[0]] + EmPass(s[1..], false)
  {
  }

  lemma {:induction false} EmPassNoStar(s: string, atStart: bool)
    requires '*' !in s
    ensures EmPass(s, atStart) == s
    decreases |s|
  {
    if |s| > 0 {
      EmPassCopy(s, atStart);
      EmPassNoStar(s[1..], false);
      assert [s[0]] + s[1..] == s;
    }
  }

  /** Text with neither `*` nor `_` leaves `formatEmphasis` as it came. */
  lemma FormatEmphasisPlain(s: string)
    requires '*' !in s && '_' !in s
    ensures FormatEmphasis(s) == s
  {
    StrongPassNoDelimiter(s, '*');
    StrongPassNoDelimiter(s, '_');
    EmPassNoStar(s, true);
  }

  /** The positions of `__w__`. */
  lemma Underscored(w: string)
    ensures var s := "__" + w + "__";
            && |s| == |w| + 4
            && s[0] == '_' && s[1] == '_' && s[|w| + 2] == '_' && s[|w| + 3] == '_'
            && (forall k | 0 <= k < |w| :: s[k + 2] == w[k])
            && s[2..|w| + 2] == w
            && s[..0] == [] && s[|w| + 4..] == []
  {
  }

  /** Inside `__w__`, between the delimiters, no `__` starts and no line ends. */
  lemma UnderscoredInside(w: string)
    requires w != [] && NoDoubleUnderscore(w) && w[|w| - 1] != '_'
    requires forall k | 0 <= k < |w| :: !IsLineTerminator(w[k])
    ensures var s := "__" + w + "__";
            && (forall k | 2 <= k < |w| + 2 :: !IsLineTerminator(s[k]))
            && (forall k | 3 <= k < |w| + 2 :: !DoubleAt(s, '_', k))
  {
    var s := "__" + w + "__";
    Underscored(w);
    forall k | 2 <= k < |w| + 2 ensures !IsLineTerminator(s[k]) {
      assert s[(k - 2) + 2] == w[k - 2];
    }
    forall k | 3 <= k < |w| + 2 ensures !DoubleAt(s, '_', k) {
      assert s[(k - 2) + 2] == w[k - 2];
      if k + 1 < |w| + 2 {
        assert s[(k - 1) + 2] == w[k - 1];
        assert !DoubleAt(w, '_', k - 2);
      }
    }
  }

  /** A strong match at the start whose closing `dd` is at `j`. */
  lemma StrongAtClose(s: string, d: char, j: nat)
    requires |s| > 1 && s[0] == d && s[1] == d && StrongClose(s, d, 2) == Some(j)
    ensures StrongAt(s, d) == Some(("<strong>" + s[2..j] + "</strong>", j + 2))
  {
  }

  /** A bold match that takes the whole text. */
  lemma StrongPassWhole(s: string, d: char, out: string)
    requires |s| > 0 && StrongAt(s, d) == Some((out, |s|))
    ensures StrongPass(s, d) == out
  {
    StrongPassTake(s, d, out, |s|);
    assert StrongPass(s[|s|..], d) == [];
    assert out + [] == out;
  }

  /** `ddwdd`, with no line break and no `dd` inside, is bold `w`. */
  lemma StrongOfDelimited(s: string, d: char, w: string)
    requires w != [] && |s| == |w| + 4 && s[0] == d && s[1] == d && s[|w| + 2] == d && s[|w| + 3] == d
    requires s[2..|w| + 2] == w
    requires forall k | 2 <= k < |w| + 2 :: !IsLineTerminator(s[k])
    requires forall k | 3 <= k < |w| + 2 :: !DoubleAt(s, d, k)
    ensures StrongPass(s, d) == "<strong>" + w + "</strong>"
  {
    StrongCloseFinds(s, d, 2, |w| + 2);
    StrongAtClose(s, d, |w| + 2);
    StrongPassWhole(s, d, "<strong>" + w + "</strong>");
  }

  /** `__w__`, with no line break and no `__` inside `w`, is bold `w`. */
  lemma StrongUnderscores(w: string)
    requires w != [] && NoDoubleUnderscore(w) && w[|w| - 1] != '_'
    requires forall k | 0 <= k < |w| :: !IsLineTerminator(w[k])
    ensures StrongPass("__" + w + "__", '_') == "<strong>" + w + "</strong>"
  {
    var s := "__" + w + "__";
    Underscored(w);
    UnderscoredInside(w);
    assert |s| == |w| + 4 && s[0] == '_' && s[1] == '_' && s[|w| + 2] == '_' && s[|w| + 3] == '_';
    StrongOfDelimited(s, '_', w);
  }

  lemma NoPlaceholderIn(x: string, n: nat, rep: string)
    requires NoDoubleUnderscore(x)
    ensures ReplaceAll(x, Placeholder(n), rep) == x
  {
    var p := Placeholder(n);
    assert p[0] == '_' && p[1] == '_';
    forall i | 0 <= i < |x| ensures !StartsWith(x[i..], p) {
      assert !DoubleAt(x, '_', i);
    }
    assert Find(x, p, 0) == |x|;
    assert x[0..] == x;
  }

  /** The text between the underscores of the first placeholder. */
  const PlaceholderName: string := PlaceholderPrefix + "0"

  lemma PlaceholderSpelled()
    ensures Placeholder(0) == "__" + PlaceholderName + "__"
  {
    assert NatToString(0) == "0";
    ConcatAssoc("__", PlaceholderPrefix, "0");
  }

  lemma NameHasNoDoubleUnderscore()
    ensures NoDoubleUnderscore(PlaceholderName)
  {
    var w := PlaceholderName;
    forall i | 0 <= i < |w| ensures !DoubleAt(w, '_', i) {
      assert i != 4 && i != 16 ==> w[i] != '_';
    }
  }

  lemma NameHasNoSpecials()
    ensures |PlaceholderName| == 18 && PlaceholderName[17] == '0'
    ensures forall k | 0 <= k < |PlaceholderName| :: !IsLineTerminator(PlaceholderName[k])
    ensures '[' !in PlaceholderName && '*' !in PlaceholderName
  {
  }

  lemma PlaceholderNameShape()
    ensures Placeholder(0) == "__" + PlaceholderName + "__"
    ensures PlaceholderName != [] && PlaceholderName[|PlaceholderName| - 1] != '_'
    ensures NoDoubleUnderscore(PlaceholderName)
    ensures forall k | 0 <= k < |PlaceholderName| :: !IsLineTerminator(PlaceholderName[k])
    ensures '[' !in Placeholder(0) && '*' !in Placeholder(0)
  {
    PlaceholderSpelled();
    NameHasNoDoubleUnderscore();
    NameHasNoSpecials();
    var p := Placeholder(0);
    assert forall k | 2 <= k < |p| - 2 :: p[k] == PlaceholderName[k - 2];
  }

  /** `__w__`, with no star, no line break and no `__` inside `w`, comes out
      of the emphasis pass as bold `w`. */
  lemma BoldOfUnderscored(w: string)
    requires w != [] && NoDoubleUnderscore(w) && w[|w| - 1] != '_' && '*' !in w
    requires forall k | 0 <= k < |w| :: !IsLineTerminator(w[k])
    ensures FormatEmphasis("__" + w + "__") == "<strong>" + w + "</strong>"
  {
    var p := "__" + w + "__";
    assert '*' !in p;
    StrongPassNoDelimiter(p, '*');
    StrongUnderscores(w);
    var x := "<strong>" + w + "</strong>";
    assert '*' !in x;
    EmPassNoStar(x, true);
  }

  /** The emphasis pass turns the first placeholder into bold text. */
  lemma PlaceholderTurnsBold()
    ensures FormatEmphasis(Placeholder(0)) == "<strong>" + PlaceholderName + "</strong>"
  {
    PlaceholderNameShape();
    assert '*' !in PlaceholderName;
    BoldOfUnderscored(PlaceholderName);
  }
}
