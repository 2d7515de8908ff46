/**
  HTML escaping of text before it is placed in markup: `escapeHtml` in the
  summary renderer (popup.js and reader-popup.js) and `esc` in the reply path
  of background.js are the same chain of four global replacements, `&` first.
*/
module HtmlEscape {
  import opened Text

  /** The entity that each of the four escaped characters becomes. */
  function EscapeChar(c: char): string {
    if c == '&' then "&amp;"
    else if c == '<' then "&lt;"
    else if c == '>' then "&gt;"
    else if c == '"' then "&quot;"
    else [c]
  }

  /** `str.replace(/c/g, rep)` for a one-character pattern `c`. */
  function ReplaceChar(s: string, c: char, rep: string): string {
    if |s| == 0 then "" else (if s[0] == c then rep else [s[0]]) + ReplaceChar(s[1..], c, rep)
  }

  /** The source's chain: `&`, then `<`, then `>`, then `"`. */
  function EscapeHtml(s: string): string {
    ReplaceChar(ReplaceChar(ReplaceChar(ReplaceChar(s, '&', "&amp;"), '<', "&lt;"), '>', "&gt;"), '"', "&quot;")
  }

  /** Character-by-character escaping: the reference the chain is proved equal to. */
  function EscapeEach(s: string): string {
    if |s| == 0 then "" else EscapeChar(s[0]) + EscapeEach(s[1..])
  }

  /** Reads the four entities back as the characters they stand for. */
  function Unescape(s: string): string
    decreases |s|
  {
    if |s| == 0 then ""
    else if StartsWith(s, "&amp;") then "&" + Unescape(s[5..])
    else if StartsWith(s, "&lt;") then "<" + Unescape(s[4..])
    else if StartsWith(s, "&gt;") then ">" + Unescape(s[4..])
    else if StartsWith(s, "&quot;") then "\"" + Unescape(s[6..])
    else [s[0]] + Unescape(s[1..])
  }

  /** None of `<`, `>` or `"`; every `&` opens one of the four entities. */
  predicate Escaped(r: string) {
    && (forall i | 0 <= i < |r| :: r[i] != '<' && r[i] != '>' && r[i] != '"')
    && (forall i | 0 <= i < |r| && r[i] == '&' ::
          StartsWith(r[i..], "&amp;") || StartsWith(r[i..], "&lt;")
          || StartsWith(r[i..], "&gt;") || StartsWith(r[i..], "&quot;"))
  }

  /** One step of the replacement. */
  lemma ReplaceCharCons(x: char, u: string, c: char, rep: string)
    ensures ReplaceChar([x] + u, c, rep) == (if x == c then rep else [x]) + ReplaceChar(u, c, rep)
  {
    var s := [x] + u;
    assert s[0] == x && s[1..] == u;
  }

  lemma {:induction false} ReplaceCharConcat(a: string, b: string, c: char, rep: string)
    ensures ReplaceChar(a + b, c, rep) == ReplaceChar(a, c, rep) + ReplaceChar(b, c, rep)
  {
    if |a| == 0 {
      assert a + b == b;
    } else {
      var t := a[1..];
      ReplaceCharConcat(t, b, c, rep);
      assert a == [a[0]] + t;
      assert a + b == [a[0]] + (t + b);
      ReplaceCharCons(a[0], t + b, c, rep);
      ReplaceCharCons(a[0], t, c, rep);
      var head := if a[0] == c then rep else [a[0]];
      Text.ConcatAssoc(head, ReplaceChar(t, c, rep), ReplaceChar(b, c, rep));
    }
  }

  lemma {:induction false} ReplaceCharAbsent(s: string, c: char, rep: string)
    requires c !in s
    ensures ReplaceChar(s, c, rep) == s
  {
    if |s| > 0 {
      ReplaceCharAbsent(s[1..], c, rep);
    }
  }

  lemma EscapeHtmlConcat(a: string, b: string)
    ensures EscapeHtml(a + b) == EscapeHtml(a) + EscapeHtml(b)
  {
    var a1, b1 := ReplaceChar(a, '&', "&amp;"), ReplaceChar(b, '&', "&amp;");
    ReplaceCharConcat(a, b, '&', "&amp;");
    var a2, b2 := ReplaceChar(a1, '<', "&lt;"), ReplaceChar(b1, '<', "&lt;");
    ReplaceCharConcat(a1, b1, '<', "&lt;");
    var a3, b3 := ReplaceChar(a2, '>', "&gt;"), ReplaceChar(b2, '>', "&gt;");
    ReplaceCharConcat(a2, b2, '>', "&gt;");
    ReplaceCharConcat(a3, b3, '"', "&quot;");
  }

  lemma ReplaceCharOne(x: char, c: char, rep: string)
    ensures ReplaceChar([x], c, rep) == if x == c then rep else [x]
  {
    assert [x][0] == x && [x][1..] == [];
  }

  /** The four replacements, given the result of each. */
  lemma EscapeChain(s: string, r1: string, r2: string, r3: string, r4: string)
    requires ReplaceChar(s, '&', "&amp;") == r1 && ReplaceChar(r1, '<', "&lt;") == r2
    requires ReplaceChar(r2, '>', "&gt;") == r3 && ReplaceChar(r3, '"', "&quot;") == r4
    ensures EscapeHtml(s) == r4
  {
  }

  /** Text holding none of the four characters is left as it is. */
  lemma EscapeHtmlPlain(s: string)
    requires '&' !in s && '<' !in s && '>' !in s && '"' !in s
    ensures EscapeHtml(s) == s
  {
    ReplaceCharAbsent(s, '&', "&amp;");
    ReplaceCharAbsent(s, '<', "&lt;");
    ReplaceCharAbsent(s, '>', "&gt;");
    ReplaceCharAbsent(s, '"', "&quot;");
    EscapeChain(s, s, s, s, s);
  }

  // An entity is not touched by the replacements after the one that wrote it.
  // The character and the entity are parameters so that the replacements are
  // not evaluated on literals.

  lemma EscapeHtmlAmp(x: char, e: string)
    requires x == '&' && e == "&amp;"
    ensures EscapeHtml([x]) == e
  {
    ReplaceCharOne(x, '&', e);
    ReplaceCharAbsent(e, '<', "&lt;");
    ReplaceCharAbsent(e, '>', "&gt;");
    ReplaceCharAbsent(e, '"', "&quot;");
    EscapeChain([x], e, e, e, e);
  }

  lemma EscapeHtmlLt(x: char, e: string)
    requires x == '<' && e == "&lt;"
    ensures EscapeHtml([x]) == e
  {
    ReplaceCharOne(x, '&', "&amp;");
    ReplaceCharOne(x, '<', e);
    ReplaceCharAbsent(e, '>', "&gt;");
    ReplaceCharAbsent(e, '"', "&quot;");
    EscapeChain([x], [x], e, e, e);
  }

  lemma EscapeHtmlGt(x: char, e: string)
    requires x == '>' && e == "&gt;"
    ensures EscapeHtml([x]) == e
  {
    ReplaceCharOne(x, '&', "&amp;");
    ReplaceCharOne(x, '<', "&lt;");
    ReplaceCharOne(x, '>', e);
    ReplaceCharAbsent(e, '"', "&quot;");
    EscapeChain([x], [x], [x], e, e);
  }

  lemma EscapeHtmlQuot(x: char, e: string)
    requires x == '"' && e == "&quot;"
    ensures EscapeHtml([x]) == e
  {
    ReplaceCharOne(x, '&', "&amp;");
    ReplaceCharOne(x, '<', "&lt;");
    ReplaceCharOne(x, '>', "&gt;");
    ReplaceCharOne(x, '"', e);
    EscapeChain([x], [x], [x], [x], e);
  }

  lemma EscapeHtmlOneChar(x: char)
    ensures EscapeHtml([x]) == EscapeChar(x)
  {
    if x == '&' {
      EscapeHtmlAmp(x, EscapeChar(x));
    } else if x == '<' {
      EscapeHtmlLt(x, EscapeChar(x));
    } else if x == '>' {
      EscapeHtmlGt(x, EscapeChar(x));
    } else if x == '"' {
      EscapeHtmlQuot(x, EscapeChar(x));
    } else {
      EscapeHtmlPlain([x]);
    }
  }

  /** The chain of four replacements escapes each character on its own: because
      `&` is replaced first, the `&` of the entities it writes is never escaped
      again, and an entity already in the input is escaped once more. */
  lemma {:induction false} EscapeHtmlIsCharwise(s: string)
    ensures EscapeHtml(s) == EscapeEach(s)
  {
    if |s| == 0 {
      assert EscapeHtml(s) == "";
    } else {
      EscapeHtmlIsCharwise(s[1..]);
      assert s == [s[0]] + s[1..];
      EscapeHtmlConcat([s[0]], s[1..]);
      EscapeHtmlOneChar(s[0]);
    }
  }

  /** An entity at the start of `a` is still there when more text follows. */
  lemma StartsWithExtended(a: string, b: string, p: string)
    requires StartsWith(a, p)
    ensures StartsWith(a + b, p)
  {
    assert forall k | 0 <= k < |p| :: (a + b)[k] == a[k];
  }

  /** Escaped texts put together stay escaped: each `&` keeps the entity it
      begins. */
  lemma EscapedConcat(e: string, t: string)
    requires Escaped(e) && Escaped(t)
    ensures Escaped(e + t)
  {
    var r := e + t;
    forall i | 0 <= i < |r|
      ensures r[i] != '<' && r[i] != '>' && r[i] != '"'
    {
      if i >= |e| { assert r[i] == t[i - |e|]; }
    }
    forall i | 0 <= i < |r| && r[i] == '&'
      ensures StartsWith(r[i..], "&amp;") || StartsWith(r[i..], "&lt;")
           || StartsWith(r[i..], "&gt;") || StartsWith(r[i..], "&quot;")
    {
      if i >= |e| {
        assert r[i..] == t[i - |e|..];
      } else {
        assert r[i..] == e[i..] + t;
        assert e[i] == '&';
        if StartsWith(e[i..], "&amp;") { StartsWithExtended(e[i..], t, "&amp;"); }
        else if StartsWith(e[i..], "&lt;") { StartsWithExtended(e[i..], t, "&lt;"); }
        else if StartsWith(e[i..], "&gt;") { StartsWithExtended(e[i..], t, "&gt;"); }
        else { StartsWithExtended(e[i..], t, "&quot;"); }
      }
    }
  }

  lemma EscapeCharEscaped(x: char)
    ensures Escaped(EscapeChar(x))
  {
    var e := EscapeChar(x);
    if x == '&' || x == '<' || x == '>' || x == '"' {
      assert forall i | 1 <= i < |e| :: e[i] != '&';
      assert e[0..] == e;
    }
  }

  lemma {:induction false} EscapeEachEscaped(s: string)
    ensures Escaped(EscapeEach(s))
  {
    if |s| > 0 {
      EscapeEachEscaped(s[1..]);
      EscapeCharEscaped(s[0]);
      EscapedConcat(EscapeChar(s[0]), EscapeEach(s[1..]));
    }
  }

  /** What `escapeHtml` promises: the output holds no raw `<`, `>` or `"`, and
      every `&` in it begins one of the entities `&amp;`, `&lt;`, `&gt;`, `&quot;`. */
  lemma EscapeHtmlEscapes(s: string)
    ensures Escaped(EscapeHtml(s))
  {
    EscapeHtmlIsCharwise(s);
    EscapeEachEscaped(s);
  }

  lemma UnescapeOneEscaped(c: char, t: string)
    ensures Unescape(EscapeChar(c) + t) == [c] + Unescape(t)
  {
    var e := EscapeChar(c);
    var r := e + t;
    assert r[|e|..] == t;
    if c == '&' {
      assert StartsWith(r, "&amp;");
    } else if c == '<' {
      assert r[1] == 'l' && StartsWith(r, "&lt;");
    } else if c == '>' {
      assert r[1] == 'g' && StartsWith(r, "&gt;");
    } else if c == '"' {
      assert r[1] == 'q' && StartsWith(r, "&quot;");
    } else {
      assert r[0] == c;
    }
  }

  lemma {:induction false} UnescapeEscapeEach(s: string)
    ensures Unescape(EscapeEach(s)) == s
  {
    if |s| > 0 {
      UnescapeEscapeEach(s[1..]);
      UnescapeOneEscaped(s[0], EscapeEach(s[1..]));
      assert s == [s[0]] + s[1..];
    }
  }

  /** Escaping loses nothing: reading the entities back gives the original text,
      so distinct texts escape to distinct markup. */
  lemma UnescapeEscapeHtml(s: string)
    ensures Unescape(EscapeHtml(s)) == s
  {
    EscapeHtmlIsCharwise(s);
    UnescapeEscapeEach(s);
  }

  /** An entity already present in the text is escaped again (`&` comes
      first): `&lt;` becomes `&amp;lt;`. */
  lemma EscapeHtmlReescapesEntities(t: string)
    requires '&' !in t && '<' !in t && '>' !in t && '"' !in t
    ensures EscapeHtml("&" + t) == "&amp;" + t
  {
    EscapeHtmlConcat("&", t);
    EscapeHtmlOneChar('&');
    EscapeHtmlPlain(t);
  }
}
