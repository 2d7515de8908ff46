/**
  The restore loop of `applyInlineFormatting` (popup.js:54-57) never finds a
  placeholder. Every placeholder `__CODE_PLACEHOLDER_<n>__` is itself a match
  of the `__(.+?)__` strong rule, and that rule rewrites every such text it
  meets, whatever surrounds it; the `*` emphasis rule that runs after it
  writes no new one. So the loop changes nothing, for every text and every
  number of code spans, and the text of a code span never comes back.
*/
module RestoreProperties {
  import opened Text
  import opened Wrappers
  import opened InlineFormat
  import opened InlineProperties

  /** `p` occurs nowhere in `s`. */
  predicate Absent(s: string, p: string) {
    forall i | 0 <= i < |s| :: !StartsWith(s[i..], p)
  }

  /** What the argument needs of a placeholder: two underscores at each end,
      no line terminator, no `<` or `>`, and more characters than the tags
      written around it. */
  predicate PlaceholderLike(p: string) {
    && |p| >= 10
    && p[0] == '_' && p[1] == '_' && p[|p| - 2] == '_' && p[|p| - 1] == '_'
    && '<' !in p && '>' !in p
    && forall k | 0 <= k < |p| :: !IsLineTerminator(p[k])
  }

  /** No `<`, `>` or line terminator in `s`. */
  predicate Plain(s: string) {
    && '<' !in s && '>' !in s
    && '\n' !in s && '\r' !in s && '\U{2028}' !in s && '\U{2029}' !in s
  }

  lemma DigitsArePlain(n: nat)
    ensures Plain(NatToString(n))
  {
    var digits := NatToString(n);
    forall k | 0 <= k < |digits|
      ensures digits[k] != '<' && digits[k] != '>' && !IsLineTerminator(digits[k])
    {
      assert IsDigit(digits[k]);
    }
  }

  lemma PlainConcat(a: string, b: string)
    requires Plain(a) && Plain(b)
    ensures Plain(a + b)
  {
  }

  lemma PlaceholderIsLike(n: nat)
    ensures PlaceholderLike(Placeholder(n))
  {
    var p := Placeholder(n);
    DigitsArePlain(n);
    assert Plain("__") && Plain(PlaceholderPrefix);
    PlainConcat("__", PlaceholderPrefix);
    PlainConcat("__" + PlaceholderPrefix, NatToString(n));
    PlainConcat("__" + PlaceholderPrefix + NatToString(n), "__");
    forall k | 0 <= k < |p| ensures !IsLineTerminator(p[k]) {
      assert p[k] in p;
    }
  }

  // ---------------------------------------------------------------------------
  // Where the lazy strong match closes
  // ---------------------------------------------------------------------------

  /** A `dd` after a stretch without line terminators closes the match. */
  lemma {:induction false} StrongCloseReaches(s: string, d: char, t: nat, e: nat)
    requires t <= e && e + 2 < |s| && s[e + 1] == d && s[e + 2] == d
    requires forall k | t <= k <= e :: !IsLineTerminator(s[k])
    ensures StrongClose(s, d, t).Some?
    decreases e - t
  {
    if !(t + 2 < |s| && s[t + 1] == d && s[t + 2] == d) {
      StrongCloseReaches(s, d, t + 1, e);
    }
  }

  /** Before the `dd` that closes the match, no `dd` follows a character
      of the content. */
  lemma {:induction false} StrongCloseFirst(s: string, d: char, t: nat)
    requires t <= |s| && StrongClose(s, d, t).Some?
    ensures forall k | t + 1 <= k < StrongClose(s, d, t).value :: !DoubleAt(s, d, k)
    decreases |s| - t
  {
    if !(t + 2 < |s| && s[t + 1] == d && s[t + 2] == d) {
      StrongCloseFirst(s, d, t + 1);
    }
  }

  /** A text that starts with a placeholder opens a `__` strong match. */
  lemma PlaceholderOpensStrong(s: string, p: string)
    requires PlaceholderLike(p)
    ensures StartsWith(s, p) ==> StrongAt(s, '_').Some?
  {
    if StartsWith(s, p) {
      StrongCloseReaches(s, '_', 2, |p| - 3);
    }
  }

  // ---------------------------------------------------------------------------
  // Occurrences across the rewritten text
  // ---------------------------------------------------------------------------

  lemma StartsWithCons(c: char, x: string, w: string)
    requires |w| > 0
    ensures StartsWith([c] + x, w) <==> c == w[0] && StartsWith(x, w[1..])
  {
    var y := [c] + x;
    if c == w[0] && StartsWith(x, w[1..]) {
      forall i | 0 <= i < |w| ensures y[i] == w[i] {
        if i > 0 {
          assert y[i] == x[i - 1] && w[i] == w[1..][i - 1];
        }
      }
    }
    if StartsWith(y, w) {
      forall i | 0 <= i < |w| - 1 ensures x[i] == w[1..][i] {
        assert y[i + 1] == x[i];
      }
    }
  }

  /** A `<` or `>` where `p` has none. */
  lemma Barrier(x: string, k: nat, p: string)
    requires k < |x| && k < |p| && (x[k] == '<' || x[k] == '>') && '<' !in p && '>' !in p
    ensures !StartsWith(x, p)
  {
    assert p[k] in p;
  }

  /** Two texts that agree on a window agree on whether `p` starts there. */
  lemma SharedWindow(x: string, i: nat, y: string, q: nat, p: string)
    requires i + |p| <= |x| && q + |p| <= |y|
    requires forall t | i <= t < i + |p| :: x[t] == y[t - i + q]
    ensures StartsWith(x[i..], p) ==> StartsWith(y[q..], p)
  {
    if StartsWith(x[i..], p) {
      forall t | 0 <= t < |p| ensures y[q..][t] == p[t] {
        assert x[i..][t] == x[i + t] == y[q + t];
      }
    }
  }

  lemma AbsentSuffix(s: string, k: nat, p: string)
    requires k <= |s| && Absent(s, p)
    ensures Absent(s[k..], p)
  {
    forall i | 0 <= i < |s[k..]| ensures !StartsWith(s[k..][i..], p) {
      assert s[k..][i..] == s[k + i..];
    }
  }

  lemma AbsentCons(c: char, x: string, p: string)
    requires Absent(x, p) && !StartsWith([c] + x, p)
    ensures Absent([c] + x, p)
  {
    var y := [c] + x;
    forall i | 0 < i < |y| ensures !StartsWith(y[i..], p) {
      assert y[i..] == x[i - 1..];
    }
  }

  // ---------------------------------------------------------------------------
  // The `__` rule removes every placeholder
  // ---------------------------------------------------------------------------

  /** A text the strong pass starts with a `<`-free `w` started with `w`. */
  lemma {:induction false} StrongPassBackPrefix(s: string, d: char, w: string)
    requires '<' !in w
    ensures StartsWith(StrongPass(s, d), w) ==> StartsWith(s, w)
    decreases |s|
  {
    if |w| > 0 && |s| > 0 {
      match StrongAt(s, d) {
        case Some(m) =>
          StrongPassTake(s, d, m.0, m.1);
          assert StrongPass(s, d)[0] == '<';
          assert w[0] in w;
        case None =>
          StrongPassCopy(s, d);
          StartsWithCons(s[0], StrongPass(s[1..], d), w);
          StrongPassBackPrefix(s[1..], d, w[1..]);
          StartsWithCons(s[0], s[1..], w);
          assert [s[0]] + s[1..] == s;
      }
    }
  }

  /** The markup of one strong match holds no placeholder: the tags stand
      in the way, and the content ends before the first `__`. */
  lemma StrongMatchDrops(s: string, j: nat, p: string, rest: string)
    requires PlaceholderLike(p) && 3 <= j && j + 2 <= |s|
    requires forall k | 3 <= k < j :: !DoubleAt(s, '_', k)
    requires Absent(rest, p)
    ensures Absent("<strong>" + s[2..j] + "</strong>" + rest, p)
  {
    var c := s[2..j];
    var out := "<strong>" + c + "</strong>" + rest;
    var close := 8 + |c|;
    var after := close + 9;
    assert out[7] == '>' && out[close] == '<' && out[close + 8] == '>';
    forall i | 0 <= i < |out| ensures !StartsWith(out[i..], p) {
      if i >= after {
        assert out[i..] == rest[i - after..];
      } else if i <= 7 {
        Barrier(out[i..], 7 - i, p);
      } else if i >= close {
        Barrier(out[i..], close + 8 - i, p);
      } else if i + |p| > close {
        Barrier(out[i..], close - i, p);
      } else {
        var k := i + |p| - 8;
        assert out[i + |p| - 2] == c[k - 2] == s[k];
        assert out[i + |p| - 1] == c[k - 1] == s[k + 1];
        assert !DoubleAt(s, '_', k);
        assert out[i..][|p| - 2] == out[i + |p| - 2] && out[i..][|p| - 1] == out[i + |p| - 1];
      }
    }
  }

  /** Whatever the text, the `__` rule leaves no placeholder in it. */
  lemma {:induction false} StrongPassDropsPlaceholder(s: string, p: string)
    requires PlaceholderLike(p)
    ensures Absent(StrongPass(s, '_'), p)
    decreases |s|
  {
    if |s| > 0 {
      match StrongAt(s, '_') {
        case Some(m) =>
          var j := StrongClose(s, '_', 2).value;
          StrongPassTake(s, '_', m.0, m.1);
          StrongPassDropsPlaceholder(s[j + 2..], p);
          StrongCloseFirst(s, '_', 2);
          StrongMatchDrops(s, j, p, StrongPass(s[j + 2..], '_'));
        case None =>
          var rest := StrongPass(s[1..], '_');
          StrongPassCopy(s, '_');
          StrongPassDropsPlaceholder(s[1..], p);
          PlaceholderOpensStrong(s, p);
          StartsWithCons(s[0], rest, p);
          StrongPassBackPrefix(s[1..], '_', p[1..]);
          StartsWithCons(s[0], s[1..], p);
          assert [s[0]] + s[1..] == s;
          AbsentCons(s[0], rest, p);
      }
    }
  }

  // ---------------------------------------------------------------------------
  // The `*` rule writes no placeholder
  // ---------------------------------------------------------------------------

  /** The emphasis scan, one step: a match at the start is replaced. */
  lemma EmPassTake(s: string, atStart: bool, out: string, k: nat)
    requires |s| > 0 && EmAt(s, atStart) == Some((out, k))
    ensures EmPass(s, atStart) == out + EmPass(s[k..], false)
  {
  }

  /** A text the emphasis pass starts with a `<`-free `w` started with `w`. */
  lemma {:induction false} EmPassBackPrefix(s: string, atStart: bool, w: string)
    requires '<' !in w
    ensures StartsWith(EmPass(s, atStart), w) ==> StartsWith(s, w)
    decreases |s|
  {
    if |w| > 0 && |s| > 0 {
      assert w[0] in w;
      match EmAt(s, atStart) {
        case Some(m) =>
          EmPassTake(s, atStart, m.0, m.1);
          if atStart && s[0] == '*' && EmClose(s, 0).Some? {
            assert EmPass(s, atStart)[0] == '<';
          } else {
            assert EmPass(s, atStart)[0] == s[0] && EmPass(s, atStart)[1] == '<';
            assert |w| > 1 ==> w[1] in w;
          }
        case None =>
          EmPassCopy(s, atStart);
          StartsWithCons(s[0], EmPass(s[1..], false), w);
          EmPassBackPrefix(s[1..], false, w[1..]);
          StartsWithCons(s[0], s[1..], w);
          assert [s[0]] + s[1..] == s;
      }
    }
  }

  /** The markup of one emphasis match holds no `p` that its input did not:
      the tags stand in the way, and the content is copied. */
  lemma EmTagKeepsAbsent(pre: string, c: string, rest: string, s: string, k: nat, p: string)
    requires |pre| <= 1 && k + |c| <= |s| && c == s[k..k + |c|]
    requires |p| >= 5 && '<' !in p && '>' !in p && Absent(s, p) && Absent(rest, p)
    ensures Absent(pre + "<em>" + c + "</em>" + rest, p)
  {
    var out := pre + "<em>" + c + "</em>" + rest;
    var open := |pre|;
    var close := open + 4 + |c|;
    var after := close + 5;
    assert out[open] == '<' && out[open + 3] == '>' && out[close] == '<' && out[close + 4] == '>';
    forall i | 0 <= i < |out| ensures !StartsWith(out[i..], p) {
      if i >= after {
        assert out[i..] == rest[i - after..];
      } else if i <= open {
        Barrier(out[i..], open - i, p);
      } else if i <= open + 3 {
        Barrier(out[i..], open + 3 - i, p);
      } else if i >= close {
        Barrier(out[i..], close + 4 - i, p);
      } else if i + |p| > close {
        Barrier(out[i..], close - i, p);
      } else {
        var q := k + (i - open - 4);
        forall t | i <= t < i + |p| ensures out[t] == s[t - i + q] {
          assert out[t] == c[t - open - 4];
        }
        SharedWindow(out, i, s, q, p);
      }
    }
  }

  /** One emphasis match: the markup and the rest of the scan hold no `p`. */
  lemma EmMatchKeepsAbsent(s: string, atStart: bool, p: string)
    requires |s| > 0 && EmAt(s, atStart).Some?
    requires |p| >= 5 && '<' !in p && '>' !in p && Absent(s, p)
    requires Absent(EmPass(s[EmAt(s, atStart).value.1..], false), p)
    ensures Absent(EmPass(s, atStart), p)
  {
    var m := EmAt(s, atStart).value;
    var rest := EmPass(s[m.1..], false);
    var j := m.1 - 1;
    EmPassTake(s, atStart, m.0, m.1);
    if atStart && s[0] == '*' && EmClose(s, 0).Some? {
      assert m.0 == [] + "<em>" + s[1..j] + "</em>";
      EmTagKeepsAbsent([], s[1..j], rest, s, 1, p);
    } else {
      EmTagKeepsAbsent([s[0]], s[2..j], rest, s, 2, p);
    }
  }

  /** One copied character: the copy starts no `p`, and the rest holds none. */
  lemma EmCopyKeepsAbsent(s: string, atStart: bool, p: string)
    requires |s| > 0 && EmAt(s, atStart).None?
    requires |p| >= 5 && '<' !in p && '>' !in p && Absent(s, p)
    requires Absent(EmPass(s[1..], false), p)
    ensures Absent(EmPass(s, atStart), p)
  {
    EmPassCopy(s, atStart);
    EmPassBackPrefix(s, atStart, p);
    assert s[0..] == s;
    AbsentCons(s[0], EmPass(s[1..], false), p);
  }

  /** The `*` rule keeps a text free of a `p` without `<` or `>`. */
  lemma {:induction false} EmPassKeepsAbsent(s: string, atStart: bool, p: string)
    requires |p| >= 5 && '<' !in p && '>' !in p && Absent(s, p)
    ensures Absent(EmPass(s, atStart), p)
    decreases |s|
  {
    if |s| > 0 {
      var k := if EmAt(s, atStart).Some? then EmAt(s, atStart).value.1 else 1;
      AbsentSuffix(s, k, p);
      EmPassKeepsAbsent(s[k..], false, p);
      if EmAt(s, atStart).Some? {
        EmMatchKeepsAbsent(s, atStart, p);
      } else {
        EmCopyKeepsAbsent(s, atStart, p);
      }
    }
  }

  // ---------------------------------------------------------------------------
  // The restore loop
  // ---------------------------------------------------------------------------

  /** The loop leaves a text with no placeholder in it as it is. */
  lemma {:induction false} RestoreUnchanged(x: string, codes: seq<string>)
    requires forall n: nat :: Absent(x, Placeholder(n))
    ensures Restore(x, codes) == x
    decreases |codes|
  {
    if |codes| > 0 {
      var last := |codes| - 1;
      RestoreUnchanged(x, codes[..last]);
      var p := Placeholder(last);
      assert Absent(x, p);
      assert Find(x, p, 0) == |x|;
      assert x[0..] == x;
    }
  }

  /** For every text, whatever its code spans, the restore loop finds nothing:
      the inline pass is the code scan, the link rule and the emphasis rules. */
  lemma RestoreFindsNothing(input: string)
    ensures InlineFormat.InlineFormat(input) == FormatEmphasis(LinkPass(CodePass(input, 0).0))
  {
    var linked := LinkPass(CodePass(input, 0).0);
    var bold := StrongPass(StrongPass(linked, '*'), '_');
    var x := FormatEmphasis(linked);
    forall n: nat ensures Absent(x, Placeholder(n)) {
      PlaceholderIsLike(n);
      StrongPassDropsPlaceholder(StrongPass(linked, '*'), Placeholder(n));
      EmPassKeepsAbsent(bold, true, Placeholder(n));
    }
    RestoreUnchanged(x, CodePass(input, 0).1);
  }

  /** The code span quirk on one span: its placeholder turns into bold
      `CODE_PLACEHOLDER_0` and the code text is gone. */
  lemma CodeSpanIsLost(code: string)
    requires code != [] && '`' !in code
    ensures InlineFormat.InlineFormat("`" + code + "`") == "<strong>" + PlaceholderName + "</strong>"
  {
    LastSpan(code, 0);
    PlaceholderNameShape();
    NoLink(Placeholder(0));
    PlaceholderTurnsBold();
    RestoreFindsNothing("`" + code + "`");
  }
}
