/**
  String primitives of JavaScript that the extension relies on, stated over
  `seq<char>`: the whitespace class `\s` (which is also what `trim` removes),
  `trim`/`trimStart`/`trimEnd`, `split` and `join` on a one-character separator,
  the `\r\n` to `\n` normalisation, decimal rendering of a counter, and
  ASCII case folding as used by the `i` flag on ASCII patterns.
*/
module Text {

  /** ECMAScript's WhiteSpace and LineTerminator code points: the class `\s`,
      and exactly what `String.prototype.trim` strips. */
  predicate IsSpace(c: char) {
    || c == '\t' || c == '\n' || c == '\U{000B}' || c == '\U{000C}' || c == '\r' || c == ' '
    || c == '\U{00A0}' || c == '\U{1680}' || ('\U{2000}' <= c <= '\U{200A}')
    || c == '\U{2028}' || c == '\U{2029}' || c == '\U{202F}' || c == '\U{205F}'
    || c == '\U{3000}' || c == '\U{FEFF}'
  }

  /** The characters that `.` does not match in a regular expression without the `s` flag. */
  predicate IsLineTerminator(c: char) {
    c == '\n' || c == '\r' || c == '\U{2028}' || c == '\U{2029}'
  }

  /** `\d` */
  predicate IsDigit(c: char) { '0' <= c <= '9' }

  /** `\w`, the word characters that decide where `\b` stands. */
  predicate IsWordChar(c: char) {
    ('a' <= c <= 'z') || ('A' <= c <= 'Z') || IsDigit(c) || c == '_'
  }

  predicate AllSpace(s: string) {
    forall i | 0 <= i < |s| :: IsSpace(s[i])
  }

  predicate NoLineTerminator(s: string) {
    forall i | 0 <= i < |s| :: !IsLineTerminator(s[i])
  }

  predicate StartsWith(s: string, prefix: string) {
    |prefix| <= |s| && forall i | 0 <= i < |prefix| :: s[i] == prefix[i]
  }

  /** The `i` flag applied to an ASCII pattern: only ASCII letters fold. */
  function LowerAscii(c: char): char {
    if 'A' <= c <= 'Z' then (c as int + 32) as char else c
  }

  /** `s` starts with `prefix`, compared as a case-insensitive ASCII pattern;
      `prefix` is written in lower case. */
  predicate StartsWithIgnoreCase(s: string, prefix: string) {
    |prefix| <= |s| && forall i | 0 <= i < |prefix| :: LowerAscii(s[i]) == prefix[i]
  }

  /** `String.prototype.trimStart` (and the regex replacement `/^\s+/`). */
  function TrimStart(s: string): string {
    if |s| > 0 && IsSpace(s[0]) then TrimStart(s[1..]) else s
  }

  /** `String.prototype.trimEnd` (and the regex replacement `/\s+$/`). */
  function TrimEnd(s: string): string {
    if |s| > 0 && IsSpace(s[|s| - 1]) then TrimEnd(s[..|s| - 1]) else s
  }

  /** `String.prototype.trim`. */
  function Trim(s: string): string {
    TrimStart(TrimEnd(s))
  }

  /** `trimStart` removes a prefix of whitespace and nothing else. */
  lemma {:induction false} TrimStartSpec(s: string)
    ensures |TrimStart(s)| <= |s| && TrimStart(s) == s[|s| - |TrimStart(s)|..]
    ensures AllSpace(s[..|s| - |TrimStart(s)|])
    ensures TrimStart(s) == [] || !IsSpace(TrimStart(s)[0])
  {
    if |s| > 0 && IsSpace(s[0]) {
      TrimStartSpec(s[1..]);
      var r := TrimStart(s[1..]);
      assert s[..|s| - |r|] == [s[0]] + s[1..][..|s| - 1 - |r|];
    }
  }

  /** `trimEnd` removes a suffix of whitespace and nothing else. */
  lemma {:induction false} TrimEndSpec(s: string)
    ensures |TrimEnd(s)| <= |s| && TrimEnd(s) == s[..|TrimEnd(s)|]
    ensures AllSpace(s[|TrimEnd(s)|..])
    ensures TrimEnd(s) == [] || !IsSpace(TrimEnd(s)[|TrimEnd(s)| - 1])
  {
    if |s| > 0 && IsSpace(s[|s| - 1]) {
      TrimEndSpec(s[..|s| - 1]);
      var r := TrimEnd(s[..|s| - 1]);
      assert s[|r|..] == s[..|s| - 1][|r|..] + [s[|s| - 1]];
    }
  }

  /** `trim` leaves nothing exactly when the text is all whitespace, and
      otherwise neither end of what it leaves is whitespace. */
  lemma TrimSpec(s: string)
    ensures Trim(s) == [] <==> AllSpace(s)
    ensures Trim(s) != [] ==> !IsSpace(Trim(s)[0]) && !IsSpace(Trim(s)[|Trim(s)| - 1])
    ensures |Trim(s)| <= |s|
  {
    var e := TrimEnd(s);
    var r := TrimStart(e);
    TrimEndSpec(s);
    TrimStartSpec(e);
    if r == [] {
      assert AllSpace(e) by { assert e[..|e| - |r|] == e; }
      forall i | 0 <= i < |s| ensures IsSpace(s[i]) {
        if i >= |e| { assert s[i] == s[|e|..][i - |e|]; }
      }
    } else {
      assert r[0] == e[|e| - |r|];
      assert r[|r| - 1] == e[|e| - 1];
      assert !AllSpace(s) by { assert !IsSpace(s[|e| - 1]); }
    }
  }

  /** Concatenation regrouped (a helper that keeps the solver away from
      extensional equality in larger proofs). */
  lemma ConcatAssoc<T>(a: seq<T>, b: seq<T>, c: seq<T>)
    ensures a + b + c == a + (b + c)
  {
  }

  /** Leading whitespace is all that `trimStart` removes. */
  lemma {:induction false} TrimStartOfPadded(a: string, x: string)
    requires AllSpace(a)
    requires x == [] || !IsSpace(x[0])
    ensures TrimStart(a + x) == x
  {
    if |a| == 0 {
      assert a + x == x;
    } else {
      TrimStartOfPadded(a[1..], x);
      assert (a + x)[1..] == a[1..] + x;
    }
  }

  /** Trailing whitespace is all that `trimEnd` removes. */
  lemma {:induction false} TrimEndOfPadded(x: string, b: string)
    requires AllSpace(b)
    requires x == [] || !IsSpace(x[|x| - 1])
    ensures TrimEnd(x + b) == x
  {
    if |b| == 0 {
      assert x + b == x;
    } else {
      var n := |b| - 1;
      TrimEndOfPadded(x, b[..n]);
      assert (x + b)[..|x + b| - 1] == x + b[..n];
    }
  }

  /** `trim` gives back exactly the text between leading and trailing whitespace. */
  lemma TrimOfPadded(a: string, r: string, b: string)
    requires AllSpace(a) && AllSpace(b)
    requires r == [] || (!IsSpace(r[0]) && !IsSpace(r[|r| - 1]))
    ensures Trim(a + r + b) == r
  {
    var s := a + r + b;
    if r == [] {
      forall i | 0 <= i < |s| ensures IsSpace(s[i]) {
        if i < |a| { assert s[i] == a[i]; } else { assert s[i] == b[i - |a|]; }
      }
      TrimSpec(s);
    } else {
      TrimEndOfPadded(a + r, b);
      TrimStartOfPadded(a, r);
    }
  }

  /** Text with no whitespace at either end (what `trim` leaves). */
  predicate Trimmed(s: string) {
    s == [] || (!IsSpace(s[0]) && !IsSpace(s[|s| - 1]))
  }

  lemma TrimOfTrimmed(body: string)
    requires Trimmed(body)
    ensures Trim(body) == body
  {
    TrimOfPadded("", body, "");
    assert "" + body + "" == body;
  }

  /** Leading whitespace changes nothing that `trimStart` leaves. */
  lemma {:induction false} TrimStartSkipsSpace(a: string, y: string)
    requires AllSpace(a)
    ensures TrimStart(a + y) == TrimStart(y)
    decreases |a|
  {
    if |a| == 0 {
      assert a + y == y;
    } else {
      TrimStartSkipsSpace(a[1..], y);
      assert (a + y)[1..] == a[1..] + y;
    }
  }

  /** `trimEnd` stops inside the last part when that part is not all whitespace. */
  lemma {:induction false} TrimEndKeepsPrefix(a: string, x: string)
    requires !AllSpace(x)
    ensures TrimEnd(a + x) == a + TrimEnd(x)
    decreases |x|
  {
    var n := |x| - 1;
    if IsSpace(x[n]) {
      var i :| 0 <= i < |x| && !IsSpace(x[i]);
      assert x[..n][i] == x[i];
      TrimEndKeepsPrefix(a, x[..n]);
      assert (a + x)[..|a + x| - 1] == a + x[..n];
    }
  }

  /** Leading whitespace changes nothing that `trim` leaves. */
  lemma TrimSkipsSpace(a: string, x: string)
    requires AllSpace(a)
    ensures Trim(a + x) == Trim(x)
  {
    if AllSpace(x) {
      forall i | 0 <= i < |a + x| ensures IsSpace((a + x)[i]) {
        if i < |a| { assert (a + x)[i] == a[i]; } else { assert (a + x)[i] == x[i - |a|]; }
      }
      TrimSpec(a + x);
      TrimSpec(x);
    } else {
      TrimEndKeepsPrefix(a, x);
      TrimStartSkipsSpace(a, TrimEnd(x));
    }
  }

  /** `trim` after `trimStart` is `trim`. */
  lemma TrimOfTrimStart(x: string)
    ensures Trim(TrimStart(x)) == Trim(x)
  {
    TrimStartSpec(x);
    var k := |x| - |TrimStart(x)|;
    assert x == x[..k] + TrimStart(x);
    TrimSkipsSpace(x[..k], TrimStart(x));
  }

  /** The first index at or after `from` holding `c`, or `|s|` when there is none. */
  function IndexOf(s: string, c: char, from: nat): (i: nat)
    requires from <= |s|
    ensures from <= i <= |s|
    ensures i < |s| ==> s[i] == c
    decreases |s| - from
  {
    if from == |s| || s[from] == c then from else IndexOf(s, c, from + 1)
  }

  /** `IndexOf` finds the first `c` at or after `from`. */
  lemma {:induction false} IndexOfIsFirst(s: string, c: char, from: nat)
    requires from <= |s|
    ensures forall k | from <= k < IndexOf(s, c, from) :: s[k] != c
    decreases |s| - from
  {
    if from < |s| && s[from] != c {
      IndexOfIsFirst(s, c, from + 1);
    }
  }

  /** `Array.prototype.join(sep)` on strings. */
  function Join(parts: seq<string>, sep: string): string {
    if |parts| == 0 then ""
    else if |parts| == 1 then parts[0]
    else parts[0] + sep + Join(parts[1..], sep)
  }

  /** `Array.prototype.join("")`. */
  function Concat(parts: seq<string>): string {
    if |parts| == 0 then "" else parts[0] + Concat(parts[1..])
  }

  /** `String.prototype.split(sep)` with a one-character string separator:
      it always yields at least one part, no part holds the separator, and
      joining the parts with the separator gives the input back. */
  function Split(s: string, sep: char): (parts: seq<string>)
    ensures |parts| >= 1
    ensures forall i | 0 <= i < |parts| :: sep !in parts[i]
    ensures Join(parts, [sep]) == s
  {
    if |s| == 0 then [""]
    else
      var rest := Split(s[1..], sep);
      if s[0] == sep then
        var parts := [""] + rest;
        assert parts[1..] == rest;
        parts
      else
        var parts := [[s[0]] + rest[0]] + rest[1..];
        assert parts[1..] == rest[1..];
        assert |rest| > 1 ==> Join(rest, [sep]) == rest[0] + [sep] + Join(rest[1..], [sep]);
        parts
  }

  /** The replacement `/\r\n/g` to `"\n"`, scanning left to right. */
  function NormalizeNewlines(s: string): (r: string)
    ensures '\r' !in s ==> r == s
    ensures |r| <= |s|
  {
    if |s| == 0 then ""
    else if |s| >= 2 && s[0] == '\r' && s[1] == '\n' then "\n" + NormalizeNewlines(s[2..])
    else
      assert '\r' !in s ==> '\r' !in s[1..];
      [s[0]] + NormalizeNewlines(s[1..])
  }

  /** The string with every `c` removed. */
  function Without(s: string, c: char): string {
    if |s| == 0 then "" else (if s[0] == c then "" else [s[0]]) + Without(s[1..], c)
  }

  /** A decimal digit as a character. */
  function DigitChar(d: nat): char
    requires d < 10
  {
    "0123456789"[d]
  }

  /** Decimal rendering of a counter, as a template literal writes a non-negative integer. */
  function NatToString(n: nat): (r: string)
    ensures |r| >= 1
    ensures forall i | 0 <= i < |r| :: IsDigit(r[i])
    decreases n
  {
    if n < 10 then [DigitChar(n)] else NatToString(n / 10) + [DigitChar(n % 10)]
  }

  /** The value of a non-empty string of decimal digits. */
  function ParseDigits(s: string): nat
    requires forall i | 0 <= i < |s| :: IsDigit(s[i])
  {
    if |s| == 0 then 0
    else
      assert IsDigit(s[|s| - 1]);
      ParseDigits(s[..|s| - 1]) * 10 + (s[|s| - 1] as int - '0' as int)
  }

  /** Splitting is the inverse of joining: parts that do not hold the separator
      come back unchanged from `Split(Join(parts, sep), sep)`. */
  lemma {:induction false} SplitJoin(parts: seq<string>, sep: char)
    requires |parts| >= 1
    requires forall i | 0 <= i < |parts| :: sep !in parts[i]
    ensures Split(Join(parts, [sep]), sep) == parts
  {
    if |parts| == 1 {
      SplitOfSeparatorFree(parts[0], sep);
    } else {
      SplitJoin(parts[1..], sep);
      SplitAfterWord(parts[0], sep, Join(parts[1..], [sep]));
    }
  }

  lemma {:induction false} SplitOfSeparatorFree(w: string, sep: char)
    requires sep !in w
    ensures Split(w, sep) == [w]
  {
    if |w| > 0 {
      SplitOfSeparatorFree(w[1..], sep);
    }
  }

  lemma SplitAtSeparator(u: string, sep: char)
    requires |u| > 0 && u[0] == sep
    ensures Split(u, sep) == [""] + Split(u[1..], sep)
  {
  }

  lemma SplitAtOther(u: string, sep: char)
    requires |u| > 0 && u[0] != sep
    ensures var rest := Split(u[1..], sep);
            Split(u, sep) == [[u[0]] + rest[0]] + rest[1..]
  {
  }

  lemma {:induction false} SplitAfterWord(w: string, sep: char, t: string)
    requires sep !in w
    ensures Split(w + [sep] + t, sep) == [w] + Split(t, sep)
  {
    var u := w + [sep] + t;
    if |w| == 0 {
      assert u[1..] == t;
      SplitAtSeparator(u, sep);
    } else {
      assert u[0] == w[0] && u[1..] == w[1..] + [sep] + t;
      SplitAfterWord(w[1..], sep, t);
      SplitAtOther(u, sep);
      assert [w[0]] + w[1..] == w;
    }
  }

  lemma {:induction false} WithoutConcat(a: string, b: string, c: char)
    ensures Without(a + b, c) == Without(a, c) + Without(b, c)
  {
    if |a| > 0 {
      WithoutConcat(a[1..], b, c);
      assert (a + b)[0] == a[0] && (a + b)[1..] == a[1..] + b;
    } else {
      assert a + b == b;
    }
  }

  /** The `\r\n` normalisation removes only carriage returns: with every `\r`
      deleted, input and output are the same string. */
  lemma {:induction false} NormalizeNewlinesDropsOnlyCR(s: string)
    ensures Without(NormalizeNewlines(s), '\r') == Without(s, '\r')
  {
    if |s| >= 2 && s[0] == '\r' && s[1] == '\n' {
      NormalizeNewlinesDropsOnlyCR(s[2..]);
      WithoutConcat("\n", NormalizeNewlines(s[2..]), '\r');
      assert s[1..][1..] == s[2..];
    } else if |s| > 0 {
      NormalizeNewlinesDropsOnlyCR(s[1..]);
      WithoutConcat([s[0]], NormalizeNewlines(s[1..]), '\r');
    }
  }

  lemma AllSpaceConcat(a: string, b: string)
    ensures AllSpace(a + b) <==> AllSpace(a) && AllSpace(b)
  {
    var ab := a + b;
    if AllSpace(ab) {
      forall i | 0 <= i < |a| ensures IsSpace(a[i]) { assert a[i] == ab[i]; }
      forall i | 0 <= i < |b| ensures IsSpace(b[i]) { assert b[i] == ab[|a| + i]; }
    }
    if AllSpace(a) && AllSpace(b) {
      forall i | 0 <= i < |ab| ensures IsSpace(ab[i]) {
        if i >= |a| { assert ab[i] == b[i - |a|]; }
      }
    }
  }

  lemma AllSpaceTail(s: string)
    requires |s| > 0
    ensures AllSpace(s) <==> IsSpace(s[0]) && AllSpace(s[1..])
  {
    assert s == [s[0]] + s[1..];
    AllSpaceConcat([s[0]], s[1..]);
  }

  /** Joining with a whitespace separator gives whitespace exactly when every
      part is whitespace. */
  lemma {:induction false} AllSpaceJoin(parts: seq<string>, sep: string)
    requires AllSpace(sep)
    ensures AllSpace(Join(parts, sep)) <==> forall i | 0 <= i < |parts| :: AllSpace(parts[i])
  {
    if |parts| > 1 {
      AllSpaceJoin(parts[1..], sep);
      AllSpaceConcat(parts[0] + sep, Join(parts[1..], sep));
      AllSpaceConcat(parts[0], sep);
      if forall i | 1 <= i < |parts| :: AllSpace(parts[i]) {
        assert forall i | 0 <= i < |parts[1..]| :: AllSpace(parts[1..][i]);
      } else {
        var i :| 1 <= i < |parts| && !AllSpace(parts[i]);
        assert !AllSpace(parts[1..][i - 1]);
      }
    }
  }

  /** Replacing `\r\n` by `\n` neither makes nor removes a non-space character. */
  lemma {:induction false} AllSpaceNormalizeNewlines(s: string)
    ensures AllSpace(NormalizeNewlines(s)) <==> AllSpace(s)
  {
    if |s| >= 2 && s[0] == '\r' && s[1] == '\n' {
      AllSpaceNormalizeNewlines(s[2..]);
      AllSpaceTail("\n" + NormalizeNewlines(s[2..]));
      assert ("\n" + NormalizeNewlines(s[2..]))[1..] == NormalizeNewlines(s[2..]);
      AllSpaceTail(s);
      AllSpaceTail(s[1..]);
      assert s[1..][1..] == s[2..];
    } else if |s| > 0 {
      AllSpaceNormalizeNewlines(s[1..]);
      AllSpaceTail([s[0]] + NormalizeNewlines(s[1..]));
      assert ([s[0]] + NormalizeNewlines(s[1..]))[1..] == NormalizeNewlines(s[1..]);
      AllSpaceTail(s);
    }
  }

  /** The decimal rendering of a counter reads back as the counter, so distinct
      counters render as distinct strings. */
  lemma {:induction false} ParseNatToString(n: nat)
    ensures ParseDigits(NatToString(n)) == n
    decreases n
  {
    var r := NatToString(n);
    if n < 10 {
      assert r[..0] == [];
    } else {
      ParseNatToString(n / 10);
      assert r[..|r| - 1] == NatToString(n / 10);
    }
  }
}
