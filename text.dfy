/**
 * String primitives with Python's semantics: the whitespace set used by
 * `str.split()`, `str.strip()` and the regular-expression class `\s`,
 * `str.splitlines()` line boundaries, whitespace collapsing, case mapping
 * and decimal formatting of integers (f-strings).
 */
module Text {

  /** Python's whitespace (Py_UNICODE_ISSPACE), shared by `str.split`, `str.strip` and `\s`. */
  predicate IsSpace(c: char) {
    || ('\t' <= c <= '\r')
    || ('\U{1C}' <= c <= ' ')
    || c == '\U{85}' || c == '\U{A0}' || c == '\U{1680}'
    || ('\U{2000}' <= c <= '\U{200A}')
    || c == '\U{2028}' || c == '\U{2029}' || c == '\U{202F}' || c == '\U{205F}' || c == '\U{3000}'
  }

  /** The line boundaries of `str.splitlines()`; every one of them is also whitespace. */
  predicate IsLineBreak(c: char)
    ensures IsLineBreak(c) ==> IsSpace(c)
  {
    || ('\n' <= c <= '\r')
    || ('\U{1C}' <= c <= '\U{1E}')
    || c == '\U{85}' || c == '\U{2028}' || c == '\U{2029}'
  }

  predicate AllSpace(s: string) {
    forall i :: 0 <= i < |s| ==> IsSpace(s[i])
  }

  /** A non-empty run of non-whitespace characters: one item of `str.split()`. */
  predicate IsWord(w: string) {
    w != [] && forall i :: 0 <= i < |w| ==> !IsSpace(w[i])
  }

  predicate StartsWith(s: string, prefix: string) {
    |prefix| <= |s| && s[..|prefix|] == prefix
  }

  predicate EndsWith(s: string, suffix: string) {
    |suffix| <= |s| && s[|s| - |suffix|..] == suffix
  }

  /** Python's `sub in s`. */
  predicate Contains(s: string, sub: string)
    decreases |s|
  {
    StartsWith(s, sub) || (s != [] && Contains(s[1..], sub))
  }

  // ---------------------------------------------------------------------
  // Case mapping (ASCII letters only)
  // ---------------------------------------------------------------------

  function LowerChar(c: char): (r: char)
    ensures IsSpace(r) == IsSpace(c)
  {
    if 'A' <= c <= 'Z' then (c as int + 32) as char else c
  }

  function UpperChar(c: char): char {
    if 'a' <= c <= 'z' then (c as int - 32) as char else c
  }

  /** `str.lower()` restricted to ASCII letters. */
  function Lower(s: string): (r: string)
    ensures |r| == |s|
    ensures forall i :: 0 <= i < |s| ==> r[i] == LowerChar(s[i])
  {
    seq(|s|, i requires 0 <= i < |s| => LowerChar(s[i]))
  }

  /** `str.upper()` restricted to ASCII letters. */
  function Upper(s: string): (r: string)
    ensures |r| == |s|
    ensures forall i :: 0 <= i < |s| ==> r[i] == UpperChar(s[i])
  {
    seq(|s|, i requires 0 <= i < |s| => UpperChar(s[i]))
  }

  function LowerAll(ws: seq<string>): (r: seq<string>)
    ensures |r| == |ws|
    ensures forall i :: 0 <= i < |ws| ==> r[i] == Lower(ws[i])
  {
    seq(|ws|, i requires 0 <= i < |ws| => Lower(ws[i]))
  }

  lemma LowerIdempotent(s: string)
    ensures Lower(Lower(s)) == Lower(s)
  {
  }

  // ---------------------------------------------------------------------
  // str.split() and " ".join(...)
  // ---------------------------------------------------------------------

  /** Length of the leading run of non-whitespace characters. */
  function SpanLength(s: string): (n: nat)
    ensures n <= |s|
    ensures forall i :: 0 <= i < n ==> !IsSpace(s[i])
    ensures n < |s| ==> IsSpace(s[n])
  {
    if s == [] || IsSpace(s[0]) then 0 else 1 + SpanLength(s[1..])
  }

  /** `str.split()` with no argument: the maximal runs of non-whitespace, in order. */
  function Words(s: string): (r: seq<string>)
    ensures forall i :: 0 <= i < |r| ==> IsWord(r[i])
    decreases |s|
  {
    if s == [] then []
    else if IsSpace(s[0]) then Words(s[1..])
    else
      var n := SpanLength(s);
      [s[..n]] + Words(s[n..])
  }

  /** `" ".join(ws)`. */
  function JoinSpace(ws: seq<string>): string {
    if ws == [] then ""
    else if |ws| == 1 then ws[0]
    else ws[0] + " " + JoinSpace(ws[1..])
  }

  lemma {:induction false} SpanOfWordThenSpace(w: string, t: string)
    requires forall i :: 0 <= i < |w| ==> !IsSpace(w[i])
    requires t == [] || IsSpace(t[0])
    ensures SpanLength(w + t) == |w|
  {
    if w != [] {
      assert (w + t)[1..] == w[1..] + t;
      SpanOfWordThenSpace(w[1..], t);
    }
  }

  /** Splitting words joined by single spaces gives the words back. */
  lemma {:induction false} WordsOfJoin(ws: seq<string>)
    requires forall i :: 0 <= i < |ws| ==> IsWord(ws[i])
    ensures Words(JoinSpace(ws)) == ws
  {
    if ws == [] {
    } else if |ws| == 1 {
      var w := ws[0];
      SpanOfWordThenSpace(w, []);
      assert w + [] == w;
      assert w[..|w|] == w;
      assert w[|w|..] == [];
    } else {
      var w, rest := ws[0], JoinSpace(ws[1..]);
      var s := w + " " + rest;
      assert s == w + (" " + rest);
      SpanOfWordThenSpace(w, " " + rest);
      assert s[..|w|] == w;
      assert s[|w|..] == " " + rest;
      assert (" " + rest)[1..] == rest;
      WordsOfJoin(ws[1..]);
    }
  }

  lemma {:induction false} SpanOfLower(s: string)
    ensures SpanLength(Lower(s)) == SpanLength(s)
    decreases |s|
  {
    if s != [] && !IsSpace(s[0]) {
      assert Lower(s)[1..] == Lower(s[1..]);
      SpanOfLower(s[1..]);
    }
  }

  /** Lower-casing commutes with splitting into words. */
  lemma {:induction false} WordsOfLower(s: string)
    ensures Words(Lower(s)) == LowerAll(Words(s))
    decreases |s|
  {
    if s == [] {
    } else if IsSpace(s[0]) {
      assert Lower(s)[1..] == Lower(s[1..]);
      WordsOfLower(s[1..]);
    } else {
      var n := SpanLength(s);
      var ls := Lower(s);
      SpanOfLower(s);
      assert Words(ls) == [ls[..n]] + Words(ls[n..]);
      assert ls[..n] == Lower(s[..n]);
      assert ls[n..] == Lower(s[n..]);
      WordsOfLower(s[n..]);
      LowerAllCons(s[..n], Words(s[n..]));
    }
  }

  lemma LowerAllCons(w: string, ws: seq<string>)
    ensures LowerAll([w] + ws) == [Lower(w)] + LowerAll(ws)
  {
  }

  /** Lower-casing commutes with joining by single spaces. */
  lemma {:induction false} LowerOfJoin(ws: seq<string>)
    ensures Lower(JoinSpace(ws)) == JoinSpace(LowerAll(ws))
  {
    if |ws| > 1 {
      LowerOfJoin(ws[1..]);
      assert LowerAll(ws)[1..] == LowerAll(ws[1..]);
      assert Lower(ws[0] + " " + JoinSpace(ws[1..]))
          == Lower(ws[0]) + " " + Lower(JoinSpace(ws[1..]));
    }
  }

  lemma {:induction false} JoinEnds(ws: seq<string>)
    requires ws != []
    requires forall i :: 0 <= i < |ws| ==> IsWord(ws[i])
    ensures JoinSpace(ws) != []
    ensures !IsSpace(JoinSpace(ws)[0])
    ensures !IsSpace(JoinSpace(ws)[|JoinSpace(ws)| - 1])
  {
    if |ws| > 1 {
      JoinEnds(ws[1..]);
      var j := JoinSpace(ws);
      assert j == ws[0] + " " + JoinSpace(ws[1..]);
      assert j[0] == ws[0][0];
      assert j[|j| - 1] == JoinSpace(ws[1..])[|JoinSpace(ws[1..])| - 1];
    }
  }

  // ---------------------------------------------------------------------
  // str.strip() and re.sub(r"\s+", " ", s)
  // ---------------------------------------------------------------------

  /** `str.lstrip()`. */
  function TrimStart(s: string): (r: string)
    ensures |r| <= |s| && r == s[|s| - |r|..]
    ensures r == [] || !IsSpace(r[0])
    ensures AllSpace(s[..|s| - |r|])
    decreases |s|
  {
    if s != [] && IsSpace(s[0]) then TrimStart(s[1..]) else s
  }

  /** `str.rstrip()`. */
  function TrimEnd(s: string): (r: string)
    ensures |r| <= |s| && r == s[..|r|]
    ensures r == [] || !IsSpace(r[|r| - 1])
    ensures AllSpace(s[|r|..])
    decreases |s|
  {
    if s != [] && IsSpace(s[|s| - 1]) then
      var r := TrimEnd(s[..|s| - 1]);
      assert s[|r|..] == s[..|s| - 1][|r|..] + [s[|s| - 1]];
      r
    else s
  }

  /** A non-empty string that neither starts nor ends with whitespace. */
  predicate Trimmed(t: string) {
    t != [] && !IsSpace(t[0]) && !IsSpace(t[|t| - 1])
  }

  /** `r` is `s[i..j]` and everything of `s` outside that slice is whitespace. */
  predicate IsStripOf(s: string, r: string, i: int, j: int) {
    0 <= i <= j <= |s| && r == s[i..j] && AllSpace(s[..i]) && AllSpace(s[j..])
  }

  /**
   * `str.strip()`: `s` with only whitespace removed around it. The result is
   * empty exactly when `s` is blank, and otherwise neither starts nor ends
   * with whitespace.
   */
  function Strip(s: string): (r: string)
    ensures r == [] <==> AllSpace(s)
    ensures r != [] ==> Trimmed(r)
  {
    TrimBoth(s);
    TrimEnd(TrimStart(s))
  }

  lemma TrimBoth(s: string)
    ensures var r := TrimEnd(TrimStart(s));
      && (r == [] <==> AllSpace(s))
      && (r != [] ==> Trimmed(r))
  {
    var t := TrimStart(s);
    var r := TrimEnd(t);
    var k := |s| - |t|;
    if r == [] {
      assert t[|r|..] == t;
      assert t == [];
      assert s[..k] == s;
    } else {
      assert r[0] == t[0] == s[k];
    }
  }

  /** `str.strip()` removes whitespace around the text and nothing else: the result is a slice of `s` with only whitespace outside it. */
  lemma StripIsSlice(s: string)
    ensures exists i, j :: IsStripOf(s, Strip(s), i, j)
  {
    var t := TrimStart(s);
    var r := TrimEnd(t);
    var k := |s| - |t|;
    assert s[k..k + |r|] == t[..|r|];
    assert s[k + |r|..] == t[|r|..];
    assert r == Strip(s);
    assert IsStripOf(s, r, k, k + |r|);
  }

  /** A blank text has no words. */
  lemma {:induction false} WordsOfBlank(s: string)
    requires AllSpace(s)
    ensures Words(s) == []
    decreases |s|
  {
    if s != [] {
      WordsOfBlank(s[1..]);
    }
  }

  /** Leading whitespace does not change the words. */
  lemma {:induction false} WordsOfTrimStart(s: string)
    ensures Words(TrimStart(s)) == Words(s)
    decreases |s|
  {
    if s != [] && IsSpace(s[0]) {
      WordsOfTrimStart(s[1..]);
    }
  }

  /** Trailing whitespace does not change the words. */
  lemma {:induction false} WordsOfTrailingSpace(t: string, sp: string)
    requires AllSpace(sp)
    ensures Words(t + sp) == Words(t)
    decreases |t|
  {
    var x := t + sp;
    if t == [] {
      assert x == sp;
      WordsOfBlank(sp);
    } else if IsSpace(t[0]) {
      assert x[0] == t[0] && x[1..] == t[1..] + sp;
      WordsOfTrailingSpace(t[1..], sp);
    } else {
      var n := SpanLength(t);
      assert x == t[..n] + (t[n..] + sp);
      SpanOfWordThenSpace(t[..n], t[n..] + sp);
      assert x[..n] == t[..n] && x[n..] == t[n..] + sp;
      WordsOfTrailingSpace(t[n..], sp);
    }
  }

  lemma WordsOfTrimEnd(t: string)
    ensures Words(TrimEnd(t)) == Words(t)
  {
    var r := TrimEnd(t);
    assert t == r + t[|r|..];
    WordsOfTrailingSpace(r, t[|r|..]);
  }

  /** Stripping does not change the words. */
  lemma WordsOfStrip(s: string)
    ensures Words(Strip(s)) == Words(s)
  {
    WordsOfTrimStart(s);
    WordsOfTrimEnd(TrimStart(s));
  }


  lemma StripOfClean(s: string)
    requires s == [] || (!IsSpace(s[0]) && !IsSpace(s[|s| - 1]))
    ensures Strip(s) == s
  {
  }

  /** Every whitespace character of `r` is a plain space. */
  predicate SpacesArePlain(r: string) {
    forall i :: 0 <= i < |r| && IsSpace(r[i]) ==> r[i] == ' '
  }

  /** No two whitespace characters of `r` are adjacent. */
  predicate NoDoubleSpace(r: string) {
    forall i :: 0 <= i < |r| - 1 ==> !IsSpace(r[i]) || !IsSpace(r[i + 1])
  }

  /** `re.sub(r"\s+", " ", s)`: every maximal whitespace run becomes one plain space. */
  function Collapse(s: string): (r: string)
    ensures r == [] <==> s == []
    ensures s != [] ==> (IsSpace(r[0]) <==> IsSpace(s[0]))
    ensures SpacesArePlain(r) && NoDoubleSpace(r)
    decreases |s|
  {
    if s == [] then []
    else if IsSpace(s[0]) then " " + Collapse(TrimStart(s))
    else [s[0]] + Collapse(s[1..])
  }

  lemma EmptyPrefix(x: string)
    ensures "" + x == x
  {
  }

  lemma AppendAssoc<T>(a: seq<T>, b: seq<T>, c: seq<T>)
    ensures a + (b + c) == (a + b) + c
  {
  }

  /** Collapsing keeps a leading run of non-whitespace as it is. */
  lemma {:induction false} CollapseSpan(t: string)
    ensures Collapse(t) == t[..SpanLength(t)] + Collapse(t[SpanLength(t)..])
    decreases |t|
  {
    if t != [] && !IsSpace(t[0]) {
      var u := t[1..];
      var m := SpanLength(u);
      CollapseSpan(u);
      AppendAssoc([t[0]], u[..m], Collapse(u[m..]));
      SlicesAfterHead(t, m);
    } else {
      assert t[..0] == [] && t[0..] == t;
    }
  }

  lemma SlicesAfterHead(t: string, m: nat)
    requires m < |t|
    ensures t[..1 + m] == [t[0]] + t[1..][..m] && t[1 + m..] == t[1..][m..]
  {
  }

  /** Collapsing whitespace keeps every word, in order: only the whitespace between them changes. */
  lemma {:induction false} CollapseKeepsWords(s: string)
    ensures Words(Collapse(s)) == Words(s)
    decreases |s|
  {
    if s == [] {
    } else if IsSpace(s[0]) {
      var u := TrimStart(s);
      assert TrimStart(s) == TrimStart(s[1..]);
      CollapseKeepsWords(u);
      WordsOfTrimStart(s);
      var c := " " + Collapse(u);
      assert c[0] == ' ' && c[1..] == Collapse(u);
    } else {
      var n := SpanLength(s);
      var w, rest := s[..n], s[n..];
      CollapseSpan(s);
      CollapseKeepsWords(rest);
      var cr := Collapse(rest);
      SpanOfWordThenSpace(w, cr);
      var x := w + cr;
      assert x[..n] == w && x[n..] == cr;
    }
  }

  /** A trimmed text whose spaces are single plain spaces is the join of its words. */
  lemma {:induction false} JoinOfWords(t: string)
    requires t == [] || Trimmed(t)
    requires SpacesArePlain(t) && NoDoubleSpace(t)
    ensures JoinSpace(Words(t)) == t
    decreases |t|
  {
    if t != [] {
      var n := SpanLength(t);
      if n == |t| {
        assert t[..n] == t && t[n..] == [];
      } else {
        var u := t[n + 1..];
        assert t[n] == ' ';
        assert u[0] == t[n + 1] && u[|u| - 1] == t[|t| - 1];
        forall i | 0 <= i < |u| - 1 ensures !IsSpace(u[i]) || !IsSpace(u[i + 1]) {
          assert u[i] == t[n + 1 + i] && u[i + 1] == t[n + 1 + i + 1];
        }
        JoinOfWords(u);
        assert t[n..][0] == ' ' && t[n..][1..] == u;
        var ws := Words(u);
        assert ws != [];
        var all := [t[..n]] + ws;
        assert all[0] == t[..n] && all[1..] == ws;
        assert t == t[..n] + " " + u;
      }
    }
  }

  /** A slice keeps spaces single and plain. */
  lemma SliceKeepsSpacing(c: string, i: int, j: int)
    requires 0 <= i <= j <= |c| && SpacesArePlain(c) && NoDoubleSpace(c)
    ensures SpacesArePlain(c[i..j]) && NoDoubleSpace(c[i..j])
  {
    var r := c[i..j];
    forall k | 0 <= k < |r| ensures IsSpace(r[k]) ==> r[k] == ' ' {
      assert r[k] == c[i + k];
    }
    forall k | 0 <= k < |r| - 1 ensures !IsSpace(r[k]) || !IsSpace(r[k + 1]) {
      assert r[k] == c[i + k] && r[k + 1] == c[i + k + 1];
    }
  }

  /** Stripping keeps spaces single and plain. */
  lemma StripKeepsSpacing(c: string)
    requires SpacesArePlain(c) && NoDoubleSpace(c)
    ensures SpacesArePlain(Strip(c)) && NoDoubleSpace(Strip(c))
  {
    StripIsSlice(c);
    var i, j :| IsStripOf(c, Strip(c), i, j);
    SliceKeepsSpacing(c, i, j);
  }


  /** Collapsing whitespace and then stripping joins the words by single spaces. */
  lemma StripOfCollapse(s: string)
    ensures Strip(Collapse(s)) == JoinSpace(Words(s))
  {
    var c := Collapse(s);
    StripKeepsSpacing(c);
    JoinOfWords(Strip(c));
    WordsOfStrip(c);
    CollapseKeepsWords(s);
  }


  // ---------------------------------------------------------------------
  // Decimal numerals (f"{n}") and their reading back (int(...))
  // ---------------------------------------------------------------------

  predicate IsDigit(c: char) {
    '0' <= c <= '9'
  }

  function DigitChar(d: nat): (c: char)
    requires d < 10
    ensures IsDigit(c) && c as int - '0' as int == d
  {
    (d + '0' as int) as char
  }

  /** f"{n}" for a natural number: decimal digits without leading zeros. */
  function NatToString(n: nat): (r: string)
    ensures r != [] && forall i :: 0 <= i < |r| ==> IsDigit(r[i])
    ensures r[0] == '0' ==> n == 0
  {
    if n < 10 then [DigitChar(n)] else NatToString(n / 10) + [DigitChar(n % 10)]
  }

  /** f"{i}" for any integer. */
  function IntToString(i: int): string {
    if i < 0 then "-" + NatToString(-i) else NatToString(i)
  }

  /** The value of a string of decimal digits (Python's `int(...)` on ASCII digits). */
  function DigitsValue(s: string): int
    requires forall i :: 0 <= i < |s| ==> IsDigit(s[i])
  {
    if s == [] then 0
    else 10 * DigitsValue(s[..|s| - 1]) + (s[|s| - 1] as int - '0' as int)
  }

  /** Formatting a natural number and reading it back gives the number. */
  lemma {:induction false} NatToStringRoundTrip(n: nat)
    ensures DigitsValue(NatToString(n)) == n
  {
    if n >= 10 {
      var p := NatToString(n / 10);
      var s := p + [DigitChar(n % 10)];
      assert s[..|s| - 1] == p;
      NatToStringRoundTrip(n / 10);
    }
  }
}
