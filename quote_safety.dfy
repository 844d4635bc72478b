/**
 * The secondary quote heuristics: an excerpt is flagged when it has too many
 * words, too many non-blank lines, or equals a known lyric once whitespace
 * and case are normalised. It makes no statement about copyright.
 *
 * Unicode `\w` is a parameter (`isWordChar`): which characters count as word
 * characters is not modelled.
 */
module QuoteSafety {
  import opened Text

  const MaxWordsDefault: int := 90
  const MaxLinesDefault: int := 4

  /** The three rules; `Name` is the string the result reports for each hit. */
  datatype Rule = MaxWords | MaxLines | KnownLyric {
    function Name(): string {
      match this
      case MaxWords => "max_words"
      case MaxLines => "max_lines"
      case KnownLyric => "known_lyric_match"
    }
  }
  const NoViolationNote: string := "No quote safety rule violations were detected."
  const KnownLyricNote: string := "Excerpt exactly matches an entry in the known-lyrics corpus."

  datatype CheckResult = CheckResult(isSafe: bool, ruleHits: seq<Rule>, notes: seq<string>)

  // ---------------------------------------------------------------------
  // Counting words and lines
  // ---------------------------------------------------------------------

  /** `_word_count`: the number of maximal runs of word characters (the matches of `\b\w+\b`). */
  function WordCount(s: string, isWordChar: char -> bool): (n: nat)
    ensures n <= |s|
    decreases |s|
  {
    if s == [] then 0
    else if isWordChar(s[0]) && (|s| == 1 || !isWordChar(s[1])) then 1 + WordCount(s[1..], isWordChar)
    else WordCount(s[1..], isWordChar)
  }

  /** A non-word character splits the count: the runs on either side of it are counted separately. */
  lemma {:induction false} WordCountSplit(a: string, c: char, b: string, isWordChar: char -> bool)
    requires !isWordChar(c)
    ensures WordCount(a + [c] + b, isWordChar) == WordCount(a, isWordChar) + WordCount(b, isWordChar)
    decreases |a|
  {
    var x := a + [c] + b;
    if a == [] {
      assert x == [c] + b && x[1..] == b;
    } else {
      assert x[0] == a[0] && x[1] == (if |a| > 1 then a[1] else c);
      assert x[1..] == a[1..] + [c] + b;
      WordCountSplit(a[1..], c, b, isWordChar);
    }
  }

  /** A non-empty run of word characters is one word. */
  lemma {:induction false} WordCountOfRun(w: string, isWordChar: char -> bool)
    requires w != [] && forall i :: 0 <= i < |w| ==> isWordChar(w[i])
    ensures WordCount(w, isWordChar) == 1
    decreases |w|
  {
    if |w| > 1 {
      WordCountOfRun(w[1..], isWordChar);
    }
  }

  /** Runs of word characters joined by single spaces count as that many words. */
  lemma {:induction false} WordCountOfJoin(ws: seq<string>, isWordChar: char -> bool)
    requires !isWordChar(' ')
    requires forall i :: 0 <= i < |ws| ==> ws[i] != [] && forall k :: 0 <= k < |ws[i]| ==> isWordChar(ws[i][k])
    ensures WordCount(JoinSpace(ws), isWordChar) == |ws|
  {
    if |ws| == 1 {
      WordCountOfRun(ws[0], isWordChar);
    } else if |ws| > 1 {
      WordCountOfRun(ws[0], isWordChar);
      WordCountOfJoin(ws[1..], isWordChar);
      WordCountSplit(ws[0], ' ', JoinSpace(ws[1..]), isWordChar);
    }
  }

  /** `s * n`. */
  function Repeat(s: string, n: nat): string {
    if n == 0 then "" else s + Repeat(s, n - 1)
  }

  /** A word followed by a space, repeated n times, holds n words. */
  lemma {:induction false} WordCountOfRepeat(w: string, n: nat, isWordChar: char -> bool)
    requires !isWordChar(' ')
    requires w != [] && forall i :: 0 <= i < |w| ==> isWordChar(w[i])
    ensures WordCount(Repeat(w + " ", n), isWordChar) == n
  {
    if n > 0 {
      WordCountOfRun(w, isWordChar);
      WordCountOfRepeat(w, n - 1, isWordChar);
      assert Repeat(w + " ", n) == w + [' '] + Repeat(w + " ", n - 1);
      WordCountSplit(w, ' ', Repeat(w + " ", n - 1), isWordChar);
    }
  }

  /** The test's `"word " * 20` holds twenty words, above a limit of ten. */
  lemma TwentyWords(isWordChar: char -> bool)
    requires !isWordChar(' ') && isWordChar('w') && isWordChar('o') && isWordChar('r') && isWordChar('d')
    ensures WordCount(Repeat("word ", 20), isWordChar) == 20 > 10
  {
    var w := "word";
    forall i | 0 <= i < |w| ensures isWordChar(w[i]) {
      assert w[i] in {'w', 'o', 'r', 'd'};
    }
    assert w + " " == "word ";
    WordCountOfRepeat(w, 20, isWordChar);
  }

  /** The index of the first line break, or |s| when there is none. */
  function BreakIndex(s: string): (i: nat)
    ensures i <= |s|
    ensures forall k :: 0 <= k < i ==> !IsLineBreak(s[k])
    ensures i < |s| ==> IsLineBreak(s[i])
  {
    if s == [] || IsLineBreak(s[0]) then 0 else 1 + BreakIndex(s[1..])
  }

  /**
   * The pieces between line breaks, empty ones included. `str.splitlines()`
   * treats "\r\n" as one break and drops a final empty piece; the pieces it
   * loses that way are empty, so the count of non-blank lines is the same.
   */
  function Segments(s: string): (r: seq<string>)
    ensures r != []
    decreases |s|
  {
    var i := BreakIndex(s);
    if i == |s| then [s] else [s[..i]] + Segments(s[i + 1..])
  }

  function NonBlankCount(lines: seq<string>): (n: nat)
    ensures n <= |lines|
  {
    if lines == [] then 0
    else (if AllSpace(lines[0]) then 0 else 1) + NonBlankCount(lines[1..])
  }

  /** `_line_count`: the number of lines holding a non-whitespace character. */
  function LineCount(s: string): nat {
    NonBlankCount(Segments(s))
  }

  /** A text around one character is blank exactly when the three parts are. */
  lemma AllSpaceAround(s: string, i: nat)
    requires i < |s|
    ensures AllSpace(s) <==> AllSpace(s[..i]) && IsSpace(s[i]) && AllSpace(s[i + 1..])
  {
    if AllSpace(s[..i]) && IsSpace(s[i]) && AllSpace(s[i + 1..]) {
      forall k | 0 <= k < |s| ensures IsSpace(s[k]) {
        if k < i { assert s[k] == s[..i][k]; }
        else if k > i { assert s[k] == s[i + 1..][k - i - 1]; }
      }
    }
  }

  lemma NonBlankCountCons(lines: seq<string>)
    requires lines != []
    ensures NonBlankCount(lines) == 0 <==> AllSpace(lines[0]) && NonBlankCount(lines[1..]) == 0
  {
  }

  /** An excerpt has no counted line exactly when it is blank. */
  lemma {:induction false} NoLinesIffBlank(s: string)
    ensures LineCount(s) == 0 <==> AllSpace(s)
    decreases |s|
  {
    var i := BreakIndex(s);
    var segs := Segments(s);
    if i == |s| {
      assert segs == [s];
      NonBlankCountCons(segs);
      assert segs[1..] == [];
    } else {
      var rest := s[i + 1..];
      NoLinesIffBlank(rest);
      assert segs == [s[..i]] + Segments(rest);
      assert segs[0] == s[..i] && segs[1..] == Segments(rest);
      NonBlankCountCons(segs);
      AllSpaceAround(s, i);
    }
  }

  /** A line with no line break in it. */
  predicate NoBreak(line: string) {
    forall k :: 0 <= k < |line| ==> !IsLineBreak(line[k])
  }

  /** Splitting lines joined by newlines gives the lines back. */
  lemma {:induction false} SegmentsOfJoin(lines: seq<string>)
    requires lines != [] && forall i :: 0 <= i < |lines| ==> NoBreak(lines[i])
    ensures Segments(JoinLines(lines)) == lines
  {
    var l := lines[0];
    if |lines| == 1 {
      BreakIndexOf(l, "");
      assert l + "" == l;
    } else {
      var t := JoinLines(lines[1..]);
      var s := l + "\n" + t;
      BreakIndexOf(l, "\n" + t);
      assert s == l + ("\n" + t);
      assert s[..|l|] == l && s[|l| + 1..] == t;
      SegmentsOfJoin(lines[1..]);
    }
  }

  lemma {:induction false} BreakIndexOf(line: string, t: string)
    requires NoBreak(line)
    requires t == [] || IsLineBreak(t[0])
    ensures BreakIndex(line + t) == |line|
    decreases |line|
  {
    if line != [] {
      assert (line + t)[1..] == line[1..] + t;
      BreakIndexOf(line[1..], t);
    }
  }

  lemma {:induction false} NonBlankCountAll(lines: seq<string>)
    requires forall i :: 0 <= i < |lines| ==> !AllSpace(lines[i])
    ensures NonBlankCount(lines) == |lines|
  {
    if lines != [] {
      NonBlankCountAll(lines[1..]);
    }
  }

  /** Non-blank lines joined by newlines count as that many lines. */
  lemma LineCountOfJoin(lines: seq<string>)
    requires forall i :: 0 <= i < |lines| ==> NoBreak(lines[i]) && !AllSpace(lines[i])
    ensures LineCount(JoinLines(lines)) == |lines|
  {
    if lines == [] {
      assert Segments("") == [""];
    } else {
      SegmentsOfJoin(lines);
      NonBlankCountAll(lines);
    }
  }

  /** The five single-letter lines of the test give five lines, one more than the default limit. */
  lemma FiveLines()
    ensures LineCount(JoinLines(["a", "b", "c", "d", "e"])) == 5 > MaxLinesDefault
  {
    var lines := ["a", "b", "c", "d", "e"];
    forall i | 0 <= i < |lines| ensures NoBreak(lines[i]) && !AllSpace(lines[i]) {
      assert |lines[i]| == 1 && !IsSpace(lines[i][0]);
    }
    LineCountOfJoin(lines);
  }

  /** Lines joined by newline characters. */
  function JoinLines(lines: seq<string>): string {
    if lines == [] then ""
    else if |lines| == 1 then lines[0]
    else lines[0] + "\n" + JoinLines(lines[1..])
  }

  // ---------------------------------------------------------------------
  // Normalisation
  // ---------------------------------------------------------------------

  /** `_normalize`: the words joined by single spaces, stripped and lower-cased. */
  function Normalize(s: string): string {
    Lower(Strip(JoinSpace(Words(s))))
  }

  /** A normalised text is its lower-cased words joined by single spaces: empty exactly for a blank text. */
  lemma NormalizeShape(s: string)
    ensures Normalize(s) == JoinSpace(LowerAll(Words(s)))
    ensures Normalize(s) == [] <==> AllSpace(s)
  {
    var ws := Words(s);
    LowerOfJoin(ws);
    BlankIffNoWords(s);
    if ws != [] {
      JoinEnds(ws);
      StripOfClean(JoinSpace(ws));
    }
  }

  /** A text has no words exactly when it is blank. */
  lemma {:induction false} BlankIffNoWords(s: string)
    ensures Words(s) == [] <==> AllSpace(s)
    decreases |s|
  {
    if s != [] {
      if IsSpace(s[0]) {
        BlankIffNoWords(s[1..]);
        assert Words(s) == Words(s[1..]);
        AllSpaceAround(s, 0);
        assert s[..0] == [];
      } else {
        assert Words(s) != [];
      }
    }
  }

  /** Lower-cased words are still words, and lower-casing them again changes nothing. */
  lemma LowerAllWords(ws: seq<string>)
    requires forall i :: 0 <= i < |ws| ==> IsWord(ws[i])
    ensures forall i :: 0 <= i < |ws| ==> IsWord(LowerAll(ws)[i])
    ensures LowerAll(LowerAll(ws)) == LowerAll(ws)
  {
    forall i | 0 <= i < |ws| ensures Lower(Lower(ws[i])) == Lower(ws[i]) {
      LowerIdempotent(ws[i]);
    }
  }

  /** Normalising twice is normalising once. */
  lemma NormalizeIdempotent(s: string)
    ensures Normalize(Normalize(s)) == Normalize(s)
  {
    var lw := LowerAll(Words(s));
    NormalizeShape(s);
    var n := Normalize(s);
    assert n == JoinSpace(lw);
    LowerAllWords(Words(s));
    WordsOfJoin(lw);
    assert Words(n) == lw;
    NormalizeShape(n);
  }

  /** Texts that differ only in letter case normalise alike. */
  lemma NormalizeIgnoresCase(s: string)
    ensures Normalize(Lower(s)) == Normalize(s)
  {
    NormalizeShape(s);
    NormalizeShape(Lower(s));
    WordsOfLower(s);
    LowerAllWords(Words(s));
  }

  // ---------------------------------------------------------------------
  // The check
  // ---------------------------------------------------------------------

  /** The normalised non-blank entries of the corpus. */
  function NormalizedCorpus(knownLyrics: seq<string>): set<string> {
    set i | 0 <= i < |knownLyrics| && !AllSpace(knownLyrics[i]) :: Normalize(knownLyrics[i])
  }

  /** The third rule: a non-blank excerpt equal, once normalised, to some non-blank corpus entry. */
  predicate KnownMatch(excerpt: string, knownLyrics: seq<string>) {
    && !AllSpace(excerpt)
    && exists i :: 0 <= i < |knownLyrics| && !AllSpace(knownLyrics[i]) && Normalize(knownLyrics[i]) == Normalize(excerpt)
  }

  /** The position of each rule in the fixed order of the checks. */
  function Rank(hit: Rule): nat {
    match hit
    case MaxWords => 0
    case MaxLines => 1
    case KnownLyric => 2
  }

  /** The note that goes with each hit. */
  function NoteFor(hit: Rule, words: int, lines: int, maxWords: int, maxLines: int): string {
    match hit
    case MaxWords =>
      "Excerpt has " + IntToString(words) + " words which exceeds the safety threshold of " + IntToString(maxWords) + "."
    case MaxLines =>
      "Excerpt has " + IntToString(lines) + " non-empty lines which exceeds the threshold of " + IntToString(maxLines) + "."
    case KnownLyric => KnownLyricNote
  }

  /** The hits of the three rules, in the order they are checked. */
  function HitsFor(wordsOver: bool, linesOver: bool, matched: bool): seq<Rule> {
    AppendIf(AppendIf(AppendIf([], wordsOver, MaxWords), linesOver, MaxLines), matched, KnownLyric)
  }

  /** `s` with `x` appended when `fires`. */
  function AppendIf<T>(s: seq<T>, fires: bool, x: T): seq<T> {
    if fires then s + [x] else s
  }

  /** One note per hit, in the same order; a single "no violations" note when nothing hit. */
  function NotesFor(hits: seq<Rule>, words: int, lines: int, maxWords: int, maxLines: int): (r: seq<string>)
    ensures hits == [] ==> r == [NoViolationNote]
    ensures hits != [] ==> |r| == |hits| && forall i :: 0 <= i < |hits| ==> r[i] == NoteFor(hits[i], words, lines, maxWords, maxLines)
  {
    if hits == [] then [NoViolationNote]
    else seq(|hits|, i requires 0 <= i < |hits| => NoteFor(hits[i], words, lines, maxWords, maxLines))
  }

  /** Each rule shows up exactly when it fires, at most once, and in the fixed order. */
  lemma HitsInOrder(wordsOver: bool, linesOver: bool, matched: bool)
    ensures var h := HitsFor(wordsOver, linesOver, matched);
      && (MaxWords in h <==> wordsOver)
      && (MaxLines in h <==> linesOver)
      && (KnownLyric in h <==> matched)
      && (h == [] <==> !wordsOver && !linesOver && !matched)
      && (forall i, j :: 0 <= i < j < |h| ==> Rank(h[i]) < Rank(h[j]))
  {
  }

  /**
   * `check_quote_safety`: the three rules in order, each appending its hit
   * and its note. A missing corpus is the empty one (both are falsy).
   */
  method CheckQuoteSafety(excerpt: string, knownLyrics: seq<string>, isWordChar: char -> bool,
                          maxWords: int := MaxWordsDefault, maxLines: int := MaxLinesDefault)
    returns (r: CheckResult)
    ensures r.ruleHits == HitsFor(WordCount(excerpt, isWordChar) > maxWords, LineCount(excerpt) > maxLines,
                                  KnownMatch(excerpt, knownLyrics))
    ensures r.notes == NotesFor(r.ruleHits, WordCount(excerpt, isWordChar), LineCount(excerpt), maxWords, maxLines)
    ensures r.isSafe <==> r.ruleHits == []
  {
    var ruleHits: seq<Rule> := [];
    var notes: seq<string> := [];
    var words := WordCount(excerpt, isWordChar);
    var lines := LineCount(excerpt);

    if words > maxWords {
      ruleHits := ruleHits + [MaxWords];
      notes := notes + [NoteFor(MaxWords, words, lines, maxWords, maxLines)];
    }
    ghost var hits1, notes1 := ruleHits, notes;
    assert hits1 == AppendIf([], words > maxWords, MaxWords);
    assert notes1 == AppendIf([], words > maxWords, NoteFor(MaxWords, words, lines, maxWords, maxLines));
    if lines > maxLines {
      ruleHits := ruleHits + [MaxLines];
      notes := notes + [NoteFor(MaxLines, words, lines, maxWords, maxLines)];
    }
    ghost var hits2, notes2 := ruleHits, notes;
    assert hits2 == AppendIf(hits1, lines > maxLines, MaxLines);
    assert notes2 == AppendIf(notes1, lines > maxLines, NoteFor(MaxLines, words, lines, maxWords, maxLines));
    var matched := MatchesCorpus(excerpt, knownLyrics);
    if matched {
      ruleHits := ruleHits + [KnownLyric];
      notes := notes + [KnownLyricNote];
    }
    assert ruleHits == AppendIf(hits2, matched, KnownLyric);
    assert notes == AppendIf(notes2, matched, KnownLyricNote);
    NotesOfHits(words > maxWords, lines > maxLines, matched, words, lines, maxWords, maxLines);
    if ruleHits == [] {
      notes := notes + [NoViolationNote];
    }
    r := CheckResult(ruleHits == [], ruleHits, notes);
  }

  /**
   * The third rule as the source tests it: a non-empty normalised excerpt,
   * a non-empty corpus, and membership in the set of normalised entries.
   */
  method MatchesCorpus(excerpt: string, knownLyrics: seq<string>) returns (matched: bool)
    ensures matched <==> KnownMatch(excerpt, knownLyrics)
  {
    matched := false;
    var normalized := Normalize(excerpt);
    if normalized != [] && knownLyrics != [] {
      var corpus := NormalizedCorpus(knownLyrics);
      if normalized in corpus {
        matched := true;
      }
    }
    CorpusMatch(excerpt, knownLyrics);
  }

  /** The notes the three checks append, one per rule that fires, are the notes of the hits. */
  lemma NotesOfHits(wordsOver: bool, linesOver: bool, matched: bool, words: int, lines: int, maxWords: int, maxLines: int)
    ensures var hits := HitsFor(wordsOver, linesOver, matched);
      var notes := AppendIf(AppendIf(AppendIf([], wordsOver, NoteFor(MaxWords, words, lines, maxWords, maxLines)),
        linesOver, NoteFor(MaxLines, words, lines, maxWords, maxLines)), matched, KnownLyricNote);
      hits != [] ==> notes == NotesFor(hits, words, lines, maxWords, maxLines)
  {
  }

  /** The excerpt is safe exactly when it is within both limits and matches no known lyric. */
  lemma SafeIffNoRuleFires(excerpt: string, knownLyrics: seq<string>, isWordChar: char -> bool, maxWords: int, maxLines: int)
    ensures HitsFor(WordCount(excerpt, isWordChar) > maxWords, LineCount(excerpt) > maxLines, KnownMatch(excerpt, knownLyrics)) == []
        <==> WordCount(excerpt, isWordChar) <= maxWords && LineCount(excerpt) <= maxLines && !KnownMatch(excerpt, knownLyrics)
  {
    HitsInOrder(WordCount(excerpt, isWordChar) > maxWords, LineCount(excerpt) > maxLines, KnownMatch(excerpt, knownLyrics));
  }

  /** The source's test (non-empty normalised excerpt, non-empty corpus, membership) is the third rule. */
  lemma CorpusMatch(excerpt: string, knownLyrics: seq<string>)
    ensures (Normalize(excerpt) != [] && knownLyrics != [] && Normalize(excerpt) in NormalizedCorpus(knownLyrics))
        <==> KnownMatch(excerpt, knownLyrics)
  {
    NormalizeShape(excerpt);
  }

  /** The corpus match ignores letter case. */
  lemma KnownMatchIgnoresCase(excerpt: string, knownLyrics: seq<string>)
    ensures KnownMatch(Lower(excerpt), knownLyrics) <==> KnownMatch(excerpt, knownLyrics)
  {
    NormalizeIgnoresCase(excerpt);
    NormalizeShape(excerpt);
    NormalizeShape(Lower(excerpt));
  }
}
