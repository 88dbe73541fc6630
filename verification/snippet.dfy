/**
 The snippet extractor `_extract_snippet`: finds the first match of a pattern, takes a
 coarse window of up to ten lines around it (the character offset divided by 100 stands
 in for a line number, then five lines are backed off), drops blank and obfuscated lines,
 joins the rest and truncates the result to 300 characters plus an ellipsis.
 */
module Snippet {
  import opened Text
  import opened Seqs
  import opened Regex
  import opened Cleaner

  /** The text returned when the pattern does not match. */
  const NoSnippet: string := "No snippet found"

  /** Longest snippet kept before the ellipsis is appended. */
  const MaxChars: nat := 300

  const Ellipsis: string := "..."

  /** Number of lines in the window. */
  const WindowLines: nat := 10

  /** The first window line (bsc-auditor.py:118): the match offset, floor-divided by 100 and read
      as a line number, backed off by five lines and clamped at zero. */
  function WindowStart(offset: nat): (start: nat)
    ensures offset < 600 ==> start == 0
    ensures offset >= 500 ==> (start + 5) * 100 <= offset < (start + 6) * 100
  {
    if offset / 100 - 5 > 0 then offset / 100 - 5 else 0
  }

  /** The window of lines (bsc-auditor.py:119-120): up to ten consecutive lines from the start,
      cut off at the last line; empty when the start lies past the end, as a Python slice is. */
  function Window(lines: seq<string>, offset: nat): (w: seq<string>)
    ensures |w| <= WindowLines
    ensures WindowStart(offset) >= |lines| ==> w == []
    ensures WindowStart(offset) < |lines| ==>
      && |w| == (if |lines| - WindowStart(offset) < WindowLines then |lines| - WindowStart(offset) else WindowLines)
      && (forall k :: 0 <= k < |w| ==> w[k] == lines[WindowStart(offset) + k])
  {
    var start := WindowStart(offset);
    var end := if |lines| < start + WindowLines then |lines| else start + WindowLines;
    if start <= end then lines[start..end] else []
  }

  /** A window line is shown when, stripped, it is non-blank and not an obfuscated variable. */
  predicate ShowLine(line: string) {
    Strip(line) != "" && !IsObfuscatedVar(Strip(line))
  }

  /** The length cap of bsc-auditor.py:122: text longer than 300 characters is cut to its
      first 300 characters and followed by an ellipsis; shorter text is kept. */
  function Truncate(s: string): (r: string)
    ensures |r| <= MaxChars + |Ellipsis|
    ensures |s| <= MaxChars ==> r == s
    ensures |s| > MaxChars ==> |r| == MaxChars + |Ellipsis| && r[..MaxChars] == s[..MaxChars] && r[MaxChars..] == Ellipsis
  {
    if |s| > MaxChars then s[..MaxChars] + Ellipsis else s
  }

  /** The shown lines of the window for a match at `offset`. */
  function ShownLines(text: string, offset: nat): seq<string> {
    Filter(ShowLine, Window(Split(text), offset))
  }

  /** The snippet for a match at `offset`. */
  function Excerpt(text: string, offset: nat): string {
    Truncate(Join(ShownLines(text, offset)))
  }

  /** `_extract_snippet(pattern)` over `text`: the sentinel when the pattern has no match,
      otherwise the excerpt around the first match, which is never longer than 303 characters. */
  function ExtractSnippet(o: Oracle, p: Pattern, text: string): (r: string)
    ensures o.first(p, text).None? ==> r == NoSnippet
    ensures o.first(p, text).Some? ==> r == Excerpt(text, o.first(p, text).value)
    ensures r == NoSnippet || |r| <= MaxChars + |Ellipsis|
  {
    match o.first(p, text)
    case None => NoSnippet
    case Some(offset) =>
      ExcerptBounds(text, offset);
      Excerpt(text, offset)
  }

  /** The shown lines: at most ten, drawn in order from the window, each non-blank and not an
      obfuscated variable, and every such window line is shown. */
  lemma ShownLinesShape(text: string, offset: nat)
    ensures var shown := ShownLines(text, offset);
      && |shown| <= WindowLines
      && IsSubsequence(shown, Window(Split(text), offset))
      && (forall k :: 0 <= k < |shown| ==> Strip(shown[k]) != "" && !IsObfuscatedVar(Strip(shown[k])))
      && (forall line :: line in Window(Split(text), offset) && ShowLine(line) ==> line in shown)
  {
    FilterIsSubsequence(ShowLine, Window(Split(text), offset));
    var shown := ShownLines(text, offset);
    forall k | 0 <= k < |shown|
      ensures Strip(shown[k]) != "" && !IsObfuscatedVar(Strip(shown[k]))
    {
      assert ShowLine(shown[k]);
    }
  }

  /** A snippet is at most 303 characters. When the joined lines fit in 300 characters it
      is those lines unchanged; otherwise it is their first 300 characters followed by
      "...". */
  lemma ExcerptBounds(text: string, offset: nat)
    ensures var joined := Join(ShownLines(text, offset));
      var r := Excerpt(text, offset);
      && |r| <= MaxChars + |Ellipsis|
      && (|joined| <= MaxChars ==> r == joined && |r| <= MaxChars)
      && (|joined| > MaxChars ==> r == joined[..MaxChars] + Ellipsis)
  {
    var joined := Join(ShownLines(text, offset));
    var r := Excerpt(text, offset);
    if |joined| > MaxChars {
      assert r == r[..MaxChars] + r[MaxChars..];
    }
  }

  /** The joined text of non-empty lines starts with the first line. */
  lemma {:induction false} JoinStartsWithFirst(lines: seq<string>)
    requires lines != []
    ensures StartsWith(Join(lines), lines[0])
  {
    if |lines| > 1 {
      assert Join(lines) == lines[0] + ("\n" + Join(lines[1..]));
    }
  }

  /** Every shown line is a line of the text, non-blank once stripped, hence non-empty. */
  lemma ShownLinesOfText(text: string, offset: nat)
    ensures var shown := ShownLines(text, offset);
      forall k :: 0 <= k < |shown| ==> shown[k] in Split(text) && shown[k] != ""
  {
    var lines := Split(text);
    var w := Window(lines, offset);
    var shown := ShownLines(text, offset);
    forall k | 0 <= k < |shown|
      ensures shown[k] in lines && shown[k] != ""
    {
      assert shown[k] in w;
      var i :| 0 <= i < |w| && w[i] == shown[k];
      assert shown[k] == lines[WindowStart(offset) + i];
      assert ShowLine(shown[k]);
    }
  }

  /** On cleaned text the snippet filter only drops blank lines: a cleaned line is already
      stripped and opens with a keyword, so it is never an obfuscated variable. */
  lemma CleanTextLinesShown(source: string)
    ensures forall line :: line in Split(CleanSource(source)) ==> (ShowLine(line) <==> line != "")
  {
    var lines := Split(source);
    var out := RetainedLines(lines);
    SplitCleanSource(source);
    RetainedLinesSound(lines);
    forall line | line in Split(CleanSource(source))
      ensures ShowLine(line) <==> line != ""
    {
      if out == [] {
        assert line == "";
        assert Strip(line) == "";
      } else {
        var k :| 0 <= k < |out| && out[k] == line;
        var j :| 0 <= j < |lines| && out[k] == Strip(lines[j]);
        StripIdempotent(lines[j]);
        KeepPrefixExcludesNoise(line);
      }
    }
  }

  /** Truncation keeps the first character of non-empty text. */
  lemma TruncateKeepsFirst(s: string)
    requires s != []
    ensures Truncate(s) != [] && Truncate(s)[0] == s[0]
  {
    if |s| > MaxChars {
      assert Truncate(s)[..MaxChars][0] == s[..MaxChars][0];
    }
  }

  /** Text that is empty or opens with a keyword's first letter is not the sentinel. */
  lemma NotSentinel(r: string)
    requires r == [] || r[0] in "pcfmers"
    ensures r != NoSnippet
  {
    assert NoSnippet[0] == 'N';
  }

  /** Lines whose first line opens with a keyword join into text whose first character
      is a keyword's first letter. */
  lemma JoinedOpensWithKeyword(lines: seq<string>)
    requires lines != [] && HasKeepPrefix(lines[0])
    ensures var joined := Join(lines);
      joined != [] && joined[0] in "pcfmers"
  {
    var joined := Join(lines);
    var first := lines[0];
    KeepPrefixExcludesNoise(first);
    JoinStartsWithFirst(lines);
    assert joined[..|first|][0] == joined[0];
  }

  /** Over cleaned text, a snippet never spells the sentinel: it is empty or starts with a
      keyword line, whose first letter is not `N`. */
  lemma ExcerptOfCleanTextIsNotSentinel(text: string, offset: nat)
    requires IsCleanText(text)
    ensures Excerpt(text, offset) != NoSnippet
  {
    var shown := ShownLines(text, offset);
    var joined := Join(shown);
    var r := Excerpt(text, offset);
    assert r == Truncate(joined);
    if shown != [] {
      ShownLinesOfText(text, offset);
      assert shown[0] in Split(text) && shown[0] != "";
      assert HasKeepPrefix(shown[0]);
      JoinedOpensWithKeyword(shown);
      TruncateKeepsFirst(joined);
      assert r[0] == joined[0];
    } else {
      assert joined == "";
      assert r == "";
    }
    NotSentinel(r);
  }

  /** Under the consistency axiom, the extractor answers the sentinel path exactly when the
      pattern has no match; otherwise it answers the excerpt for the first match. */
  lemma ExtractSnippetPath(o: Oracle, p: Pattern, text: string)
    requires Consistent(o)
    ensures o.count(p, text) == 0 ==> ExtractSnippet(o, p, text) == NoSnippet
    ensures o.count(p, text) > 0 ==>
      && o.first(p, text).Some?
      && o.first(p, text).value <= |text|
      && ExtractSnippet(o, p, text) == Excerpt(text, o.first(p, text).value)
      && |ExtractSnippet(o, p, text)| <= MaxChars + |Ellipsis|
  {
    if o.count(p, text) > 0 {
      ExcerptBounds(text, o.first(p, text).value);
    }
  }

  /** Over cleaned text and under the consistency axiom, the extractor returns the sentinel
      string exactly when the pattern has no match. */
  lemma SentinelIffNoMatch(o: Oracle, p: Pattern, text: string)
    requires Consistent(o)
    requires IsCleanText(text)
    ensures ExtractSnippet(o, p, text) == NoSnippet <==> o.count(p, text) == 0
  {
    if o.count(p, text) > 0 {
      ExcerptOfCleanTextIsNotSentinel(text, o.first(p, text).value);
    }
  }
}
