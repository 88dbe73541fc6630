/**
 The source normaliser `_clean_source`: a line filter that strips every line and keeps
 only the lines that open with a core Solidity keyword, skipping license boilerplate,
 comments and obfuscated `var_` lines. The loop carries an `in_license` flag.
 */
module Cleaner {
  import opened Text
  import opened Seqs

  /** The license-boilerplate markers; a line containing one is dropped. */
  predicate HasLicenseMarker(line: string) {
    || Contains(line, "MIT License")
    || Contains(line, "Copyright")
    || Contains(line, "Permission is hereby granted")
  }

  /** Comment openers/closers and obfuscated variables, skipped explicitly. */
  predicate IsCommentOrObfuscated(line: string) {
    || StartsWith(line, "//")
    || StartsWith(line, "/*")
    || StartsWith(line, "*/")
    || IsObfuscatedVar(line)
  }

  /** The Solidity keywords a kept line must start with. */
  predicate HasKeepPrefix(line: string) {
    || StartsWith(line, "pragma")
    || StartsWith(line, "contract")
    || StartsWith(line, "function")
    || StartsWith(line, "mapping")
    || StartsWith(line, "event")
    || StartsWith(line, "require")
    || StartsWith(line, "emit")
    || StartsWith(line, "storage_map")
  }

  /** A stripped line the loop keeps: it opens with a keyword and carries no license marker. */
  predicate Kept(line: string) {
    HasKeepPrefix(line) && !HasLicenseMarker(line)
  }

  /** The loop of `_clean_source`, one (unstripped) line at a time, with the
      `in_license` flag as it stands before that line. */
  function CleanLines(lines: seq<string>, inLicense: bool): (r: seq<string>)
    ensures |r| <= |lines|
    ensures forall line :: line in r ==> Kept(line)
    decreases |lines|
  {
    if lines == [] then []
    else
      var line := Strip(lines[0]);
      var rest := lines[1..];
      if HasLicenseMarker(line) then CleanLines(rest, true)
      else if inLicense && line == "" then CleanLines(rest, false)
      else if IsCommentOrObfuscated(line) then CleanLines(rest, inLicense)
      else if HasKeepPrefix(line) then [line] + CleanLines(rest, inLicense)
      else CleanLines(rest, inLicense)
  }

  /** A raw line survives cleaning: stripped, it is kept. */
  predicate Retained(raw: string) {
    Kept(Strip(raw))
  }

  /** The declarative description of the cleaned lines: the stripped retained lines, in order. */
  function RetainedLines(lines: seq<string>): seq<string> {
    MapSeq(Strip, Filter(Retained, lines))
  }

  /** `_clean_source`: its output is the retained lines joined by newlines. */
  function CleanSource(source: string): (r: string)
    ensures r == Join(RetainedLines(Split(source)))
  {
    LicenseFlagHasNoEffect(Split(source), false);
    Join(CleanLines(Split(source), false))
  }

  /** A string that starts with a non-empty prefix starts with that prefix's first character. */
  lemma StartsWithFirst(s: string, prefix: string)
    requires prefix != [] && StartsWith(s, prefix)
    ensures s != [] && s[0] == prefix[0]
  {
    assert s[..|prefix|][0] == s[0];
  }

  /** A line opening with a keyword is not blank, and starts with one of the keywords'
      first letters, none of which opens a comment or an obfuscated variable. */
  lemma KeepPrefixExcludesNoise(line: string)
    requires HasKeepPrefix(line)
    ensures line != [] && line[0] in "pcfmers"
    ensures !IsCommentOrObfuscated(line)
  {
    if StartsWith(line, "pragma") { StartsWithFirst(line, "pragma"); }
    else if StartsWith(line, "contract") { StartsWithFirst(line, "contract"); }
    else if StartsWith(line, "function") { StartsWithFirst(line, "function"); }
    else if StartsWith(line, "mapping") { StartsWithFirst(line, "mapping"); }
    else if StartsWith(line, "event") { StartsWithFirst(line, "event"); }
    else if StartsWith(line, "require") { StartsWithFirst(line, "require"); }
    else if StartsWith(line, "emit") { StartsWithFirst(line, "emit"); }
    else { StartsWithFirst(line, "storage_map"); }
    if StartsWith(line, "//") { StartsWithFirst(line, "//"); }
    if StartsWith(line, "/*") { StartsWithFirst(line, "/*"); }
    if StartsWith(line, "*/") { StartsWithFirst(line, "*/"); }
    if StartsWith(line, "var_") { StartsWithFirst(line, "var_"); }
  }

  /** The `in_license` flag after the loop has seen `line` (stripped). */
  function NextFlag(line: string, inLicense: bool): bool {
    if HasLicenseMarker(line) then true
    else if inLicense && line == "" then false
    else inLicense
  }

  /** One step of the loop: the output grows by the stripped line exactly when the raw
      line is retained, whatever the flag. */
  lemma StepAgrees(lines: seq<string>, inLicense: bool)
    requires lines != []
    ensures CleanLines(lines, inLicense)
         == (if Retained(lines[0]) then [Strip(lines[0])] else [])
            + CleanLines(lines[1..], NextFlag(Strip(lines[0]), inLicense))
  {
    var line := Strip(lines[0]);
    var rest := lines[1..];
    var next := NextFlag(line, inLicense);
    if HasLicenseMarker(line) {
      assert !Retained(lines[0]);
      assert CleanLines(lines, inLicense) == CleanLines(rest, next);
    } else if inLicense && line == "" {
      assert !HasKeepPrefix(line);
      assert CleanLines(lines, inLicense) == CleanLines(rest, next);
    } else if IsCommentOrObfuscated(line) {
      if HasKeepPrefix(line) {
        KeepPrefixExcludesNoise(line);
      }
      assert CleanLines(lines, inLicense) == CleanLines(rest, next);
    } else if HasKeepPrefix(line) {
      assert Retained(lines[0]);
      assert CleanLines(lines, inLicense) == [line] + CleanLines(rest, next);
    } else {
      assert CleanLines(lines, inLicense) == CleanLines(rest, next);
    }
  }

  /** The `in_license` flag has no observable effect: whatever its value, the loop keeps
      exactly the retained lines. */
  lemma {:induction false} LicenseFlagHasNoEffect(lines: seq<string>, inLicense: bool)
    ensures CleanLines(lines, inLicense) == RetainedLines(lines)
    decreases |lines|
  {
    if lines != [] {
      var rest := lines[1..];
      var next := NextFlag(Strip(lines[0]), inLicense);
      StepAgrees(lines, inLicense);
      LicenseFlagHasNoEffect(rest, next);
      MapFilterStep(Strip, Retained, lines, CleanLines(lines, inLicense), CleanLines(rest, next));
    }
  }

  /** The cleaned lines never outnumber the input lines, and each one is a stripped input
      line that opens with a keyword and carries no license marker. */
  lemma RetainedLinesSound(lines: seq<string>)
    ensures var out := RetainedLines(lines);
      && |out| <= |lines|
      && (forall k :: 0 <= k < |out| ==> HasKeepPrefix(out[k]) && !HasLicenseMarker(out[k]))
      && (forall k :: 0 <= k < |out| ==> exists j :: 0 <= j < |lines| && out[k] == Strip(lines[j]))
  {
    var kept := Filter(Retained, lines);
    var out := RetainedLines(lines);
    forall k | 0 <= k < |out|
      ensures HasKeepPrefix(out[k]) && !HasLicenseMarker(out[k])
      ensures exists j :: 0 <= j < |lines| && out[k] == Strip(lines[j])
    {
      assert Retained(kept[k]);
      assert kept[k] in lines;
    }
  }

  /** Every retained input line appears, stripped, among the cleaned lines. */
  lemma RetainedLinesComplete(lines: seq<string>)
    ensures forall j :: 0 <= j < |lines| && Retained(lines[j]) ==> Strip(lines[j]) in RetainedLines(lines)
  {
    var kept := Filter(Retained, lines);
    var out := RetainedLines(lines);
    forall j | 0 <= j < |lines| && Retained(lines[j])
      ensures Strip(lines[j]) in out
    {
      assert lines[j] in kept;
      var i :| 0 <= i < |kept| && kept[i] == lines[j];
      assert out[i] == Strip(lines[j]);
    }
  }

  /** The cleaned lines keep the input order: they are a subsequence of the stripped input. */
  lemma RetainedLinesInOrder(lines: seq<string>)
    ensures IsSubsequence(RetainedLines(lines), MapSeq(Strip, lines))
  {
    FilterIsSubsequence(Retained, lines);
    MapPreservesSubsequence(Strip, Filter(Retained, lines), lines);
  }

  /** Text in which every line is blank or opens with a keyword, as cleaned text is. */
  predicate IsCleanText(text: string) {
    forall line :: line in Split(text) ==> line == "" || HasKeepPrefix(line)
  }

  /** When no input line holds a newline (as after `split('\n')`), no cleaned line does. */
  lemma RetainedLinesHaveNoNewline(lines: seq<string>)
    requires forall j :: 0 <= j < |lines| ==> '\n' !in lines[j]
    ensures forall k :: 0 <= k < |RetainedLines(lines)| ==> '\n' !in RetainedLines(lines)[k]
  {
    var out := RetainedLines(lines);
    RetainedLinesSound(lines);
    forall k | 0 <= k < |out|
      ensures '\n' !in out[k]
    {
      var j :| 0 <= j < |lines| && out[k] == Strip(lines[j]);
      StripKeepsNoNewline(lines[j]);
    }
  }

  /** Splitting the cleaned text gives back the retained lines, or one empty line when
      nothing was retained. */
  lemma SplitCleanSource(source: string)
    ensures var out := RetainedLines(Split(source));
      Split(CleanSource(source)) == (if out == [] then [""] else out)
  {
    var lines := Split(source);
    var out := RetainedLines(lines);
    var text := CleanSource(source);
    assert text == Join(out);
    if out != [] {
      RetainedLinesHaveNoNewline(lines);
      SplitJoin(out);
    } else {
      assert text == "";
    }
  }

  /** Splitting the cleaned text gives back the retained lines (or one empty line when
      nothing was retained), so cleaned text is clean. */
  lemma CleanSourceLines(source: string)
    ensures var out := RetainedLines(Split(source));
      Split(CleanSource(source)) == (if out == [] then [""] else out)
    ensures IsCleanText(CleanSource(source))
  {
    var out := RetainedLines(Split(source));
    var split := Split(CleanSource(source));
    SplitCleanSource(source);
    RetainedLinesSound(Split(source));
    forall line | line in split
      ensures line == "" || HasKeepPrefix(line)
    {
      if out != [] {
        var k :| 0 <= k < |out| && out[k] == line;
      }
    }
  }
}
