/**
 Character and string primitives the auditor relies on: Python's `str.strip()`,
 `str.split('\n')` / `'\n'.join(...)`, `startswith`, the `in` substring test,
 ASCII `upper()`, decimal rendering of counts and the `var_[a-z]` prefix test.
 */
module Text {

  /** Python's `str.isspace()`: the ASCII controls TAB..CR and FS..US, SPACE,
      and the Unicode separators Python also treats as whitespace. */
  predicate IsSpace(c: char) {
    || c == ' '
    || ('\t' <= c <= '\r')
    || ('\U{1C}' <= c <= '\U{1F}')
    || c == '\U{85}' || c == '\U{A0}' || c == '\U{1680}'
    || ('\U{2000}' <= c <= '\U{200A}')
    || c == '\U{2028}' || c == '\U{2029}' || c == '\U{202F}' || c == '\U{205F}'
    || c == '\U{3000}'
  }

  /** Drops leading whitespace: the result is the longest suffix that does not start with a space. */
  function TrimLeft(s: string): (r: string)
    ensures |r| <= |s| && r == s[|s| - |r|..]
    ensures forall i :: 0 <= i < |s| - |r| ==> IsSpace(s[i])
    ensures r == [] || !IsSpace(r[0])
    decreases |s|
  {
    if s != [] && IsSpace(s[0]) then TrimLeft(s[1..]) else s
  }

  /** Drops trailing whitespace: the result is the longest prefix that does not end with a space. */
  function TrimRight(s: string): (r: string)
    ensures |r| <= |s| && r == s[..|r|]
    ensures forall i :: |r| <= i < |s| ==> IsSpace(s[i])
    ensures r == [] || !IsSpace(r[|r| - 1])
    decreases |s|
  {
    if s != [] && IsSpace(s[|s| - 1]) then TrimRight(s[..|s| - 1]) else s
  }

  /** Python `str.strip()` with no argument. */
  function Strip(s: string): (r: string)
    ensures |r| <= |s|
    ensures r == [] || (!IsSpace(r[0]) && !IsSpace(r[|r| - 1]))
    ensures exists i :: StrippedAt(s, r, i)
  {
    TrimmedSlice(s, TrimLeft(s), TrimRight(TrimLeft(s)));
    TrimRight(TrimLeft(s))
  }

  /** A prefix `r` of a suffix `t` of `s`, with only whitespace cut away on either side,
      is a stripped slice of `s`. */
  lemma TrimmedSlice(s: string, t: string, r: string)
    requires |t| <= |s| && t == s[|s| - |t|..]
    requires |r| <= |t| && r == t[..|r|]
    requires forall j :: 0 <= j < |s| - |t| ==> IsSpace(s[j])
    requires forall j :: |r| <= j < |t| ==> IsSpace(t[j])
    ensures StrippedAt(s, r, |s| - |t|)
  {
    var i := |s| - |t|;
    forall j | 0 <= j < |r|
      ensures r[j] == s[i + j]
    {
      assert r[j] == t[j];
    }
    forall j | i + |r| <= j < |s|
      ensures IsSpace(s[j])
    {
      assert s[j] == t[j - i];
    }
  }

  /** `r` is the slice of `s` starting at `i` and everything outside it is whitespace. */
  predicate StrippedAt(s: string, r: string, i: int) {
    && 0 <= i <= |s| - |r|
    && r == s[i..i + |r|]
    && (forall j :: 0 <= j < i ==> IsSpace(s[j]))
    && (forall j :: i + |r| <= j < |s| ==> IsSpace(s[j]))
  }

  /** Stripping twice is the same as stripping once. */
  lemma StripIdempotent(s: string)
    ensures Strip(Strip(s)) == Strip(s)
  {
    var r := Strip(s);
    assert r == [] || !IsSpace(r[0]);
    assert TrimLeft(r) == r;
    assert r == [] || !IsSpace(r[|r| - 1]);
  }

  /** A stripped line holds no character the original line lacked; in particular no newline. */
  lemma StripKeepsNoNewline(s: string)
    requires '\n' !in s
    ensures '\n' !in Strip(s)
  {
  }

  /** Python `s.startswith(prefix)`. */
  predicate StartsWith(s: string, prefix: string) {
    |prefix| <= |s| && s[..|prefix|] == prefix
  }

  /** A prefix of `a` is a prefix of `a + b`. */
  lemma StartsWithAppend(a: string, b: string, prefix: string)
    requires StartsWith(a, prefix)
    ensures StartsWith(a + b, prefix)
  {
    assert (a + b)[..|prefix|] == a[..|prefix|];
  }

  /** `a + b` starts with `a`, ends with `b`, and dropping `|a|` characters leaves `b`. */
  lemma AppendParts(a: string, b: string)
    ensures StartsWith(a + b, a) && EndsWith(a + b, b) && (a + b)[|a|..] == b
  {
  }

  /** `h + m + t` starts with `h`, ends with `t`, and dropping `|h|` characters leaves `m + t`. */
  lemma ThreeParts(h: string, m: string, t: string)
    ensures StartsWith(h + m + t, h) && EndsWith(h + m + t, t) && (h + m + t)[|h|..] == m + t
  {
    assert h + m + t == h + (m + t);
    AppendParts(h, m + t);
    AppendParts(h + m, t);
  }

  /** Two strings that differ at index `i` cannot both be prefixes of the same string. */
  lemma StartsWithDiffer(s: string, p: string, q: string, i: nat)
    requires i < |p| && i < |q| && p[i] != q[i]
    requires StartsWith(s, p)
    ensures !StartsWith(s, q)
  {
    assert s[i] == s[..|p|][i];
  }

  /** Python `s.endswith(suffix)`. */
  predicate EndsWith(s: string, suffix: string) {
    |suffix| <= |s| && s[|s| - |suffix|..] == suffix
  }

  /** Python `sub in s`. */
  predicate Contains(s: string, sub: string)
    decreases |s|
  {
    StartsWith(s, sub) || (s != [] && Contains(s[1..], sub))
  }

  /** `Contains` is exactly "some slice of `s` equals `sub`". */
  lemma {:induction false} ContainsIsSlice(s: string, sub: string)
    ensures Contains(s, sub) <==> exists i :: OccursAt(s, sub, i)
    decreases |s|
  {
    if StartsWith(s, sub) {
      assert OccursAt(s, sub, 0);
    } else if s == [] {
    } else {
      ContainsIsSlice(s[1..], sub);
      if exists i :: OccursAt(s, sub, i) {
        var i :| OccursAt(s, sub, i);
        assert i != 0;
        assert OccursAt(s[1..], sub, i - 1);
      }
      if Contains(s[1..], sub) {
        var i :| OccursAt(s[1..], sub, i);
        assert s[1..][i..i + |sub|] == s[i + 1..i + 1 + |sub|];
        assert OccursAt(s, sub, i + 1);
      }
    }
  }

  /** `sub` occurs in `s` starting at index `i`. */
  predicate OccursAt(s: string, sub: string, i: int) {
    0 <= i && i + |sub| <= |s| && s[i..i + |sub|] == sub
  }

  /** The obfuscation test of bsc-auditor.py:80 and 120: the line opens with `var_` followed by a
      lower-case ASCII letter (the match is anchored and case-sensitive). */
  predicate IsObfuscatedVar(line: string) {
    StartsWith(line, "var_") && |line| > 4 && 'a' <= line[4] <= 'z'
  }

  /** Python `str.split('\n')`. */
  function Split(s: string): (r: seq<string>)
    ensures |r| >= 1
    ensures forall k :: 0 <= k < |r| ==> '\n' !in r[k]
    ensures Join(r) == s
    decreases |s|
  {
    if s == [] then [""]
    else
      var rest := Split(s[1..]);
      if s[0] == '\n' then
        JoinCons("", rest);
        [""] + rest
      else
        var r := [[s[0]] + rest[0]] + rest[1..];
        JoinHead(s[0], rest);
        r
  }

  /** Python `'\n'.join(lines)`. */
  function Join(lines: seq<string>): (r: string)
    decreases |lines|
  {
    if lines == [] then ""
    else if |lines| == 1 then lines[0]
    else lines[0] + "\n" + Join(lines[1..])
  }

  lemma JoinCons(line: string, rest: seq<string>)
    requires rest != []
    ensures Join([line] + rest) == line + "\n" + Join(rest)
  {
    assert ([line] + rest)[1..] == rest;
  }

  lemma {:induction false} JoinHead(c: char, lines: seq<string>)
    requires lines != []
    ensures Join([[c] + lines[0]] + lines[1..]) == [c] + Join(lines)
  {
    var m := [[c] + lines[0]] + lines[1..];
    assert m[1..] == lines[1..];
    if |lines| > 1 {
      assert Join(lines) == lines[0] + "\n" + Join(lines[1..]);
      assert Join(m) == ([c] + lines[0]) + "\n" + Join(lines[1..]);
    }
  }

  /** Splitting undoes joining, for a non-empty list of lines that hold no newline. */
  lemma {:induction false} SplitJoin(lines: seq<string>)
    requires lines != []
    requires forall k :: 0 <= k < |lines| ==> '\n' !in lines[k]
    ensures Split(Join(lines)) == lines
    decreases |lines|, |lines[0]|
  {
    if lines[0] == [] {
      if |lines| == 1 {
      } else {
        JoinCons("", lines[1..]);
        assert Join(lines) == [] + "\n" + Join(lines[1..]);
        SplitJoin(lines[1..]);
        assert Join(lines)[1..] == Join(lines[1..]);
        assert lines == [""] + lines[1..];
      }
    } else {
      var c := lines[0][0];
      var tail := [lines[0][1..]] + lines[1..];
      assert lines[0] == [c] + tail[0];
      assert tail[1..] == lines[1..];
      assert lines == [[c] + tail[0]] + tail[1..];
      JoinHead(c, tail);
      SplitJoin(tail);
      assert Join(lines)[1..] == Join(tail);
    }
  }

  /** ASCII `str.upper()`: lower-case letters become upper-case, every other character is kept. */
  function AsciiUpper(s: string): (r: string)
    ensures |r| == |s|
    ensures forall k :: 0 <= k < |s| && 'a' <= s[k] <= 'z' ==> r[k] == s[k] - 'a' + 'A'
    ensures forall k :: 0 <= k < |s| && !('a' <= s[k] <= 'z') ==> r[k] == s[k]
  {
    seq(|s|, k requires 0 <= k < |s| =>
      if 'a' <= s[k] <= 'z' then (s[k] as int - 'a' as int + 'A' as int) as char else s[k])
  }

  /** The decimal digit for `d`. */
  function DigitChar(d: nat): (c: char)
    requires d < 10
    ensures '0' <= c <= '9' && c as int - '0' as int == d
  {
    ('0' as int + d) as char
  }

  /** Python `str(n)` for a non-negative integer. */
  function NatToDecimal(n: nat): (r: string)
    decreases n
  {
    if n < 10 then [DigitChar(n)] else NatToDecimal(n / 10) + [DigitChar(n % 10)]
  }

  /** The value of a string of decimal digits. */
  function DecimalValue(s: string): nat
    requires forall k :: 0 <= k < |s| ==> '0' <= s[k] <= '9'
    decreases |s|
  {
    if s == [] then 0 else 10 * DecimalValue(s[..|s| - 1]) + (s[|s| - 1] as int - '0' as int)
  }

  /** Decimal rendering is a non-empty run of digits, without a leading zero except for `0`
      itself, and reading it back gives the number. */
  lemma {:induction false} DecimalRoundTrip(n: nat)
    ensures var r := NatToDecimal(n);
      && r != []
      && (forall k :: 0 <= k < |r| ==> '0' <= r[k] <= '9')
      && (r[0] == '0' <==> n == 0)
      && DecimalValue(r) == n
    decreases n
  {
    if n >= 10 {
      DecimalRoundTrip(n / 10);
      var r := NatToDecimal(n);
      var h := NatToDecimal(n / 10);
      assert r[..|r| - 1] == h;
      assert r[0] == h[0];
    }
  }
}
