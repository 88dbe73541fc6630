/**
 The pattern matcher `_detect_dangers`: for each rule, in catalog order, it adds the
 structural and signal match counts; a rule with a positive total fires, unless it has
 an exclusion pattern that matches anywhere in the whole text; a rule that fires and is
 not suppressed yields one finding whose snippet is located by the signal pattern when
 that matched, else by the structural pattern.
 */
module Detector {
  import opened Seqs
  import opened Regex
  import opened Catalog
  import opened Cleaner
  import opened Snippet

  /** One emitted detection: the dictionary `_detect_dangers` appends. */
  datatype Finding = Finding(name: string, matches: nat, level: Level, snippet: string, harm: string)

  /** The rule's total (bsc-auditor.py:92-95): matches of the structural pattern plus matches
      of the signal pattern. */
  function TotalMatches(o: Oracle, r: Rule, text: string): nat {
    o.count(r.pattern, text) + o.count(r.signal, text)
  }

  /** The rule has an exclusion pattern, non-empty because bsc-auditor.py:98 tests it for
      truthiness, and that pattern matches at least once anywhere in the text. */
  predicate Suppressed(o: Oracle, r: Rule, text: string) {
    r.exclude.Some? && r.exclude.value.source != "" && o.count(r.exclude.value, text) > 0
  }

  /** The rule fires and is not suppressed. */
  predicate Emits(o: Oracle, r: Rule, text: string) {
    TotalMatches(o, r, text) > 0 && !Suppressed(o, r, text)
  }

  /** The pattern used to locate the snippet: the signal if it matched, else the structural pattern. */
  function SnippetPattern(o: Oracle, r: Rule, text: string): Pattern {
    if o.count(r.signal, text) > 0 then r.signal else r.pattern
  }

  /** The finding a rule yields over `text`. */
  function MakeFinding(o: Oracle, r: Rule, text: string): Finding {
    Finding(r.name, TotalMatches(o, r, text), r.level, ExtractSnippet(o, SnippetPattern(o, r, text), text), r.harm)
  }

  /** The loop of `_detect_dangers` over `rules`: every finding comes from a rule that emits,
      with a positive match count, and there are never more findings than rules. */
  function Detect(o: Oracle, rules: seq<Rule>, text: string): (fs: seq<Finding>)
    ensures |fs| <= |rules|
    ensures forall k :: 0 <= k < |fs| ==>
      && fs[k].matches > 0
      && exists j :: 0 <= j < |rules| && Emits(o, rules[j], text) && fs[k] == MakeFinding(o, rules[j], text)
    decreases |rules|
  {
    if rules == [] then []
    else
      var rest := Detect(o, rules[1..], text);
      if Emits(o, rules[0], text) then
        var fs := [MakeFinding(o, rules[0], text)] + rest;
        assert forall k :: 1 <= k < |fs| ==> fs[k] == rest[k - 1];
        fs
      else rest
  }

  /** `_detect_dangers` over the catalog: at most one finding per rule, each built from a
      catalog rule that fires unsuppressed. */
  function DetectDangers(o: Oracle, text: string): (fs: seq<Finding>)
    ensures |fs| <= |Rules|
    ensures forall f :: f in fs ==>
      f.matches > 0 && exists j :: 0 <= j < |Rules| && Emits(o, Rules[j], text) && f == MakeFinding(o, Rules[j], text)
  {
    Detect(o, Rules, text)
  }

  /** The first finding with the given rule name, if any. */
  function Lookup(fs: seq<Finding>, name: string): Option<Finding> {
    if fs == [] then None
    else if fs[0].name == name then Some(fs[0])
    else Lookup(fs[1..], name)
  }

  function FindingNames(fs: seq<Finding>): seq<string> {
    MapSeq((f: Finding) => f.name, fs)
  }

  function RuleNames(rules: seq<Rule>): seq<string> {
    MapSeq((r: Rule) => r.name, rules)
  }

  /** No findings exactly when no rule emits. */
  lemma {:induction false} NoFindingsIffNothingEmits(o: Oracle, rules: seq<Rule>, text: string)
    ensures Detect(o, rules, text) == [] <==> forall k :: 0 <= k < |rules| ==> !Emits(o, rules[k], text)
    decreases |rules|
  {
    if rules != [] {
      NoFindingsIffNothingEmits(o, rules[1..], text);
      if !Emits(o, rules[0], text) {
        forall k | 1 <= k < |rules|
          ensures rules[k] == rules[1..][k - 1]
        {
        }
      }
    }
  }

  /** A name that no rule carries is the name of no finding. */
  lemma AbsentNameHasNoFinding(o: Oracle, rules: seq<Rule>, text: string, name: string)
    requires forall j :: 0 <= j < |rules| ==> rules[j].name != name
    ensures Lookup(Detect(o, rules, text), name) == None
  {
    var fs := Detect(o, rules, text);
    LookupNone(fs, name);
  }

  lemma {:induction false} LookupNone(fs: seq<Finding>, name: string)
    requires forall k :: 0 <= k < |fs| ==> fs[k].name != name
    ensures Lookup(fs, name) == None
    decreases |fs|
  {
    if fs != [] {
      LookupNone(fs[1..], name);
    }
  }

  /** A rule of a uniquely named list yields a finding exactly when it emits, and then
      the finding is the one built from that rule. */
  lemma {:induction false} FindingForRule(o: Oracle, rules: seq<Rule>, text: string, j: nat)
    requires UniqueNames(rules)
    requires j < |rules|
    ensures Lookup(Detect(o, rules, text), rules[j].name)
         == if Emits(o, rules[j], text) then Some(MakeFinding(o, rules[j], text)) else None
    decreases |rules|
  {
    var rest := rules[1..];
    assert UniqueNames(rest);
    if j == 0 {
      if !Emits(o, rules[0], text) {
        AbsentNameHasNoFinding(o, rest, text, rules[0].name);
      }
    } else {
      FindingForRule(o, rest, text, j - 1);
      assert rest[j - 1] == rules[j];
    }
  }

  /** Findings follow rule order: their names are a subsequence of the rule names, so with
      unique rule names there is at most one finding per rule. */
  lemma {:induction false} FindingsInRuleOrder(o: Oracle, rules: seq<Rule>, text: string)
    ensures IsSubsequence(FindingNames(Detect(o, rules, text)), RuleNames(rules))
    decreases |rules|
  {
    if rules != [] {
      var rest := rules[1..];
      FindingsInRuleOrder(o, rest, text);
      var names := FindingNames(Detect(o, rest, text));
      var all := RuleNames(rules);
      assert all[1..] == RuleNames(rest);
      if Emits(o, rules[0], text) {
        var fnames := FindingNames(Detect(o, rules, text));
        assert Detect(o, rules, text) == [MakeFinding(o, rules[0], text)] + Detect(o, rest, text);
        assert fnames[1..] == names;
        assert fnames[0] == all[0];
      } else {
        assert Detect(o, rules, text) == Detect(o, rest, text);
        SubsequenceOfTail(names, all);
      }
    }
  }

  /** An emitted finding carries its rule's name, level and harm unchanged, the sum of the
      two counts, and the snippet located by the signal pattern when that matched and by the
      structural pattern otherwise. Under the consistency axiom the locating pattern always
      has a first match, so the snippet is the excerpt around it and never the sentinel path;
      over cleaned text it is never the sentinel string either. */
  lemma EmittedFinding(o: Oracle, r: Rule, text: string)
    requires Consistent(o)
    requires Emits(o, r, text)
    ensures var f := MakeFinding(o, r, text);
      && f.name == r.name && f.level == r.level && f.harm == r.harm
      && f.matches == o.count(r.pattern, text) + o.count(r.signal, text) > 0
      && (o.count(r.signal, text) > 0 ==> f.snippet == ExtractSnippet(o, r.signal, text))
      && (o.count(r.signal, text) == 0 ==> f.snippet == ExtractSnippet(o, r.pattern, text))
      && o.first(SnippetPattern(o, r, text), text).Some?
      && f.snippet == Excerpt(text, o.first(SnippetPattern(o, r, text), text).value)
      && (IsCleanText(text) ==> f.snippet != NoSnippet)
  {
    var p := SnippetPattern(o, r, text);
    assert o.count(p, text) > 0;
    ExtractSnippetPath(o, p, text);
    if IsCleanText(text) {
      SentinelIffNoMatch(o, p, text);
    }
  }

  /** The catalog's rule `k` yields a finding exactly when its two counts add up to more than
      zero and it is not the case that it has an exclusion pattern matching somewhere in the
      whole text. */
  lemma CatalogFindingIff(o: Oracle, text: string, k: nat)
    requires k < |Rules|
    ensures var r := Rules[k];
      Lookup(DetectDangers(o, text), r.name).Some?
      <==> (o.count(r.pattern, text) + o.count(r.signal, text) > 0
            && !(r.exclude.Some? && o.count(r.exclude.value, text) > 0))
    ensures Lookup(DetectDangers(o, text), Rules[k].name).Some? ==>
      Lookup(DetectDangers(o, text), Rules[k].name).value == MakeFinding(o, Rules[k], text)
  {
    CatalogShape();
    FindingForRule(o, Rules, text, k);
  }

  /** `no_renounce` has no exclusion: no text can suppress it, so whenever its counts are
      positive its finding is emitted. */
  lemma NoRenounceNeverSuppressed(o: Oracle, text: string)
    requires o.count(NoRenounce.pattern, text) + o.count(NoRenounce.signal, text) > 0
    ensures Lookup(DetectDangers(o, text), "no_renounce") == Some(MakeFinding(o, NoRenounce, text))
  {
    CatalogShape();
    FindingForRule(o, Rules, text, 4);
  }

  /** A rule with an exclusion pattern yields no finding once that pattern matches anywhere
      in the text, however many times its own patterns match. */
  lemma ExclusionSuppresses(o: Oracle, text: string, k: nat)
    requires k < |Rules| && Rules[k].exclude.Some?
    requires o.count(Rules[k].exclude.value, text) > 0
    ensures Lookup(DetectDangers(o, text), Rules[k].name) == None
  {
    CatalogShape();
    FindingForRule(o, Rules, text, k);
  }

  /** The catalog run yields at most five findings, in catalog order, at most one per rule. */
  lemma CatalogFindingsOrdered(o: Oracle, text: string)
    ensures |DetectDangers(o, text)| <= 5
    ensures IsSubsequence(FindingNames(DetectDangers(o, text)),
                          ["selfdestruct", "unlimited_approve", "owner_mint", "mode_switch", "no_renounce"])
  {
    FindingsInRuleOrder(o, Rules, text);
    CatalogRuleNames();
  }

  /** The catalog's rule names, in declaration order. */
  lemma CatalogRuleNames()
    ensures RuleNames(Rules) == ["selfdestruct", "unlimited_approve", "owner_mint", "mode_switch", "no_renounce"]
  {
    var names := RuleNames(Rules);
    assert |names| == 5;
    assert names[0] == "selfdestruct" && names[1] == "unlimited_approve" && names[2] == "owner_mint";
    assert names[3] == "mode_switch" && names[4] == "no_renounce";
  }
}
