/**
 The rule catalog `DANGER_PATTERNS`: five fixed detection rules in declaration order.
 Each rule carries a structural pattern, a looser string signal, an optional exclusion
 pattern, a risk level and a description of the harm.
 */
module Catalog {
  import opened Regex

  /** The risk levels the catalog uses: 高 (high) and 中 (medium). */
  datatype Level = High | Medium

  /** The label the report prints for a level. */
  function LevelLabel(l: Level): string {
    match l
    case High => "高"
    case Medium => "中"
  }

  datatype Rule = Rule(
    name: string,
    pattern: Pattern,
    signal: Pattern,
    exclude: Option<Pattern>,
    level: Level,
    harm: string)

  const SelfDestruct := Rule(
    "selfdestruct",
    Pattern(@"selfdestruct\s*\(\s*payable\s*\(\s*[^)]+\)\s*\)"),
    Pattern("selfdestruct"),
    Some(Pattern("renounced|safe|emergency")),
    High,
    "Rug Pull: Owner can destroy contract and drain funds.")

  const UnlimitedApprove := Rule(
    "unlimited_approve",
    Pattern(@"approve\s*\(\s*[^,]+,\s*type\s*\(\s*uint256\s*\)\.max\s*\)"),
    Pattern(@"uint256\.max"),
    Some(Pattern("safe|trusted|whitelist")),
    High,
    "Unlimited Approval: Infinite spending risk.")

  const OwnerMint := Rule(
    "owner_mint",
    Pattern(@"_mint\s*\(\s*msg\.sender\s*,\s*[^)]+\)\s*"),
    Pattern(@"_mint\s*\(\s*msg\.sender"),
    Some(Pattern("fixed|initial|team")),
    High,
    "Unlimited Mint: Supply dilution attack.")

  const ModeSwitch := Rule(
    "mode_switch",
    Pattern(@"setMode|tradingEnabled|transferRestricted\s*\(\s*[^)]+\)\s*"),
    Pattern("Transfer is restricted|Invalid transfer|unresolved_c5c03af3"),
    Some(Pattern("renounced|decentralized|community")),
    Medium,
    "Trading Lock: Owner can disable transfers, trapping funds.")

  const NoRenounce := Rule(
    "no_renounce",
    Pattern(@"renounceOwnership\s*\{\s*\}\s*"),
    Pattern("renounceOwnership"),
    None,
    Medium,
    "Owner Retention: Full control retained.")

  /** `DANGER_PATTERNS` in declaration order (Python dicts iterate in insertion order). */
  const Rules: seq<Rule> := [SelfDestruct, UnlimitedApprove, OwnerMint, ModeSwitch, NoRenounce]

  /** No two rules share a name (the names are dictionary keys). */
  predicate UniqueNames(rules: seq<Rule>) {
    forall i, j :: 0 <= i < j < |rules| ==> rules[i].name != rules[j].name
  }

  /** The catalog's shape: five uniquely named rules, three high and two medium, where only
      `no_renounce` has no exclusion and every exclusion pattern is non-empty. */
  lemma CatalogShape()
    ensures |Rules| == 5 && UniqueNames(Rules)
    ensures forall k :: 0 <= k < |Rules| ==> (Rules[k].exclude.None? <==> Rules[k].name == "no_renounce")
    ensures forall k :: 0 <= k < |Rules| && Rules[k].exclude.Some? ==> Rules[k].exclude.value.source != ""
    ensures forall k :: 0 <= k < |Rules| ==> (Rules[k].level == High <==> k < 3)
  {
  }
}
