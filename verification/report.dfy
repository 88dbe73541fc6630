/**
 The report composer `generate_report`: a header, then either a findings section (one
 block per finding, in order) followed by a risk conclusion, or a "no dangerous
 functions" section, and finally the Slither section with one bullet per message.

 The report is built as a list of sections and rendered by concatenation, so that
 section presence and order can be stated independently of the text inside them.
 */
module Report {
  import opened Text
  import opened Seqs
  import opened Catalog
  import opened Detector

  const Header: string := "## 🚨 BSC 合约危险函数审计报告\n\n"

  /** The opening of the findings heading, before the count. */
  const FindingsHeadingStart: string := "### 🔍 检测到危险函数 ("

  const NoDangers: string := "### 🟢 无危险函数检测\n- 基本 ERC-20 合规，但需进一步 Slither 分析。\n\n"

  const SlitherHeading: string := "### 📊 Slither 静态分析结果\n"

  /** The single message the static-analysis collaborator supplies when it cannot run. */
  const SlitherFallback: string := "Slither skipped: Decompiled code not compilable. Use custom detection for risks."

  /** `chr(127988)`, the flag the conclusion prints. */
  const RiskFlag: char := '\U{1F3F4}'

  /** `chr(128309)`, the marker of the conditional's last branch. */
  const CalmMarker: char := '\U{1F535}'

  function FindingsHeading(n: nat): string {
    FindingsHeadingStart + NatToDecimal(n) + " 个)\n"
  }

  /** The block for one finding: upper-cased rule name and level, match count, fenced
      snippet and harm text. */
  function FindingBlock(f: Finding): string {
    BlockTitle(f) + BlockBody(f)
  }

  /** `#### NAME (level 风险)`. */
  function BlockTitle(f: Finding): string {
    "#### " + AsciiUpper(f.name) + " (" + LevelLabel(f.level) + " 风险)\n"
  }

  function BlockBody(f: Finding): string {
    "**匹配次数**: " + NatToDecimal(f.matches) + "\n"
    + "**代码片段**:\n```solidity\n" + f.snippet + "\n```\n"
    + "**潜在危害**: " + f.harm + "\n\n"
  }

  /** The blocks of all findings, in list order. */
  function FindingBlocks(fs: seq<Finding>): string {
    Concat(FindingBlock, fs)
  }

  /** The marker of the risk conclusion (bsc-auditor.py:176), with its three branches as
      written: the flag above two findings, the flag again for one or two, and the calm
      marker for none. */
  function RiskMarker(n: nat): char {
    if n > 2 then RiskFlag else if n > 0 then RiskFlag else CalmMarker
  }

  function Conclusion(n: nat): string {
    "### ⚠️ 风险结论\n- **风险等级**: 高风险 " + [RiskMarker(n)] + "（检测到 " + NatToDecimal(n)
    + " 个危险函数）\n- **建议**: 结合链上数据 DYOR，检查 owner 活动。\n\n"
  }

  /** The line printed for one analyzer message. */
  function Bullet(issue: string): string {
    "- " + issue + "\n"
  }

  /** One `- issue` line per analyzer message, in order. */
  function Bullets(issues: seq<string>): string {
    Concat(Bullet, issues)
  }

  /** The Slither section: its heading, then one bullet per message. */
  function SlitherText(issues: seq<string>): string {
    SlitherHeading + Bullets(issues)
  }

  datatype Section =
    | HeaderSection
    | FindingsSection(findings: seq<Finding>)
    | ConclusionSection(count: nat)
    | NoDangersSection
    | SlitherSection(issues: seq<string>)

  /** The sections of the report, in order. */
  function Sections(findings: seq<Finding>, issues: seq<string>): seq<Section> {
    [HeaderSection]
    + (if |findings| > 0 then [FindingsSection(findings), ConclusionSection(|findings|)] else [NoDangersSection])
    + [SlitherSection(issues)]
  }

  function RenderSection(s: Section): string {
    match s
    case HeaderSection => Header
    case FindingsSection(fs) => FindingsHeading(|fs|) + FindingBlocks(fs)
    case ConclusionSection(n) => Conclusion(n)
    case NoDangersSection => NoDangers
    case SlitherSection(issues) => SlitherText(issues)
  }

  function Render(ss: seq<Section>): string {
    Concat(RenderSection, ss)
  }

  /** `generate_report`: the report opens with the header and closes with the Slither
      heading followed by one bullet per message. */
  function GenerateReport(findings: seq<Finding>, issues: seq<string>): (report: string)
    ensures StartsWith(report, Header)
    ensures EndsWith(report, SlitherHeading + Bullets(issues))
  {
    RenderedPieces(findings, issues);
    ThreeParts(Header, Middle(findings), SlitherText(issues));
    Render(Sections(findings, issues))
  }

  /** How many sections of `ss` are Slither sections. */
  function SlitherCount(ss: seq<Section>): nat
    decreases |ss|
  {
    if ss == [] then 0 else (if ss[0].SlitherSection? then 1 else 0) + SlitherCount(ss[1..])
  }

  /** Section layout: the header comes first; the findings section (holding the findings as
      given) appears exactly when there are findings, followed by the conclusion for their
      count; the "no dangerous functions" section appears exactly when there are none; the
      Slither section, with the messages as given, appears exactly once and last. */
  lemma SectionLayout(findings: seq<Finding>, issues: seq<string>)
    ensures var ss := Sections(findings, issues);
      && ss[0] == HeaderSection
      && ((exists k :: 0 <= k < |ss| && ss[k].FindingsSection?) <==> findings != [])
      && (forall k :: 0 <= k < |ss| && ss[k].FindingsSection? ==>
            ss[k].findings == findings && k + 1 < |ss| && ss[k + 1] == ConclusionSection(|findings|))
      && ((exists k :: 0 <= k < |ss| && ss[k].NoDangersSection?) <==> findings == [])
      && SlitherCount(ss) == 1
      && ss[|ss| - 1] == SlitherSection(issues)
  {
    var ss := Sections(findings, issues);
    var last := [SlitherSection(issues)];
    assert SlitherCount(last) == 1;
    if findings != [] {
      assert ss[1].FindingsSection?;
      assert ss[3..] == last;
      assert SlitherCount(ss[2..]) == 1;
      assert SlitherCount(ss[1..]) == 1;
    } else {
      assert ss[1].NoDangersSection?;
      assert ss[2..] == last;
      assert SlitherCount(ss[1..]) == 1;
    }
  }

  /** Whenever a conclusion is rendered the risk marker is the flag `chr(127988)`: the
      conclusion only appears with at least one finding, and for any positive count the
      conditional's first two branches agree. */
  lemma RiskMarkerIsBinary(findings: seq<Finding>, issues: seq<string>)
    ensures forall n: nat :: n > 0 ==> RiskMarker(n) == RiskFlag
    ensures var ss := Sections(findings, issues);
      forall k :: 0 <= k < |ss| && ss[k].ConclusionSection? ==> ss[k].count > 0 && RiskMarker(ss[k].count) == RiskFlag
  {
  }

  /** The rendered report as text: it begins with the header; right after the header comes the
      findings heading exactly when there are findings, and the "no dangerous functions"
      section exactly when there are none; it ends with the Slither heading followed by one
      bullet per message. */
  lemma ReportText(findings: seq<Finding>, issues: seq<string>)
    ensures var report := GenerateReport(findings, issues);
      && StartsWith(report, Header)
      && (StartsWith(report[|Header|..], FindingsHeadingStart) <==> findings != [])
      && (StartsWith(report[|Header|..], NoDangers) <==> findings == [])
      && EndsWith(report, SlitherHeading + Bullets(issues))
  {
    var tail := SlitherText(issues);
    var mid := Middle(findings);
    RenderedPieces(findings, issues);
    ThreeParts(Header, mid, tail);
    MiddleOpening(findings);
    HeadingsDiffer();
    if findings != [] {
      StartsWithAppend(mid, tail, FindingsHeadingStart);
      StartsWithDiffer(mid + tail, FindingsHeadingStart, NoDangers, 4);
    } else {
      StartsWithAppend(mid, tail, NoDangers);
      StartsWithDiffer(mid + tail, NoDangers, FindingsHeadingStart, 4);
    }
  }

  /** The text between the header and the Slither section. */
  function Middle(findings: seq<Finding>): string {
    if |findings| > 0 then FindingsHeading(|findings|) + FindingBlocks(findings) + Conclusion(|findings|)
    else NoDangers
  }

  /** The rendered sections are the header, the middle text and the Slither section. */
  lemma RenderedPieces(findings: seq<Finding>, issues: seq<string>)
    ensures Render(Sections(findings, issues)) == Header + Middle(findings) + SlitherText(issues)
  {
    var middle := if |findings| > 0 then [FindingsSection(findings), ConclusionSection(|findings|)] else [NoDangersSection];
    ConcatAppend(RenderSection, [HeaderSection] + middle, [SlitherSection(issues)]);
    ConcatAppend(RenderSection, [HeaderSection], middle);
    ConcatSingle(RenderSection, HeaderSection);
    ConcatSingle(RenderSection, SlitherSection(issues));
    if findings != [] {
      ConcatAppend(RenderSection, [FindingsSection(findings)], [ConclusionSection(|findings|)]);
      ConcatSingle(RenderSection, FindingsSection(findings));
      ConcatSingle(RenderSection, ConclusionSection(|findings|));
    } else {
      ConcatSingle(RenderSection, NoDangersSection);
    }
  }

  lemma MiddleOpening(findings: seq<Finding>)
    ensures findings != [] ==> StartsWith(Middle(findings), FindingsHeadingStart)
    ensures findings == [] ==> StartsWith(Middle(findings), NoDangers)
  {
    var n := |findings|;
    if findings != [] {
      var digits := NatToDecimal(n);
      StartsWithAppend(FindingsHeadingStart, [], FindingsHeadingStart);
      StartsWithAppend(FindingsHeadingStart, digits, FindingsHeadingStart);
      StartsWithAppend(FindingsHeadingStart + digits, " 个)\n", FindingsHeadingStart);
      StartsWithAppend(FindingsHeading(n), FindingBlocks(findings), FindingsHeadingStart);
      StartsWithAppend(FindingsHeading(n) + FindingBlocks(findings), Conclusion(n), FindingsHeadingStart);
    } else {
      StartsWithAppend(NoDangers, [], NoDangers);
    }
  }

  /** The findings heading and the "no dangerous functions" heading differ in their fifth
      character (the magnifier and the green circle). */
  lemma HeadingsDiffer()
    ensures |FindingsHeadingStart| > 4 && |NoDangers| > 4 && FindingsHeadingStart[4] != NoDangers[4]
  {
  }

  /** With a single message, such as the collaborator's fallback message, the Slither section
      is the heading and that message's single bullet line. */
  lemma SingleMessageClosesReport(findings: seq<Finding>, message: string)
    ensures EndsWith(GenerateReport(findings, [message]), SlitherHeading + "- " + message + "\n")
  {
    ReportText(findings, [message]);
    ConcatSingle(Bullet, message);
  }

  /** Bullets are one line per message, in order: they distribute over concatenation and a
      single message gives the single line `- message`. */
  lemma BulletsAppend(a: seq<string>, b: seq<string>)
    ensures Bullets(a + b) == Bullets(a) + Bullets(b)
    ensures forall line :: Bullets([line]) == "- " + line + "\n"
  {
    ConcatAppend(Bullet, a, b);
    forall line
      ensures Bullets([line]) == "- " + line + "\n"
    {
      ConcatSingle(Bullet, line);
    }
  }

  /** Finding blocks are one per finding, in list order: they distribute over concatenation,
      and each block opens with the upper-cased rule name. */
  lemma FindingBlocksAppend(a: seq<Finding>, b: seq<Finding>)
    ensures FindingBlocks(a + b) == FindingBlocks(a) + FindingBlocks(b)
    ensures forall f :: StartsWith(FindingBlock(f), "#### " + AsciiUpper(f.name))
  {
    ConcatAppend(FindingBlock, a, b);
    forall f: Finding
      ensures StartsWith(FindingBlock(f), "#### " + AsciiUpper(f.name))
    {
      var h := "#### " + AsciiUpper(f.name);
      AppendParts(h, " (");
      StartsWithAppend(h + " (", LevelLabel(f.level), h);
      StartsWithAppend(h + " (" + LevelLabel(f.level), " 风险)\n", h);
      StartsWithAppend(BlockTitle(f), BlockBody(f), h);
    }
  }
}
