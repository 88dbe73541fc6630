/**
 One audit run of `BSCContractAuditor`: normalise the source, detect dangers over the
 normalised text and compose the report. Reading the file, running Slither and the
 on-chain lookup are outside the model; the Slither messages arrive as a parameter.
 */
module Auditor {
  import opened Text
  import opened Regex
  import opened Catalog
  import opened Cleaner
  import opened Snippet
  import opened Detector
  import opened Report

  /** The findings of an audit run: the catalog applied to the cleaned source. */
  function AuditFindings(o: Oracle, source: string): seq<Finding> {
    DetectDangers(o, CleanSource(source))
  }

  /** `BSCContractAuditor(...).generate_report()` for the given source and Slither messages:
      the report opens with the header and closes with one bullet per Slither message. */
  function Audit(o: Oracle, source: string, issues: seq<string>): (report: string)
    ensures StartsWith(report, Header)
    ensures EndsWith(report, SlitherHeading + Bullets(issues))
  {
    GenerateReport(AuditFindings(o, source), issues)
  }

  /** Under the consistency axiom every finding of an audit run carries a real snippet: the
      excerpt around the first match of its locating pattern, at most 303 characters, and never
      the "No snippet found" sentinel. */
  lemma AuditSnippetsAreReal(o: Oracle, source: string)
    requires Consistent(o)
    ensures forall f :: f in AuditFindings(o, source) ==> f.snippet != NoSnippet && |f.snippet| <= 303
  {
    var text := CleanSource(source);
    CleanSourceLines(source);
    var fs := AuditFindings(o, source);
    forall f | f in fs
      ensures f.snippet != NoSnippet && |f.snippet| <= 303
    {
      var k :| 0 <= k < |fs| && fs[k] == f;
      var j :| 0 <= j < |Rules| && Emits(o, Rules[j], text) && f == MakeFinding(o, Rules[j], text);
      EmittedFinding(o, Rules[j], text);
      ExtractSnippetPath(o, SnippetPattern(o, Rules[j], text), text);
    }
  }

  /** The audit report opens with the header; the "no dangerous functions" section follows it
      exactly when no catalog rule emits over the cleaned source, and the findings heading
      follows it otherwise; the Slither section with one bullet per message closes it. With
      the collaborator's fallback message, that section is its single bullet line. */
  lemma AuditReportShape(o: Oracle, source: string, issues: seq<string>)
    ensures var report := Audit(o, source, issues);
      var quiet := forall k :: 0 <= k < |Rules| ==> !Emits(o, Rules[k], CleanSource(source));
      && StartsWith(report, Header)
      && (StartsWith(report[|Header|..], NoDangers) <==> quiet)
      && (StartsWith(report[|Header|..], FindingsHeadingStart) <==> !quiet)
      && EndsWith(report, SlitherHeading + Bullets(issues))
      && (issues == [SlitherFallback] ==> EndsWith(report, SlitherHeading + "- " + SlitherFallback + "\n"))
  {
    var text := CleanSource(source);
    var fs := AuditFindings(o, source);
    NoFindingsIffNothingEmits(o, Rules, text);
    ReportText(fs, issues);
    if issues == [SlitherFallback] {
      SingleMessageClosesReport(fs, SlitherFallback);
    }
  }
}
