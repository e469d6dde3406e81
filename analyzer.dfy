/**
 * `analyze_logs`: one pass over the lines feeding the counters, then the
 * summary ranking, the top offenders and the suspicious-activity rules.
 * The lines are given as a sequence; opening the file, printing and
 * plotting are not modelled.
 */
module Analyzer {
  import opened Wrappers
  import opened LogLine
  import opened Counters
  import opened Aggregation
  import opened Ranking
  import opened Detection

  /** Everything the analysis computes from the lines. */
  datatype Analysis = Analysis(
    records: seq<LogEntry>,
    stats: Counter,
    srcIpStats: Counter,
    dstPortStats: Counter,
    summary: seq<Item>,
    topIps: seq<Item>,
    topPorts: seq<Item>,
    findings: Findings)

  /**
   * The records are those of the matching lines in order; each counter is
   * the tally of what those records contribute; the summary ranks every
   * `stats` entry; the top offenders and the findings are computed from
   * the counters and the records, with the request threshold defaulting to 10.
   */
  method AnalyzeLogs(lines: seq<string>, requestThreshold: int := 10) returns (result: Analysis)
    ensures result.records == ExtractAll(lines)
    ensures result.stats == Tally(StatsKeys(result.records))
    ensures result.srcIpStats == Tally(SrcIps(result.records))
    ensures result.dstPortStats == Tally(DstPorts(result.records))
    ensures result.summary == SortByCount(Items(result.stats))
    ensures (result.topIps, result.topPorts) == TopOffenders(result.srcIpStats, result.dstPortStats)
    ensures result.findings == Detect(result.records, requestThreshold)
  {
    var analysis := new LogAnalysis();
    for k := 0 to |lines|
      invariant fresh(analysis)
      invariant analysis.Valid()
      invariant analysis.logEntries == ExtractAll(lines[..k])
    {
      var _ := analysis.AddLine(lines[k]);
      assert lines[..k + 1][..k] == lines[..k];
    }
    assert lines[..|lines|] == lines;
    var records := analysis.logEntries;
    var topIps, topPorts := Top(Items(analysis.srcIpStats), 10), Top(Items(analysis.dstPortStats), 10);
    result := Analysis(records, analysis.stats, analysis.srcIpStats, analysis.dstPortStats,
      SortByCount(Items(analysis.stats)), topIps, topPorts, Detect(records, requestThreshold));
  }
}
