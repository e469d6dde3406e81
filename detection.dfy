/**
 * `detect_suspicious`: three independent rules over the parsed records.
 * The report banners are presentation and are not modelled; each rule is
 * the data it reports. `value_counts` becomes a map from value to count,
 * since its order among equal counts is not specified; `drop_duplicates`
 * keeps first occurrences in order and so stays a sequence.
 */
module Detection {
  import opened Wrappers
  import opened LogLine
  import opened Counters
  import opened Aggregation

  const SensitivePorts: set<string> := {"22", "23", "3389", "3306", "1433", "8080"}
  const CommonProtocols: set<string> := {"TCP", "UDP"}

  /** One row of the sensitive-port report: the columns src_ip, dst_port and proto. */
  datatype Hit = Hit(srcIp: string, dstPort: string, proto: string)

  /** What the three rules report. */
  datatype Findings = Findings(
    highFrequency: map<string, nat>,
    sensitiveHits: seq<Hit>,
    unknownProtocols: map<string, nat>)

  /** `value_counts()`: each distinct value with the number of times it occurs. */
  function ValueCounts(s: seq<string>): (r: map<string, nat>)
    ensures forall v :: v in r <==> v in s
    ensures forall v :: v in r ==> r[v] == multiset(s)[v]
  {
    TallyCounts(s);
    Tally(s).counts
  }

  /**
   * The high-frequency rule: every source address with strictly more than
   * `threshold` records, with its record count.
   */
  function HighFrequency(es: seq<LogEntry>, threshold: int): (r: map<string, nat>)
    ensures forall a :: a in r <==> a in SrcIps(es) && multiset(SrcIps(es))[a] > threshold
    ensures forall a :: a in r ==> r[a] == multiset(SrcIps(es))[a]
  {
    var counts := ValueCounts(SrcIps(es));
    map a | a in counts && counts[a] > threshold :: counts[a]
  }

  /** `isin(sensitive_ports)` on the dst_port column; a missing port is never in the set. */
  predicate IsSensitive(e: LogEntry) {
    e.dstPort.Some? && e.dstPort.value in SensitivePorts
  }

  function HitOf(e: LogEntry): Hit
    requires e.dstPort.Some?
  {
    Hit(e.srcIp, e.dstPort.value, e.proto)
  }

  /** The rows of `hits`, projected to the three reported columns, in record order. */
  function Hits(es: seq<LogEntry>): (r: seq<Hit>)
    ensures forall h :: h in r <==> exists e :: e in es && IsSensitive(e) && HitOf(e) == h
  {
    if es == [] then []
    else
      var init, last := es[..|es| - 1], es[|es| - 1];
      assert forall e :: e in es <==> e in init || e == last by {
        assert es == init + [last];
      }
      Hits(init) + (if IsSensitive(last) then [HitOf(last)] else [])
  }

  /** The sensitive-port rule: the distinct hits, each once, in order of first occurrence. */
  function SensitiveHits(es: seq<LogEntry>): seq<Hit> {
    Dedup(Hits(es))
  }

  /**
   * A triple is reported exactly when some record carries it with a
   * sensitive destination port; it is reported once, and triples come in
   * the order in which they first occur among the hits.
   */
  lemma SensitiveHitsSpec(es: seq<LogEntry>)
    ensures Distinct(SensitiveHits(es))
    ensures forall h :: h in SensitiveHits(es) <==> exists e :: e in es && IsSensitive(e) && HitOf(e) == h
    ensures forall h :: h in SensitiveHits(es) ==> h.dstPort in SensitivePorts
    ensures forall h :: h in SensitiveHits(es) <==> h in Hits(es)
    ensures forall i, j :: 0 <= i < j < |SensitiveHits(es)| ==>
      FirstIndex(Hits(es), SensitiveHits(es)[i]) < FirstIndex(Hits(es), SensitiveHits(es)[j])
  {
    DedupSpec(Hits(es));
  }

  /** The protocols of the records other than TCP and UDP, in record order. */
  function OtherProtos(es: seq<LogEntry>): (r: seq<string>)
    ensures forall p :: multiset(r)[p] == if p in CommonProtocols then 0 else multiset(Protos(es))[p]
    ensures |r| == |es| - multiset(Protos(es))["TCP"] - multiset(Protos(es))["UDP"]
  {
    if es == [] then []
    else
      var init, last := es[..|es| - 1], es[|es| - 1];
      assert Protos(es) == Protos(init) + [last.proto];
      var r := OtherProtos(init) + (if last.proto in CommonProtocols then [] else [last.proto]);
      r
  }

  /** The unknown-protocol rule: `value_counts` of the protocols other than TCP and UDP. */
  function UnknownProtocols(es: seq<LogEntry>): map<string, nat> {
    ValueCounts(OtherProtos(es))
  }

  /**
   * TCP and UDP are never reported; any other protocol is reported exactly
   * when some record has it, with the number of such records.
   */
  lemma UnknownProtocolsSpec(es: seq<LogEntry>)
    ensures "TCP" !in UnknownProtocols(es) && "UDP" !in UnknownProtocols(es)
    ensures forall p :: p in UnknownProtocols(es) <==> p !in CommonProtocols && p in Protos(es)
    ensures forall p :: p in UnknownProtocols(es) ==> UnknownProtocols(es)[p] == multiset(Protos(es))[p]
  {
    var others := OtherProtos(es);
    forall p ensures p in UnknownProtocols(es) <==> p !in CommonProtocols && p in Protos(es) {
      assert p in others <==> multiset(others)[p] > 0;
      assert p in Protos(es) <==> multiset(Protos(es))[p] > 0;
    }
  }

  /** The unknown-protocol counts add up to the number of records that are neither TCP nor UDP. */
  lemma UnknownProtocolsTotal(es: seq<LogEntry>)
    ensures Sum(UnknownProtocols(es)) == |es| - multiset(Protos(es))["TCP"] - multiset(Protos(es))["UDP"]
  {
    TallySum(OtherProtos(es));
  }

  /** All three rules, the request threshold defaulting to 10. */
  function Detect(es: seq<LogEntry>, threshold: int := 10): (r: Findings)
    ensures es == [] ==> r == Findings(map[], [], map[])
  {
    Findings(HighFrequency(es, threshold), SensitiveHits(es), UnknownProtocols(es))
  }
}
