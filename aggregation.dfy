/**
 * The counting pass of `analyze_logs`: every matching line appends its record
 * to `log_entries` and bumps three counters: the composite `stats` (keys
 * "src_ip:<address>", "proto:<protocol>" and, when the record has one,
 * "dst_port:<port>"), `src_ip_stats` and `dst_port_stats`.
 *
 * Each counter is specified as the tally of a stream of keys derived from
 * the records seen so far; the lemmas below show the counters agree.
 */
module Aggregation {
  import opened Wrappers
  import opened LogLine
  import opened Counters

  const SrcIpLabel: string := "src_ip:"
  const ProtoLabel: string := "proto:"
  const DstPortLabel: string := "dst_port:"

  /** The records the lines yield, in input order. */
  function ExtractAll(lines: seq<string>): (r: seq<LogEntry>)
    ensures |r| <= |lines|
  {
    if lines == [] then []
    else
      var before := ExtractAll(lines[..|lines| - 1]);
      match Extract(lines[|lines| - 1])
      case None => before
      case Some(x) => before + [x]
  }

  /** Every record is the one extracted from some line. */
  lemma {:induction false} ExtractAllSource(lines: seq<string>)
    ensures forall x :: x in ExtractAll(lines) ==> exists l :: l in lines && Extract(l) == Some(x)
  {
    if lines != [] {
      var init, last := lines[..|lines| - 1], lines[|lines| - 1];
      ExtractAllSource(init);
      forall x | x in ExtractAll(lines) ensures exists l :: l in lines && Extract(l) == Some(x) {
        if x in ExtractAll(init) {
          var l :| l in init && Extract(l) == Some(x);
          assert l in lines;
        } else {
          assert Extract(last) == Some(x);
        }
      }
    }
  }

  /** Source addresses of the records, in order. */
  function SrcIps(es: seq<LogEntry>): (r: seq<string>)
    ensures |r| == |es|
    ensures forall i :: 0 <= i < |es| ==> r[i] == es[i].srcIp
  {
    if es == [] then [] else SrcIps(es[..|es| - 1]) + [es[|es| - 1].srcIp]
  }

  /** Protocols of the records, in order. */
  function Protos(es: seq<LogEntry>): (r: seq<string>)
    ensures |r| == |es|
    ensures forall i :: 0 <= i < |es| ==> r[i] == es[i].proto
  {
    if es == [] then [] else Protos(es[..|es| - 1]) + [es[|es| - 1].proto]
  }

  /** Destination ports of the records that carry one, in order. */
  function DstPorts(es: seq<LogEntry>): seq<string>
  {
    if es == [] then []
    else
      var last := es[|es| - 1];
      DstPorts(es[..|es| - 1]) + (if last.dstPort.Some? then [last.dstPort.value] else [])
  }

  /** The number of records that carry a port pair. */
  function WithPortCount(es: seq<LogEntry>): nat
  {
    if es == [] then 0
    else WithPortCount(es[..|es| - 1]) + (if es[|es| - 1].dstPort.Some? then 1 else 0)
  }

  /** The composite keys one record increments in `stats`, in the order the source does. */
  function EntryKeys(e: LogEntry): seq<string>
  {
    [SrcIpLabel + e.srcIp, ProtoLabel + e.proto] + (if e.dstPort.Some? then [DstPortLabel + e.dstPort.value] else [])
  }

  /** The composite keys that the records increment in `stats`, in order. */
  function StatsKeys(es: seq<LogEntry>): seq<string>
  {
    if es == [] then [] else StatsKeys(es[..|es| - 1]) + EntryKeys(es[|es| - 1])
  }

  /** `tag + v` for every v of s. */
  function Labelled(tag: string, s: seq<string>): (r: seq<string>)
    ensures |r| == |s|
  {
    if s == [] then [] else Labelled(tag, s[..|s| - 1]) + [tag + s[|s| - 1]]
  }

  /** [x] when x starts with `tag`, otherwise []. */
  function Keep(x: string, tag: string): seq<string>
  {
    if tag <= x then [x] else []
  }

  /** The elements of s that start with `tag`. */
  function Filter(s: seq<string>, tag: string): seq<string>
  {
    if s == [] then [] else Filter(s[..|s| - 1], tag) + Keep(s[|s| - 1], tag)
  }

  /** The entries of m whose keys start with `tag`. */
  function Section(m: map<string, nat>, tag: string): map<string, nat>
  {
    map k | k in m && tag <= k :: m[k]
  }

  /** The three counters and the record list that the loop of `analyze_logs` updates. */
  class LogAnalysis {
    var stats: Counter
    var srcIpStats: Counter
    var dstPortStats: Counter
    var logEntries: seq<LogEntry>

    /** Each counter is the tally of the keys the records seen so far contribute. */
    ghost predicate Valid()
      reads this
    {
      && stats == Tally(StatsKeys(logEntries))
      && srcIpStats == Tally(SrcIps(logEntries))
      && dstPortStats == Tally(DstPorts(logEntries))
    }

    constructor ()
      ensures Valid() && logEntries == []
      ensures stats == Empty && srcIpStats == Empty && dstPortStats == Empty
    {
      stats, srcIpStats, dstPortStats := Empty, Empty, Empty;
      logEntries := [];
    }

    /** One iteration of the loop: match the line and, on a match, record and count it. */
    method AddLine(line: string) returns (entry: Option<LogEntry>)
      requires Valid()
      modifies this
      ensures Valid()
      ensures entry == Extract(line)
      ensures logEntries == old(logEntries) + (if entry.Some? then [entry.value] else [])
      ensures entry.None? ==> stats == old(stats) && srcIpStats == old(srcIpStats) && dstPortStats == old(dstPortStats)
    {
      entry := Extract(line);
      if entry.Some? {
        Record(entry.value);
      }
    }

    /** The body of the loop for a matching line: append the record and bump its counters. */
    method Record(data: LogEntry)
      requires Valid()
      modifies this
      ensures Valid()
      ensures logEntries == old(logEntries) + [data]
    {
      var es := logEntries + [data];
      var newStats := Increment(stats, SrcIpLabel + data.srcIp);
      newStats := Increment(newStats, ProtoLabel + data.proto);
      if data.dstPort.Some? {
        newStats := Increment(newStats, DstPortLabel + data.dstPort.value);
      }
      assert newStats == Tally(StatsKeys(es)) by { StatsStep(logEntries, data); }
      var newSrcIpStats := Increment(srcIpStats, data.srcIp);
      assert newSrcIpStats == Tally(SrcIps(es)) by { SrcIpsStep(logEntries, data); }
      var newDstPortStats := dstPortStats;
      if data.dstPort.Some? {
        newDstPortStats := Increment(dstPortStats, data.dstPort.value);
      }
      assert newDstPortStats == Tally(DstPorts(es)) by { DstPortsStep(logEntries, data); }
      stats, srcIpStats, dstPortStats := newStats, newSrcIpStats, newDstPortStats;
      logEntries := es;
    }
  }

  lemma TallySnoc(s: seq<string>, k: string)
    ensures Tally(s + [k]) == Increment(Tally(s), k)
  {
    assert (s + [k])[..|s|] == s;
  }

  lemma StatsKeysStep(es: seq<LogEntry>, e: LogEntry)
    ensures StatsKeys(es + [e]) == StatsKeys(es) + EntryKeys(e)
  {
    assert (es + [e])[..|es|] == es;
  }

  lemma TallyTwo(keys: seq<string>, k1: string, k2: string)
    ensures Tally(keys + [k1, k2]) == Increment(Increment(Tally(keys), k1), k2)
  {
    TallySnoc(keys, k1);
    TallySnoc(keys + [k1], k2);
    assert keys + [k1, k2] == keys + [k1] + [k2];
  }

  lemma TallyThree(keys: seq<string>, k1: string, k2: string, k3: string)
    ensures Tally(keys + [k1, k2, k3]) == Increment(Increment(Increment(Tally(keys), k1), k2), k3)
  {
    TallyTwo(keys, k1, k2);
    TallySnoc(keys + [k1, k2], k3);
    assert keys + [k1, k2, k3] == keys + [k1, k2] + [k3];
  }

  /** Counting one more record in `stats` is the source's two or three increments. */
  lemma StatsStep(es: seq<LogEntry>, e: LogEntry)
    ensures Tally(StatsKeys(es + [e])) ==
      var c := Increment(Increment(Tally(StatsKeys(es)), SrcIpLabel + e.srcIp), ProtoLabel + e.proto);
      if e.dstPort.Some? then Increment(c, DstPortLabel + e.dstPort.value) else c
  {
    StatsKeysStep(es, e);
    var k1, k2 := SrcIpLabel + e.srcIp, ProtoLabel + e.proto;
    if e.dstPort.Some? {
      var k3 := DstPortLabel + e.dstPort.value;
      assert EntryKeys(e) == [k1, k2, k3];
      TallyThree(StatsKeys(es), k1, k2, k3);
    } else {
      assert EntryKeys(e) == [k1, k2];
      TallyTwo(StatsKeys(es), k1, k2);
    }
  }

  lemma SrcIpsStep(es: seq<LogEntry>, e: LogEntry)
    ensures Tally(SrcIps(es + [e])) == Increment(Tally(SrcIps(es)), e.srcIp)
  {
    assert (es + [e])[..|es|] == es;
    TallySnoc(SrcIps(es), e.srcIp);
  }

  lemma DstPortsStep(es: seq<LogEntry>, e: LogEntry)
    ensures Tally(DstPorts(es + [e])) ==
      if e.dstPort.Some? then Increment(Tally(DstPorts(es)), e.dstPort.value) else Tally(DstPorts(es))
  {
    assert (es + [e])[..|es|] == es;
    if e.dstPort.Some? {
      TallySnoc(DstPorts(es), e.dstPort.value);
    } else {
      assert DstPorts(es + [e]) == DstPorts(es) + [] == DstPorts(es);
    }
  }

  lemma TagPrefix(tag: string, v: string)
    ensures tag <= tag + v
  {
    assert (tag + v)[..|tag|] == tag;
  }

  /** Keys made with tags of different first letters never share a tag. */
  lemma TagsDiffer(t1: string, t2: string, v: string)
    requires |t1| > 0 && |t2| > 0 && t1[0] != t2[0]
    ensures !(t1 <= t2 + v)
  {
    assert (t2 + v)[0] == t2[0];
  }

  lemma TagInjective(tag: string, v: string, w: string)
    ensures tag + v == tag + w <==> v == w
  {
    if tag + v == tag + w {
      assert v == (tag + v)[|tag|..];
      assert w == (tag + w)[|tag|..];
    }
  }

  lemma {:induction false} FilterAppend(a: seq<string>, b: seq<string>, tag: string)
    ensures Filter(a + b, tag) == Filter(a, tag) + Filter(b, tag)
  {
    if b != [] {
      var init, y := b[..|b| - 1], b[|b| - 1];
      assert a + b == (a + init) + [y];
      assert (a + b)[..|a + b| - 1] == a + init;
      FilterAppend(a, init, tag);
    } else {
      assert a + b == a;
    }
  }

  lemma {:induction false} FilterCount(s: seq<string>, tag: string, v: string)
    ensures multiset(Filter(s, tag))[v] == if tag <= v then multiset(s)[v] else 0
  {
    if s != [] {
      var init, y := s[..|s| - 1], s[|s| - 1];
      assert s == init + [y];
      FilterCount(init, tag, v);
    }
  }

  lemma {:induction false} LabelledCount(tag: string, s: seq<string>, v: string)
    ensures multiset(Labelled(tag, s))[tag + v] == multiset(s)[v]
  {
    if s != [] {
      var init, y := s[..|s| - 1], s[|s| - 1];
      assert s == init + [y];
      LabelledCount(tag, init, v);
      TagInjective(tag, y, v);
    }
  }

  lemma FilterSnoc(s: seq<string>, x: string, tag: string)
    ensures Filter(s + [x], tag) == Filter(s, tag) + Keep(x, tag)
  {
    assert (s + [x])[..|s|] == s;
  }

  /** Filtering one record's keys by a tag keeps the keys made with that tag. */
  lemma EntryKeysFilter(e: LogEntry, tag: string)
    ensures Filter(EntryKeys(e), tag) ==
      Keep(SrcIpLabel + e.srcIp, tag) + Keep(ProtoLabel + e.proto, tag)
      + (if e.dstPort.Some? then Keep(DstPortLabel + e.dstPort.value, tag) else [])
  {
    var k1, k2 := SrcIpLabel + e.srcIp, ProtoLabel + e.proto;
    FilterSnoc([], k1, tag);
    assert [] + [k1] == [k1];
    FilterSnoc([k1], k2, tag);
    assert [k1] + [k2] == [k1, k2];
    if e.dstPort.Some? {
      var k3 := DstPortLabel + e.dstPort.value;
      FilterSnoc([k1, k2], k3, tag);
      assert EntryKeys(e) == [k1, k2] + [k3];
    } else {
      assert EntryKeys(e) == [k1, k2];
    }
  }

  lemma StatsKeysSnoc(es: seq<LogEntry>, tag: string)
    requires es != []
    ensures Filter(StatsKeys(es), tag) == Filter(StatsKeys(es[..|es| - 1]), tag) + Filter(EntryKeys(es[|es| - 1]), tag)
  {
    FilterAppend(StatsKeys(es[..|es| - 1]), EntryKeys(es[|es| - 1]), tag);
  }

  lemma LabelledSnoc(tag: string, s: seq<string>, x: string)
    ensures Labelled(tag, s + [x]) == Labelled(tag, s) + [tag + x]
  {
    assert (s + [x])[..|s|] == s;
  }

  /** Of one record's keys, the "src_ip:" one is its source address. */
  lemma SrcEntryFilter(e: LogEntry)
    ensures Filter(EntryKeys(e), SrcIpLabel) == [SrcIpLabel + e.srcIp]
  {
    EntryKeysFilter(e, SrcIpLabel);
    TagPrefix(SrcIpLabel, e.srcIp);
    TagsDiffer(SrcIpLabel, ProtoLabel, e.proto);
    if e.dstPort.Some? {
      TagsDiffer(SrcIpLabel, DstPortLabel, e.dstPort.value);
    }
  }

  /** Of one record's keys, the "proto:" one is its protocol. */
  lemma ProtoEntryFilter(e: LogEntry)
    ensures Filter(EntryKeys(e), ProtoLabel) == [ProtoLabel + e.proto]
  {
    EntryKeysFilter(e, ProtoLabel);
    TagPrefix(ProtoLabel, e.proto);
    TagsDiffer(ProtoLabel, SrcIpLabel, e.srcIp);
    if e.dstPort.Some? {
      TagsDiffer(ProtoLabel, DstPortLabel, e.dstPort.value);
    }
  }

  /** Of one record's keys, the "dst_port:" one (if any) is its destination port. */
  lemma PortEntryFilter(e: LogEntry)
    ensures Filter(EntryKeys(e), DstPortLabel) == if e.dstPort.Some? then [DstPortLabel + e.dstPort.value] else []
  {
    EntryKeysFilter(e, DstPortLabel);
    TagsDiffer(DstPortLabel, SrcIpLabel, e.srcIp);
    TagsDiffer(DstPortLabel, ProtoLabel, e.proto);
    if e.dstPort.Some? {
      TagPrefix(DstPortLabel, e.dstPort.value);
    }
  }

  /** The "src_ip:" keys counted in `stats` are the records' source addresses, tagged, in order. */
  lemma {:induction false} SrcKeysInStats(es: seq<LogEntry>)
    ensures Filter(StatsKeys(es), SrcIpLabel) == Labelled(SrcIpLabel, SrcIps(es))
  {
    if es != [] {
      var init, e := es[..|es| - 1], es[|es| - 1];
      SrcKeysInStats(init);
      StatsKeysSnoc(es, SrcIpLabel);
      SrcEntryFilter(e);
      assert SrcIps(es) == SrcIps(init) + [e.srcIp];
      LabelledSnoc(SrcIpLabel, SrcIps(init), e.srcIp);
    }
  }

  /** The "proto:" keys counted in `stats` are the records' protocols, tagged, in order. */
  lemma {:induction false} ProtoKeysInStats(es: seq<LogEntry>)
    ensures Filter(StatsKeys(es), ProtoLabel) == Labelled(ProtoLabel, Protos(es))
  {
    if es != [] {
      var init, e := es[..|es| - 1], es[|es| - 1];
      ProtoKeysInStats(init);
      StatsKeysSnoc(es, ProtoLabel);
      ProtoEntryFilter(e);
      assert Protos(es) == Protos(init) + [e.proto];
      LabelledSnoc(ProtoLabel, Protos(init), e.proto);
    }
  }

  /** The "dst_port:" keys counted in `stats` are the records' ports, tagged, in order. */
  lemma {:induction false} PortKeysInStats(es: seq<LogEntry>)
    ensures Filter(StatsKeys(es), DstPortLabel) == Labelled(DstPortLabel, DstPorts(es))
  {
    if es != [] {
      var init, e := es[..|es| - 1], es[|es| - 1];
      PortKeysInStats(init);
      StatsKeysSnoc(es, DstPortLabel);
      PortEntryFilter(e);
      if e.dstPort.Some? {
        assert DstPorts(es) == DstPorts(init) + [e.dstPort.value];
        LabelledSnoc(DstPortLabel, DstPorts(init), e.dstPort.value);
      } else {
        assert DstPorts(es) == DstPorts(init) + [] == DstPorts(init);
      }
    }
  }

  /** How often `tag + v` was counted in `stats`. */
  lemma StatsCount(es: seq<LogEntry>, tag: string, s: seq<string>, v: string)
    requires Filter(StatsKeys(es), tag) == Labelled(tag, s)
    ensures Get(Tally(StatsKeys(es)), tag + v) == multiset(s)[v]
  {
    TallyCounts(StatsKeys(es));
    FilterCount(StatsKeys(es), tag, tag + v);
    TagPrefix(tag, v);
    LabelledCount(tag, s, v);
  }

  /**
   * After any number of records, `stats["src_ip:" + a]` equals
   * `src_ip_stats[a]`, which is the number of records from a; one of the two
   * keys is present exactly when the other is.
   */
  lemma SourcesAgree(es: seq<LogEntry>, a: string)
    ensures Get(Tally(StatsKeys(es)), SrcIpLabel + a) == Get(Tally(SrcIps(es)), a) == multiset(SrcIps(es))[a]
    ensures SrcIpLabel + a in Tally(StatsKeys(es)).counts <==> a in Tally(SrcIps(es)).counts
  {
    SrcKeysInStats(es);
    StatsCount(es, SrcIpLabel, SrcIps(es), a);
    TallyCounts(SrcIps(es));
    TallyCounts(StatsKeys(es));
  }

  /**
   * After any number of records, `stats["dst_port:" + d]` equals
   * `dst_port_stats[d]`, the number of records whose destination port is d.
   */
  lemma PortsAgree(es: seq<LogEntry>, d: string)
    ensures Get(Tally(StatsKeys(es)), DstPortLabel + d) == Get(Tally(DstPorts(es)), d) == multiset(DstPorts(es))[d]
    ensures DstPortLabel + d in Tally(StatsKeys(es)).counts <==> d in Tally(DstPorts(es)).counts
  {
    PortKeysInStats(es);
    StatsCount(es, DstPortLabel, DstPorts(es), d);
    TallyCounts(DstPorts(es));
    TallyCounts(StatsKeys(es));
  }

  /** `stats["proto:" + p]` is the number of records with protocol p. */
  lemma ProtocolsCounted(es: seq<LogEntry>, p: string)
    ensures Get(Tally(StatsKeys(es)), ProtoLabel + p) == multiset(Protos(es))[p]
  {
    ProtoKeysInStats(es);
    StatsCount(es, ProtoLabel, Protos(es), p);
  }

  /** The entries of a tally whose keys carry a tag sum to the number of tagged elements. */
  lemma SectionSum(s: seq<string>, tag: string)
    ensures Sum(Section(Tally(s).counts, tag)) == |Filter(s, tag)|
  {
    var m := Section(Tally(s).counts, tag);
    TallyCounts(s);
    forall v ensures (v in m <==> v in Filter(s, tag)) && (v in m ==> m[v] == multiset(Filter(s, tag))[v]) {
      FilterCount(s, tag, v);
    }
    SumOfCounts(m, Filter(s, tag));
  }

  lemma {:induction false} DstPortsLength(es: seq<LogEntry>)
    ensures |DstPorts(es)| == WithPortCount(es)
  {
    if es != [] {
      DstPortsLength(es[..|es| - 1]);
    }
  }

  /**
   * The counters' totals: `src_ip_stats` and the "src_ip:" and "proto:"
   * entries of `stats` each sum to the number of records; `dst_port_stats`
   * and the "dst_port:" entries each sum to the number of records with a port.
   */
  lemma CounterTotals(es: seq<LogEntry>)
    ensures Sum(Tally(SrcIps(es)).counts) == |es|
    ensures Sum(Tally(DstPorts(es)).counts) == WithPortCount(es)
    ensures Sum(Section(Tally(StatsKeys(es)).counts, SrcIpLabel)) == |es|
    ensures Sum(Section(Tally(StatsKeys(es)).counts, ProtoLabel)) == |es|
    ensures Sum(Section(Tally(StatsKeys(es)).counts, DstPortLabel)) == WithPortCount(es)
  {
    TallySum(SrcIps(es));
    TallySum(DstPorts(es));
    DstPortsLength(es);
    SrcKeysInStats(es);
    ProtoKeysInStats(es);
    PortKeysInStats(es);
    SectionSum(StatsKeys(es), SrcIpLabel);
    SectionSum(StatsKeys(es), ProtoLabel);
    SectionSum(StatsKeys(es), DstPortLabel);
  }

  /** Records come out in the order of the lines that produced them. */
  lemma {:induction false} ExtractAllAppend(a: seq<string>, b: seq<string>)
    ensures ExtractAll(a + b) == ExtractAll(a) + ExtractAll(b)
  {
    if b != [] {
      var init, y := b[..|b| - 1], b[|b| - 1];
      assert a + b == (a + init) + [y];
      assert (a + b)[..|a + b| - 1] == a + init;
      ExtractAllAppend(a, init);
    } else {
      assert a + b == a;
    }
  }
}
