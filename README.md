# Firewall log analyzer — a Dafny model

This project models the core of a firewall log analyzer. The analyzer reads
the lines of a firewall log and picks out the lines that carry
`SRC=<address> DST=<address> ... PROTO=<protocol>`, optionally followed by a
`SPT=<digits> DPT=<digits>` port pair. It turns each such line into a record
with five fields: source address, destination address, protocol, source port
and destination port.

While it reads, it keeps three counters:

- a composite `stats` table, keyed by `src_ip:<address>`, `proto:<protocol>` and `dst_port:<port>`;
- a per-source-address table;
- a per-destination-port table.

After the pass it does three things:

- ranks `stats` by count for its summary;
- ranks the two per-entity tables and keeps the top `top_n` of each (default 10);
- runs three suspicious-activity rules over the records: high-frequency sources, connections to sensitive ports, and uncommon protocols.

The model is organised as follows:

- `log_line.dfy` (module `LogLine`) is the line extractor. It is a hand-written matcher that makes the same choices as Python's backtracking `re.search` on the analyzer's pattern. The matcher's own doc comment lists those choices.
- `counters.dfy` (module `Counters`) models `defaultdict(int)` counters. A counter keeps its keys in insertion order, because a Python dict iterates in that order and the order breaks ties in the stable sort. It also holds `Tally`, the counter a stream of increments leaves, and `Dedup`, which keeps first occurrences.
- `aggregation.dfy` (module `Aggregation`) is the counting loop's state: the class `LogAnalysis` with one method per line. Its invariant ties each counter to the records seen so far. The lemmas show how the counters agree with each other and what they sum to.
- `ranking.dfy` (module `Ranking`) is the stable descending sort by count and the `[:top_n]` slice.
- `detection.dfy` (module `Detection`) holds the three rules of `detect_suspicious`.
- `analyzer.dfy` (module `Analyzer`) is `analyze_logs`: the loop over the lines, then ranking and detection.

Several operations are functions whose behaviour is stated by lemmas about them:

- `LogLine.Extract` (`search` then `groupdict()`, src/analyzer.py:20-30) by `ExtractRecognises`, `SearchLeftmost`, `MatchAtChoices`, `MatchAtPorts` and `ExtractedFields`;
- `Ranking.SortByCount` (src/analyzer.py:44) by `SortByCountSpec` and `SortByCountStable`;
- `Ranking.Top` (`[:top_n]`, src/analyzer.py:76 and :84) by `TopSpec`, `TopKeepsHighest` and `TopKeepsEarliest`;
- `Detection.SensitiveHits` (src/analyzer.py:112-117) by `SensitiveHitsSpec`;
- `Detection.UnknownProtocols` (src/analyzer.py:122-127) by `UnknownProtocolsSpec` and `UnknownProtocolsTotal`.

Behaviour of the pattern that is easy to misread:

- The protocol comes from the last qualifying `PROTO=` on the line, not the first. The regex's `.*` is greedy.
- The port pair comes from the last well-formed `SPT=<digits> DPT=<digits>` after the protocol token.
- `DST=` must follow the source token after exactly one whitespace character.
- `DPT=` must follow the `SPT` digits after exactly one whitespace character.
- The insertion order of `stats` is not irrelevant: it decides the order of equal counts in the summary. The model keeps it.

## Model

| member | source | states |
|---|---|---|
| LogLine.MatchAtFrame | src/analyzer.py:8 | a match found from a start position satisfies the whole mandatory pattern (`SRC=` token, one whitespace, `DST=` token, `PROTO=` token followed by whitespace) and its port position satisfies the optional group after the protocol token |
| LogLine.Search | src/analyzer.py:20 | `search` reports the match from the first start position at which the pattern matches, and none when it matches from no position |
| LogLine.Groups | src/analyzer.py:22-30 | the two ports are both present exactly when the optional port group matched, and both absent otherwise |
| LogLine.GroupsFields | src/analyzer.py:22-30 | the captured addresses and protocol are non-empty and whitespace-free, and present ports are non-empty digit runs |
| LogLine.ExtractedFields | src/analyzer.py:24-30 | every extracted record has non-empty, whitespace-free addresses and protocol, and ports that are both absent or both non-empty digit runs |
| LogLine.ExtractRecognises | src/analyzer.py:20-21 | a line yields a record if and only if the pattern matches somewhere in it |
| LogLine.MissingLabelNoRecord | src/analyzer.py:7-9 | a line with no `SRC=`, no `DST=` or no `PROTO=` yields no record |
| LogLine.SearchLeftmost | src/analyzer.py:20 | the reported match starts at the leftmost position from which the pattern can match, and a record is extracted from it |
| LogLine.MatchAtChoices | src/analyzer.py:8 | from a start position the engine takes the last usable `PROTO=`, and for it the longest destination token |
| LogLine.MatchAtPorts | src/analyzer.py:8 | the ports come from the last `SPT=...DPT=` pair on the line after the protocol token, and are absent only when no such pair exists there |
| LogLine.LastProto | src/analyzer.py:8 | the greedy `.*PROTO=`: the largest qualifying position below the bound, and none only when no position in range qualifies |
| LogLine.LastPorts | src/analyzer.py:8 | the greedy `.*SPT=`: the largest qualifying port-pair position below the bound, and none only when no position in range qualifies |
| Counters.Increment | src/analyzer.py:33 | `counter[k] += 1` raises k's count by one and leaves every other count unchanged |
| Counters.IncrementValid | src/analyzer.py:12-14 | incrementing keeps a counter well formed and adds k to its keys |
| Counters.TallyCounts | src/analyzer.py:33-41 | a counter built by increments holds, for each value, the number of times it was incremented; its keys are exactly those values, in order of first insertion |
| Counters.TallySum | src/analyzer.py:39 | a counter's counts add up to the number of increments |
| Counters.DedupSpec | src/analyzer.py:117 | `drop_duplicates` keeps each distinct element exactly once, in order of first occurrence |
| Counters.ItemsSpec | src/analyzer.py:44 | `items()` of a well-formed counter lists exactly its (key, count) entries, each key once, as many as the map has keys |
| Counters.ItemsSize | src/analyzer.py:44 | a well-formed counter lists as many items as it has keys |
| Aggregation.ExtractAll | src/analyzer.py:19-30 | there are at most as many records as lines |
| Aggregation.ExtractAllSource | src/analyzer.py:19-30 | each record is the one extracted from one of the lines |
| Aggregation.ExtractAllAppend | src/analyzer.py:19-30 | records of concatenated inputs are the records of each part, in input order |
| Aggregation.SrcIps | src/analyzer.py:25 | the source-address column has one entry per record, in record order |
| Aggregation.Protos | src/analyzer.py:27 | the protocol column has one entry per record, in record order |
| Aggregation.LogAnalysis.constructor | src/analyzer.py:12-15 | the three counters and the record list start empty |
| Aggregation.LogAnalysis.AddLine | src/analyzer.py:19-41 | a matching line appends exactly its record and updates the counters consistently with the records; a non-matching line changes nothing |
| Aggregation.LogAnalysis.Record | src/analyzer.py:24-41 | appending a record and bumping its two or three composite keys and its per-entity counters keeps every counter equal to the tally of the records |
| Aggregation.StatsStep | src/analyzer.py:33-36 | counting one more record in `stats` is exactly the source's `src_ip`, `proto` and (when a port is present) `dst_port` increments |
| Aggregation.SrcIpsStep | src/analyzer.py:39 | counting one more record in the per-source table increments its address |
| Aggregation.DstPortsStep | src/analyzer.py:40-41 | counting one more record in the per-port table increments its port only when it has one |
| Aggregation.SrcKeysInStats | src/analyzer.py:33 | the `src_ip:` keys counted in `stats` are the records' source addresses, tagged, in order |
| Aggregation.ProtoKeysInStats | src/analyzer.py:34 | the `proto:` keys counted in `stats` are the records' protocols, tagged, in order |
| Aggregation.PortKeysInStats | src/analyzer.py:35-36 | the `dst_port:` keys counted in `stats` are the records' ports, tagged, in order |
| Aggregation.SourcesAgree | src/analyzer.py:33-39 | `stats["src_ip:"+a]` equals `src_ip_stats[a]`, which is the number of records from a, and one key is present exactly when the other is |
| Aggregation.PortsAgree | src/analyzer.py:35-41 | `stats["dst_port:"+d]` equals `dst_port_stats[d]`, which is the number of records with port d, and one key is present exactly when the other is |
| Aggregation.ProtocolsCounted | src/analyzer.py:34 | `stats["proto:"+p]` is the number of records with protocol p |
| Aggregation.CounterTotals | src/analyzer.py:33-41 | the per-source counts and the `src_ip:` and `proto:` sections of `stats` each sum to the number of records; the per-port counts and the `dst_port:` section sum to the number of records with a port |
| Ranking.InsertContents | src/analyzer.py:44 | inserting into a ranking adds exactly that item |
| Ranking.InsertRanked | src/analyzer.py:44 | inserting into a ranking keeps the counts non-increasing |
| Ranking.InsertStable | src/analyzer.py:44 | an inserted item goes after every item that already has its count |
| Ranking.SortByCountSpec | src/analyzer.py:44 | the sort is a permutation, highest count first |
| Ranking.SortByCountStable | src/analyzer.py:44 | the sort is stable: for every count, the items with that count appear in their input order |
| Ranking.TopSpec | src/analyzer.py:76 | `sorted(...)[:top_n]` returns min(top_n, number of items) items of the input, in non-increasing count order |
| Ranking.TopKeepsHighest | src/analyzer.py:84 | no item left out of the top n has a higher count than an item kept |
| Ranking.TopKeepsEarliest | src/analyzer.py:76 | among items of equal count, the ones kept are the first in input order |
| Ranking.TopOffendersSpec | src/analyzer.py:71-84 | each top list has min(top_n, number of keys) entries, ranked by count, each a key of its counter with that counter's count |
| Ranking.ItemsMember | src/analyzer.py:76 | every entry of a top list is a key of the counter with its count |
| Detection.ValueCounts | src/analyzer.py:102 | `value_counts` maps exactly the values that occur to their number of occurrences |
| Detection.HighFrequency | src/analyzer.py:102-103 | an address is flagged if and only if it has records and its record count is strictly greater than the threshold, and the reported count is that record count |
| Detection.Hits | src/analyzer.py:112-113 | a triple is a hit exactly when some record with a port in the sensitive set carries it |
| Detection.SensitiveHitsSpec | src/analyzer.py:112-117 | the sensitive-port report lists exactly the distinct (address, port, protocol) triples of records whose port is sensitive, each once, in order of first occurrence |
| Detection.OtherProtos | src/analyzer.py:122-123 | the records not using TCP or UDP contribute their protocol once each, and there are as many as there are records minus the TCP and UDP ones |
| Detection.UnknownProtocolsSpec | src/analyzer.py:122-127 | TCP and UDP are never reported; any other protocol is reported exactly when some record uses it, with its record count |
| Detection.UnknownProtocolsTotal | src/analyzer.py:122-127 | the reported counts sum to the number of records that are neither TCP nor UDP |
| Detection.Detect | src/analyzer.py:98-129 | with no records, all three rules report nothing |
| Analyzer.AnalyzeLogs | src/analyzer.py:11-66 | the records are those of the matching lines in order; each counter is the tally of what those records contribute; the summary ranks every `stats` entry; the top offenders use top_n 10; the findings use the given threshold (default 10) |

## Left out

- Reading the log file, the `FileNotFoundError` branch, all printed output, the matplotlib figure and `savefig`, and the CSV export are I/O. The lines are a parameter, and the model returns the data each step computes. Each line is what Python's iteration over a text file yields, with its trailing `\n` kept: that newline is often the whitespace `PROTO=(\S+)\s` needs, so the model describes the analyzer only on unstripped lines.
- The command-line front end (`app.py`) is not part of this model.
- The pandas DataFrame is replaced by the record sequence. Its `head(5)` displays are printing only.
- `value_counts` is modelled as a map from value to count: pandas does not specify the order of equal counts.
- Detection.Detect: with zero matching lines the source raises a `KeyError`, because a DataFrame built from an empty list has no `src_ip` column. The model instead states the intended behaviour: all three rules report nothing.
- `\d` is modelled as the ASCII digits only. Python's `\d` on `str` also accepts other Unicode decimal digits.
- Ranking.TopOffenders: `top_n` is a natural number. A negative `top_n` (a Python slice from the end) is not modelled.
- `if data.get("dst_port")` is modelled as "the port is present". This is exact, because a captured port is a non-empty digit run (LogLine.ExtractedFields).
- The rules' banners ("no IPs exceeded the threshold" and the like) only report whether a finding is empty.
