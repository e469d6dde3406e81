/**
 * The line extractor: the regular expression
 *
 *   SRC=(\S+)\sDST=(\S+).*PROTO=(\S+)\s(?:.*SPT=(\d+)\sDPT=(\d+))?
 *
 * applied with Python's `re.search`, written out as a hand-written matcher
 * that makes the same choices the backtracking engine makes:
 *
 *  - the match starts at the leftmost `SRC=` from which the rest can match;
 *  - the source and protocol tokens must be followed by whitespace, so they
 *    are always the maximal non-whitespace run after their label;
 *  - `.*` does not cross a newline; because it is greedy, the protocol comes
 *    from the LAST `PROTO=` (within that line segment) that is followed by a
 *    token and a whitespace character, and the destination token is cut short
 *    only when that `PROTO=` lies inside it;
 *  - the optional port group is tried first; its `.*` is greedy too, so the
 *    ports come from the LAST well-formed `SPT=<digits> DPT=<digits>` after
 *    the protocol token; when there is none, the group matches empty and both
 *    ports are absent.
 */
module LogLine {
  import opened Wrappers

  /** One parsed line: the dict appended to `log_entries`. */
  datatype LogEntry = LogEntry(
    srcIp: string,
    dstIp: string,
    proto: string,
    srcPort: Option<string>,
    dstPort: Option<string>)

  /** `\s` on a Python str: the characters for which Py_UNICODE_ISSPACE holds. */
  predicate IsSpace(c: char) {
    || ('\t' <= c <= '\r')
    || ('\U{1C}' <= c <= ' ')
    || c == '\U{85}' || c == '\U{A0}' || c == '\U{1680}'
    || ('\U{2000}' <= c <= '\U{200A}')
    || c == '\U{2028}' || c == '\U{2029}' || c == '\U{202F}' || c == '\U{205F}' || c == '\U{3000}'
  }

  /** `\d`, restricted to the ASCII digits. */
  predicate IsDigit(c: char) {
    '0' <= c <= '9'
  }

  predicate NoSpace(s: string) {
    forall k :: 0 <= k < |s| ==> !IsSpace(s[k])
  }

  predicate AllDigits(s: string) {
    forall k :: 0 <= k < |s| ==> IsDigit(s[k])
  }

  /** The literal `lit` occurs in `line` at index `k`. */
  predicate HasAt(line: string, k: nat, lit: string) {
    k + |lit| <= |line| && forall t :: 0 <= t < |lit| ==> line[k + t] == lit[t]
  }

  /** line[a..b] is a run of non-whitespace characters (what `\S*` matches). */
  predicate Token(line: string, a: nat, b: nat) {
    b <= |line| && forall m :: a <= m < b ==> !IsSpace(line[m])
  }

  /** line[a..b] is a run of digits. */
  predicate Digits(line: string, a: nat, b: nat) {
    b <= |line| && forall m :: a <= m < b ==> IsDigit(line[m])
  }

  /** line[a..b] holds no newline (what `.*` matches). */
  predicate NoNewline(line: string, a: nat, b: nat) {
    b <= |line| && forall m :: a <= m < b ==> line[m] != '\n'
  }

  /** End of the maximal non-whitespace run starting at `k`. */
  function TokenEnd(line: string, k: nat): (e: nat)
    requires k <= |line|
    ensures k <= e <= |line| && Token(line, k, e)
    ensures e == |line| || IsSpace(line[e])
    decreases |line| - k
  {
    if k < |line| && !IsSpace(line[k]) then TokenEnd(line, k + 1) else k
  }

  /** End of the maximal digit run starting at `k`. */
  function DigitsEnd(line: string, k: nat): (e: nat)
    requires k <= |line|
    ensures k <= e <= |line| && Digits(line, k, e)
    ensures e == |line| || !IsDigit(line[e])
    decreases |line| - k
  {
    if k < |line| && IsDigit(line[k]) then DigitsEnd(line, k + 1) else k
  }

  /** Index of the first newline at or after `k`, or |line| when there is none. */
  function LineEnd(line: string, k: nat): (n: nat)
    requires k <= |line|
    ensures k <= n <= |line| && NoNewline(line, k, n)
    ensures n == |line| || line[n] == '\n'
    decreases |line| - k
  {
    if k < |line| && line[k] != '\n' then LineEnd(line, k + 1) else k
  }

  /** `PROTO=(\S+)\s` matches at `p`. */
  predicate ProtoAt(line: string, p: nat) {
    HasAt(line, p, "PROTO=") && p + 6 < TokenEnd(line, p + 6) < |line|
  }

  /** `SPT=(\d+)\sDPT=(\d+)` matches at `s`. */
  predicate PortsAt(line: string, s: nat) {
    && HasAt(line, s, "SPT=")
    && var h := DigitsEnd(line, s + 4);
    && s + 4 < h < |line| && IsSpace(line[h])
    && HasAt(line, h + 1, "DPT=")
    && h + 5 < DigitsEnd(line, h + 5)
  }

  /** The largest index in [lo, hi) that satisfies P: what a greedy `.*` before P settles on. */
  function Last(P: nat -> bool, lo: nat, hi: nat): (r: Option<nat>)
    ensures r.Some? ==> lo <= r.value < hi && P(r.value)
    ensures r.Some? ==> forall x: nat :: r.value < x < hi ==> !P(x)
    ensures r.None? ==> forall x: nat :: lo <= x < hi ==> !P(x)
    decreases hi
  {
    if hi <= lo then None
    else if P(hi - 1) then Some(hi - 1)
    else Last(P, lo, hi - 1)
  }

  /** The largest index in [lo, hi) at which `PROTO=(\S+)\s` matches. */
  function LastProto(line: string, lo: nat, hi: nat): (r: Option<nat>)
    ensures r.Some? ==> lo <= r.value < hi && ProtoAt(line, r.value)
    ensures r.Some? ==> forall x: nat :: r.value < x < hi ==> !ProtoAt(line, x)
    ensures r.None? ==> forall x: nat :: lo <= x < hi ==> !ProtoAt(line, x)
  {
    var P := (x: nat) => ProtoAt(line, x);
    assert forall x: nat :: P(x) == ProtoAt(line, x);
    Last(P, lo, hi)
  }

  /** The largest index in [lo, hi) at which `SPT=(\d+)\sDPT=(\d+)` matches. */
  function LastPorts(line: string, lo: nat, hi: nat): (r: Option<nat>)
    ensures r.Some? ==> lo <= r.value < hi && PortsAt(line, r.value)
    ensures r.Some? ==> forall x: nat :: r.value < x < hi ==> !PortsAt(line, x)
    ensures r.None? ==> forall x: nat :: lo <= x < hi ==> !PortsAt(line, x)
  {
    var P := (x: nat) => PortsAt(line, x);
    assert forall x: nat :: P(x) == PortsAt(line, x);
    Last(P, lo, hi)
  }

  /**
   * Where a match sits in the line: it starts at `start` (the `SRC=`), the
   * source token is line[start+4..srcEnd], the destination token
   * line[srcEnd+5..dstEnd], `PROTO=` is at `protoAt` and the protocol token is
   * line[protoAt+6..protoEnd]; `ports` is the `SPT=` index of the port pair.
   */
  datatype Match = Match(start: nat, srcEnd: nat, dstEnd: nat, protoAt: nat, protoEnd: nat, ports: Option<nat>)

  /**
   * The mandatory part of the pattern, `SRC=(\S+)\sDST=(\S+).*PROTO=(\S+)\s`,
   * matches with the match starting at i, the source token ending at e, the
   * destination token ending at d, `PROTO=` at p and the protocol token
   * ending at g.
   */
  ghost predicate Frame(line: string, i: nat, e: nat, d: nat, p: nat, g: nat) {
    && HasAt(line, i, "SRC=")
    && i + 4 < e < |line| && Token(line, i + 4, e) && IsSpace(line[e])
    && HasAt(line, e + 1, "DST=")
    && e + 5 < d <= p && Token(line, e + 5, d) && NoNewline(line, d, p)
    && HasAt(line, p, "PROTO=")
    && p + 6 < g < |line| && Token(line, p + 6, g) && IsSpace(line[g])
  }

  /** The pattern matches somewhere in the line. */
  ghost predicate Recognised(line: string) {
    exists i: nat, e: nat, d: nat, p: nat, g: nat :: Frame(line, i, e, d, p, g)
  }

  /**
   * The port group `.*SPT=(\d+)\sDPT=(\d+)` matches right after the whitespace
   * that follows a protocol token ending at g, with `SPT=` at `s`.
   */
  ghost predicate PortFrame(line: string, g: nat, s: nat) {
    g < s && NoNewline(line, g + 1, s) && PortsAt(line, s)
  }

  /** The match the engine finds when it tries start position i (`re.match` at i). */
  function MatchAt(line: string, i: nat): (m: Option<Match>)
    ensures m.Some? ==> m.value.start == i < |line|
  {
    if !HasAt(line, i, "SRC=") then None
    else
      var e := TokenEnd(line, i + 4);
      if e == i + 4 || e == |line| || !HasAt(line, e + 1, "DST=") then None
      else MatchFromDst(line, i, e)
  }

  /** The rest of the match once `SRC=` and its token end at e, followed by whitespace and `DST=`. */
  function MatchFromDst(line: string, i: nat, e: nat): (m: Option<Match>)
    requires e + 5 <= |line|
  {
    var j := e + 5;
    var f := TokenEnd(line, j);
    if f == j then None
    else
      match LastProto(line, j + 1, LineEnd(line, f) + 1)
      case None => None
      case Some(p) => Some(MatchWithProto(line, i, e, f, p))
  }

  /**
   * The match once `PROTO=` is fixed at p: the destination token stops at
   * p when p lies inside it, and the port group is tried after the protocol
   * token.
   */
  function MatchWithProto(line: string, i: nat, e: nat, f: nat, p: nat): (m: Match)
    requires ProtoAt(line, p)
    ensures m.protoEnd == TokenEnd(line, p + 6) < |line|
    ensures m.ports == LastPorts(line, m.protoEnd + 1, LineEnd(line, m.protoEnd + 1) + 1)
  {
    var g := TokenEnd(line, p + 6);
    Match(i, e, Min(f, p), p, g, LastPorts(line, g + 1, LineEnd(line, g + 1) + 1))
  }

  /**
   * A match found from start position i satisfies the mandatory part of the
   * pattern, and its port position the optional group.
   */
  lemma MatchAtFrame(line: string, i: nat)
    requires MatchAt(line, i).Some?
    ensures var m := MatchAt(line, i).value;
      && Frame(line, i, m.srcEnd, m.dstEnd, m.protoAt, m.protoEnd)
      && (m.ports.Some? ==> PortFrame(line, m.protoEnd, m.ports.value))
  {
    MatchAtSrc(line, i);
    var e := TokenEnd(line, i + 4);
    DstFrame(line, i, e);
    DstPortFrame(line, i, e);
  }

  /** A match from i begins with `SRC=`, its token, one whitespace character and `DST=`. */
  lemma MatchAtSrc(line: string, i: nat)
    requires MatchAt(line, i).Some?
    ensures var e := TokenEnd(line, i + 4);
      && HasAt(line, i, "SRC=") && i + 4 < e < |line| && HasAt(line, e + 1, "DST=")
      && Token(line, i + 4, e) && IsSpace(line[e])
      && MatchAt(line, i) == MatchFromDst(line, i, e)
  {
  }

  lemma DstFrame(line: string, i: nat, e: nat)
    requires HasAt(line, i, "SRC=") && i + 4 < e < |line| && HasAt(line, e + 1, "DST=")
    requires Token(line, i + 4, e) && IsSpace(line[e])
    requires MatchFromDst(line, i, e).Some?
    ensures var m := MatchFromDst(line, i, e).value;
      Frame(line, i, m.srcEnd, m.dstEnd, m.protoAt, m.protoEnd)
  {
    var j := e + 5;
    var f := TokenEnd(line, j);
    var p := LastProto(line, j + 1, LineEnd(line, f) + 1).value;
    DstSegment(line, j, f, p);
  }

  lemma DstPortFrame(line: string, i: nat, e: nat)
    requires e + 5 <= |line|
    requires MatchFromDst(line, i, e).Some?
    ensures var m := MatchFromDst(line, i, e).value;
      m.ports.Some? ==> PortFrame(line, m.protoEnd, m.ports.value)
  {
  }

  /**
   * The destination token is the maximal token cut short at a `PROTO=` that
   * lies inside it, and what follows it up to that `PROTO=` has no newline.
   */
  lemma DstSegment(line: string, j: nat, f: nat, p: nat)
    requires j <= f <= |line| && Token(line, j, f)
    requires j < p <= LineEnd(line, f)
    ensures Token(line, j, Min(f, p)) && NoNewline(line, Min(f, p), p)
  {
  }

  /** The smallest index in [lo, hi) that satisfies P. */
  function First(P: nat -> bool, lo: nat, hi: nat): (r: Option<nat>)
    ensures r.Some? ==> lo <= r.value < hi && P(r.value)
    ensures r.Some? ==> forall x: nat :: lo <= x < r.value ==> !P(x)
    ensures r.None? ==> forall x: nat :: lo <= x < hi ==> !P(x)
    decreases hi - lo
  {
    if hi <= lo then None
    else if P(lo) then Some(lo)
    else First(P, lo + 1, hi)
  }

  /**
   * `log_pattern.search(line)`: the match from the first start position at
   * which the pattern matches, and none when it matches from no position.
   */
  function Search(line: string): (m: Option<Match>)
    ensures m.Some? ==> MatchAt(line, m.value.start) == m
    ensures m.Some? ==> forall k: nat :: k < m.value.start ==> MatchAt(line, k).None?
    ensures m.None? ==> forall k: nat :: MatchAt(line, k).None?
  {
    var P := (k: nat) => MatchAt(line, k).Some?;
    assert forall k: nat :: P(k) == MatchAt(line, k).Some?;
    match First(P, 0, |line|)
    case None => None
    case Some(k) => MatchAt(line, k)
  }

  lemma TokenSlice(line: string, a: nat, b: nat)
    requires a <= b && Token(line, a, b)
    ensures NoSpace(line[a..b])
  {
    forall k | 0 <= k < b - a ensures !IsSpace(line[a..b][k]) {
      assert line[a..b][k] == line[a + k];
    }
  }

  lemma DigitsSlice(line: string, a: nat, b: nat)
    requires a <= b && Digits(line, a, b)
    ensures AllDigits(line[a..b])
  {
    forall k | 0 <= k < b - a ensures IsDigit(line[a..b][k]) {
      assert line[a..b][k] == line[a + k];
    }
  }

  /** The groups of a match: the record `groupdict()` yields. */
  function Groups(line: string, m: Match): (r: LogEntry)
    requires Frame(line, m.start, m.srcEnd, m.dstEnd, m.protoAt, m.protoEnd)
    requires m.ports.Some? ==> PortFrame(line, m.protoEnd, m.ports.value)
    ensures r.srcPort.Some? == r.dstPort.Some? == m.ports.Some?
  {
    var srcIp := line[m.start + 4..m.srcEnd];
    var dstIp := line[m.srcEnd + 5..m.dstEnd];
    var proto := line[m.protoAt + 6..m.protoEnd];
    match m.ports
    case None => LogEntry(srcIp, dstIp, proto, None, None)
    case Some(s) =>
      var h := DigitsEnd(line, s + 4);
      var t := DigitsEnd(line, h + 5);
      LogEntry(srcIp, dstIp, proto, Some(line[s + 4..h]), Some(line[h + 5..t]))
  }

  /**
   * The captured addresses and protocol are non-empty runs without
   * whitespace; the ports, when the group matched, are non-empty digit runs.
   */
  lemma GroupsFields(line: string, m: Match)
    requires Frame(line, m.start, m.srcEnd, m.dstEnd, m.protoAt, m.protoEnd)
    requires m.ports.Some? ==> PortFrame(line, m.protoEnd, m.ports.value)
    ensures var r := Groups(line, m);
      && |r.srcIp| > 0 && NoSpace(r.srcIp)
      && |r.dstIp| > 0 && NoSpace(r.dstIp)
      && |r.proto| > 0 && NoSpace(r.proto)
      && (r.srcPort.Some? ==> |r.srcPort.value| > 0 && AllDigits(r.srcPort.value))
      && (r.dstPort.Some? ==> |r.dstPort.value| > 0 && AllDigits(r.dstPort.value))
  {
    TokenSlice(line, m.start + 4, m.srcEnd);
    TokenSlice(line, m.srcEnd + 5, m.dstEnd);
    TokenSlice(line, m.protoAt + 6, m.protoEnd);
    if m.ports.Some? {
      var s := m.ports.value;
      var h := DigitsEnd(line, s + 4);
      DigitsSlice(line, s + 4, h);
      DigitsSlice(line, h + 5, DigitsEnd(line, h + 5));
    }
  }

  /** `log_pattern.search(line)` followed by `groupdict()`. */
  function Extract(line: string): Option<LogEntry>
  {
    match Search(line)
    case None => None
    case Some(m) =>
      MatchAtFrame(line, m.start);
      Some(Groups(line, m))
  }

  /**
   * A record's addresses and protocol are non-empty and free of whitespace;
   * its two ports are both present, each a non-empty run of digits, or both
   * absent.
   */
  lemma ExtractedFields(line: string)
    requires Extract(line).Some?
    ensures var r := Extract(line).value;
      && |r.srcIp| > 0 && NoSpace(r.srcIp)
      && |r.dstIp| > 0 && NoSpace(r.dstIp)
      && |r.proto| > 0 && NoSpace(r.proto)
      && r.srcPort.Some? == r.dstPort.Some?
      && (r.srcPort.Some? ==> |r.srcPort.value| > 0 && AllDigits(r.srcPort.value))
      && (r.dstPort.Some? ==> |r.dstPort.value| > 0 && AllDigits(r.dstPort.value))
  {
    var m := Search(line).value;
    MatchAtFrame(line, m.start);
    GroupsFields(line, m);
  }

  /** A token followed by whitespace (or the end of the line) is the maximal one. */
  lemma TokenEndIs(line: string, k: nat, e: nat)
    requires k <= e && Token(line, k, e)
    requires e == |line| || IsSpace(line[e])
    ensures TokenEnd(line, k) == e
  {
  }

  /** Every non-whitespace run from k ends no later than the maximal one. */
  lemma TokenEndBound(line: string, k: nat, d: nat)
    requires k <= d && Token(line, k, d)
    ensures d <= TokenEnd(line, k)
  {
  }

  /** A stretch without newline starting at k ends no later than the first newline. */
  lemma LineEndBound(line: string, k: nat, s: nat)
    requires k <= s && NoNewline(line, k, s)
    ensures s <= LineEnd(line, k)
  {
  }

  /** What any way of matching the mandatory part fixes about the match. */
  lemma FrameFacts(line: string, i: nat, e: nat, d: nat, p: nat, g: nat)
    requires Frame(line, i, e, d, p, g)
    ensures e == TokenEnd(line, i + 4)
    ensures d <= TokenEnd(line, e + 5)
    ensures p <= LineEnd(line, TokenEnd(line, e + 5))
    ensures ProtoAt(line, p) && g == TokenEnd(line, p + 6)
  {
    TokenEndIs(line, i + 4, e);
    TokenEndBound(line, e + 5, d);
    TokenEndIs(line, p + 6, g);
    var f := TokenEnd(line, e + 5);
    if f < p {
      assert NoNewline(line, f, p);
      LineEndBound(line, f, p);
    }
  }

  /** Trying a start position from which the pattern can match succeeds. */
  lemma MatchAtComplete(line: string, i: nat, e: nat, d: nat, p: nat, g: nat)
    requires Frame(line, i, e, d, p, g)
    ensures MatchAt(line, i).Some?
    ensures MatchAt(line, i).value.srcEnd == e && p <= MatchAt(line, i).value.protoAt
  {
    FrameFacts(line, i, e, d, p, g);
  }

  /** The port group can only use an `SPT=` before the first newline after the protocol token. */
  lemma PortFrameBound(line: string, g: nat, s: nat)
    requires g < |line| && PortFrame(line, g, s)
    ensures s <= LineEnd(line, g + 1)
  {
    LineEndBound(line, g + 1, s);
  }

  /** A line yields a record exactly when the pattern matches somewhere in it. */
  lemma ExtractRecognises(line: string)
    ensures Extract(line).Some? <==> Recognised(line)
  {
    if Recognised(line) {
      var i: nat, e: nat, d: nat, p: nat, g: nat :| Frame(line, i, e, d, p, g);
      MatchAtComplete(line, i, e, d, p, g);
    }
    if Search(line).Some? {
      var m := Search(line).value;
      MatchAtFrame(line, m.start);
    }
  }

  /** A line without `SRC=`, without `DST=` or without `PROTO=` yields no record. */
  lemma MissingLabelNoRecord(line: string)
    requires || (forall k: nat :: !HasAt(line, k, "SRC="))
             || (forall k: nat :: !HasAt(line, k, "DST="))
             || (forall k: nat :: !HasAt(line, k, "PROTO="))
    ensures Extract(line).None?
  {
    ExtractRecognises(line);
  }

  /** `re.search` reports the leftmost start position from which the pattern matches. */
  lemma SearchLeftmost(line: string)
    requires Search(line).Some?
    ensures var m := Search(line).value;
      && MatchAt(line, m.start) == Search(line)
      && Extract(line).Some?
      && forall i: nat, e: nat, d: nat, p: nat, g: nat :: Frame(line, i, e, d, p, g) ==> m.start <= i
  {
    var m := Search(line).value;
    forall i: nat, e: nat, d: nat, p: nat, g: nat | Frame(line, i, e, d, p, g) ensures m.start <= i {
      if i < m.start {
        MatchAtComplete(line, i, e, d, p, g);
      }
    }
  }

  /**
   * The choices the backtracking engine makes from a start position: the
   * last usable `PROTO=`, and for it the longest destination token.
   */
  lemma MatchAtChoices(line: string, i: nat)
    requires MatchAt(line, i).Some?
    ensures var m := MatchAt(line, i).value;
      && (forall d: nat, p: nat, g: nat :: Frame(line, i, m.srcEnd, d, p, g) ==> p <= m.protoAt)
      && (forall d: nat, g: nat :: Frame(line, i, m.srcEnd, d, m.protoAt, g) ==> d <= m.dstEnd)
  {
    MatchAtSrc(line, i);
    var e := TokenEnd(line, i + 4);
    DstProtoChoice(line, i, e);
    DstTokenChoice(line, i, e);
  }

  lemma DstProtoChoice(line: string, i: nat, e: nat)
    requires e + 5 <= |line| && MatchFromDst(line, i, e).Some?
    ensures var m := MatchFromDst(line, i, e).value;
      m.srcEnd == e && forall d: nat, p: nat, g: nat :: Frame(line, i, e, d, p, g) ==> p <= m.protoAt
  {
    var m := MatchFromDst(line, i, e).value;
    forall d: nat, p: nat, g: nat | Frame(line, i, e, d, p, g) ensures p <= m.protoAt {
      ProtoBound(line, e + 5, d, p, g);
    }
  }

  lemma DstTokenChoice(line: string, i: nat, e: nat)
    requires e + 5 <= |line| && MatchFromDst(line, i, e).Some?
    ensures var m := MatchFromDst(line, i, e).value;
      forall d: nat, g: nat :: Frame(line, i, e, d, m.protoAt, g) ==> d <= m.dstEnd
  {
    var m := MatchFromDst(line, i, e).value;
    forall d: nat, g: nat | Frame(line, i, e, d, m.protoAt, g) ensures d <= m.dstEnd {
      TokenEndBound(line, e + 5, d);
    }
  }

  /**
   * A `PROTO=` reached from a destination token starting at j through a
   * newline-free stretch qualifies, and lies before the first newline after
   * the maximal token at j.
   */
  lemma ProtoBound(line: string, j: nat, d: nat, p: nat, g: nat)
    requires j < d <= p && Token(line, j, d) && NoNewline(line, d, p)
    requires HasAt(line, p, "PROTO=") && p + 6 < g < |line| && Token(line, p + 6, g) && IsSpace(line[g])
    ensures ProtoAt(line, p) && p <= LineEnd(line, TokenEnd(line, j))
  {
    TokenEndBound(line, j, d);
    TokenEndIs(line, p + 6, g);
    var f := TokenEnd(line, j);
    if f < p {
      assert NoNewline(line, f, p);
      LineEndBound(line, f, p);
    }
  }

  /**
   * The optional port group: the ports come from the last `SPT=...DPT=` pair
   * after the protocol token, and are absent only when there is no such pair.
   */
  lemma MatchAtPorts(line: string, i: nat)
    requires MatchAt(line, i).Some?
    ensures var m := MatchAt(line, i).value;
      && (m.ports.Some? ==> m.protoEnd < m.ports.value && PortFrame(line, m.protoEnd, m.ports.value))
      && (m.ports.Some? ==> forall s: nat :: PortFrame(line, m.protoEnd, s) ==> s <= m.ports.value)
      && (m.ports.None? ==> forall s: nat :: !PortFrame(line, m.protoEnd, s))
  {
    MatchAtSrc(line, i);
    var e := TokenEnd(line, i + 4);
    DstPortFrame(line, i, e);
    DstPortChoice(line, i, e);
  }

  lemma DstPortChoice(line: string, i: nat, e: nat)
    requires e + 5 <= |line|
    requires MatchFromDst(line, i, e).Some?
    ensures var m := MatchFromDst(line, i, e).value;
      && (m.ports.Some? ==> m.protoEnd < m.ports.value)
      && (m.ports.Some? ==> forall s: nat :: PortFrame(line, m.protoEnd, s) ==> s <= m.ports.value)
      && (m.ports.None? ==> forall s: nat :: !PortFrame(line, m.protoEnd, s))
  {
    var m := MatchFromDst(line, i, e).value;
    PortChoice(line, m.protoEnd, m.ports);
  }

  /** The last usable port pair after the protocol token ending at g. */
  lemma PortChoice(line: string, g: nat, ports: Option<nat>)
    requires g < |line| && ports == LastPorts(line, g + 1, LineEnd(line, g + 1) + 1)
    ensures ports.Some? ==> g < ports.value
    ensures ports.Some? ==> forall s: nat :: PortFrame(line, g, s) ==> s <= ports.value
    ensures ports.None? ==> forall s: nat :: !PortFrame(line, g, s)
  {
    forall s: nat | PortFrame(line, g, s)
      ensures ports.Some? && s <= ports.value
    {
      PortFrameBound(line, g, s);
    }
  }
}
