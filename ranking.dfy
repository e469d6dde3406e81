/**
 * Ranking a counter by count. The summary sorts `stats.items()` with the key
 * `-count`; the top offenders sort a counter's items by count with
 * `reverse=True` and keep the first `top_n`. Python's sort is stable, with
 * `reverse=True` too, so both orders are the same: highest count first, and
 * items with equal counts in the order the counter lists them (first
 * insertion).
 *
 * Stability is stated as: for every count n, the items with count n appear
 * in the result in exactly the order they appear in the input.
 */
module Ranking {
  import opened Wrappers
  import opened Counters

  type Item = (string, nat)

  /** Counts never increase along r. */
  ghost predicate NonIncreasing(r: seq<Item>) {
    forall i, j :: 0 <= i < j < |r| ==> r[i].1 >= r[j].1
  }

  /** The items of s whose count is n, in order. */
  function WithCount(s: seq<Item>, n: nat): seq<Item> {
    if s == [] then []
    else WithCount(s[..|s| - 1], n) + (if s[|s| - 1].1 == n then [s[|s| - 1]] else [])
  }

  /** Puts x after every item of the ranked r whose count is at least x's. */
  function Insert(r: seq<Item>, x: Item): (t: seq<Item>)
    ensures |t| == |r| + 1
  {
    if r == [] || r[|r| - 1].1 >= x.1 then r + [x]
    else Insert(r[..|r| - 1], x) + [r[|r| - 1]]
  }

  /** A stable sort of s by descending count. */
  function SortByCount(s: seq<Item>): (r: seq<Item>)
    ensures |r| == |s|
  {
    if s == [] then [] else Insert(SortByCount(s[..|s| - 1]), s[|s| - 1])
  }

  /** The first n items of the ranking of s: `sorted(...)[:n]`. */
  function Top(s: seq<Item>, n: nat): seq<Item> {
    SortByCount(s)[..Min(n, |s|)]
  }

  /** The top `top_n` source addresses and destination ports, `top_n` defaulting to 10. */
  function TopOffenders(srcIpStats: Counter, dstPortStats: Counter, topN: nat := 10): (r: (seq<Item>, seq<Item>))
  {
    (Top(Items(srcIpStats), topN), Top(Items(dstPortStats), topN))
  }

  lemma WithCountSnoc(s: seq<Item>, x: Item, n: nat)
    ensures WithCount(s + [x], n) == WithCount(s, n) + (if x.1 == n then [x] else [])
  {
    assert (s + [x])[..|s|] == s;
  }

  lemma {:induction false} WithCountAppend(a: seq<Item>, b: seq<Item>, n: nat)
    ensures WithCount(a + b, n) == WithCount(a, n) + WithCount(b, n)
  {
    if b == [] {
      assert a + b == a;
    } else {
      var init, y := b[..|b| - 1], b[|b| - 1];
      assert a + b == (a + init) + [y];
      WithCountAppend(a, init, n);
      WithCountSnoc(a + init, y, n);
      WithCountSnoc(init, y, n);
      assert b == init + [y];
    }
  }

  /** Inserting adds exactly x. */
  lemma {:induction false} InsertContents(r: seq<Item>, x: Item)
    ensures multiset(Insert(r, x)) == multiset(r) + multiset{x}
  {
    if r != [] && r[|r| - 1].1 < x.1 {
      var init, last := r[..|r| - 1], r[|r| - 1];
      assert r == init + [last];
      InsertContents(init, x);
    }
  }

  /** Inserting an item of count at least b among items of count at least b keeps that bound. */
  lemma {:induction false} InsertLowerBound(r: seq<Item>, x: Item, b: nat)
    requires forall i :: 0 <= i < |r| ==> r[i].1 >= b
    requires x.1 >= b
    ensures forall i :: 0 <= i < |Insert(r, x)| ==> Insert(r, x)[i].1 >= b
  {
    if r != [] && r[|r| - 1].1 < x.1 {
      InsertLowerBound(r[..|r| - 1], x, b);
    }
  }

  /** Inserting into a ranking keeps it ranked. */
  lemma {:induction false} InsertRanked(r: seq<Item>, x: Item)
    requires NonIncreasing(r)
    ensures NonIncreasing(Insert(r, x))
  {
    if r != [] && r[|r| - 1].1 < x.1 {
      var init, last := r[..|r| - 1], r[|r| - 1];
      InsertRanked(init, x);
      InsertLowerBound(init, x, last.1);
      var t := Insert(init, x);
      assert Insert(r, x) == t + [last];
    }
  }

  /** Inserting puts x after every item that already had its count. */
  lemma {:induction false} InsertStable(r: seq<Item>, x: Item, n: nat)
    ensures WithCount(Insert(r, x), n) == WithCount(r, n) + (if x.1 == n then [x] else [])
  {
    if r == [] || r[|r| - 1].1 >= x.1 {
      WithCountSnoc(r, x, n);
    } else {
      var init, last := r[..|r| - 1], r[|r| - 1];
      assert r == init + [last];
      InsertStable(init, x, n);
      WithCountSnoc(Insert(init, x), last, n);
      WithCountSnoc(init, last, n);
    }
  }

  /** The ranking holds the same items as s, highest count first. */
  lemma {:induction false} SortByCountSpec(s: seq<Item>)
    ensures multiset(SortByCount(s)) == multiset(s)
    ensures NonIncreasing(SortByCount(s))
  {
    if s != [] {
      var init, y := s[..|s| - 1], s[|s| - 1];
      assert s == init + [y];
      SortByCountSpec(init);
      InsertContents(SortByCount(init), y);
      InsertRanked(SortByCount(init), y);
    }
  }

  /** The sort is stable: items of equal count keep their input order. */
  lemma {:induction false} SortByCountStable(s: seq<Item>, n: nat)
    ensures WithCount(SortByCount(s), n) == WithCount(s, n)
  {
    if s != [] {
      var init, y := s[..|s| - 1], s[|s| - 1];
      assert s == init + [y];
      SortByCountStable(init, n);
      InsertStable(SortByCount(init), y, n);
      WithCountSnoc(init, y, n);
    }
  }

  /** `sorted(...)[:n]` returns min(n, |s|) items of s, highest count first. */
  lemma TopSpec(s: seq<Item>, n: nat)
    ensures |Top(s, n)| == Min(n, |s|)
    ensures multiset(Top(s, n)) <= multiset(s)
    ensures NonIncreasing(Top(s, n))
  {
    SortByCountSpec(s);
    var sorted := SortByCount(s);
    Split(sorted, Min(n, |s|));
  }

  /** No item left out of the top n has a higher count than an item kept. */
  lemma TopKeepsHighest(s: seq<Item>, n: nat)
    ensures forall i, y :: 0 <= i < |Top(s, n)| && y in multiset(s) - multiset(Top(s, n)) ==> y.1 <= Top(s, n)[i].1
  {
    SortByCountSpec(s);
    var sorted := SortByCount(s);
    Split(sorted, Min(n, |s|));
    PrefixDominates(sorted, Min(n, |s|));
  }

  /** Splitting a sequence splits its multiset. */
  lemma Split(s: seq<Item>, k: nat)
    requires k <= |s|
    ensures multiset(s[..k]) + multiset(s[k..]) == multiset(s)
    ensures multiset(s) - multiset(s[..k]) == multiset(s[k..])
  {
    assert s == s[..k] + s[k..];
    LeftOut(multiset(s[..k]), multiset(s[k..]));
  }

  lemma LeftOut(a: multiset<Item>, b: multiset<Item>)
    ensures (a + b) - a == b
  {
  }

  /** In a ranking, every item after position k has a count at most that of each item before it. */
  lemma PrefixDominates(sorted: seq<Item>, k: nat)
    requires NonIncreasing(sorted) && k <= |sorted|
    ensures forall i, y :: 0 <= i < k && y in multiset(sorted[k..]) ==> y.1 <= sorted[i].1
  {
    forall i, y | 0 <= i < k && y in multiset(sorted[k..]) ensures y.1 <= sorted[i].1 {
      assert y in sorted[k..];
      var j :| k <= j < |sorted| && sorted[j] == y;
    }
  }

  /** Among items of equal count, those in the top n are the first ones in input order. */
  lemma TopKeepsEarliest(s: seq<Item>, n: nat, c: nat)
    ensures WithCount(Top(s, n), c) <= WithCount(s, c)
  {
    SortByCountStable(s, c);
    var sorted := SortByCount(s);
    var k := Min(n, |s|);
    assert sorted == sorted[..k] + sorted[k..];
    WithCountAppend(sorted[..k], sorted[k..], c);
  }

  /**
   * The top offenders of each counter: at most `top_n` entries, each an
   * address (or port) with its count from the counter, ranked by count.
   */
  lemma TopOffendersSpec(srcIpStats: Counter, dstPortStats: Counter, topN: nat)
    requires Valid(srcIpStats) && Valid(dstPortStats)
    ensures var (ips, ports) := TopOffenders(srcIpStats, dstPortStats, topN);
      && |ips| == Min(topN, |srcIpStats.counts|) && |ports| == Min(topN, |dstPortStats.counts|)
      && NonIncreasing(ips) && NonIncreasing(ports)
      && (forall x :: x in ips ==> x.0 in srcIpStats.counts && x.1 == srcIpStats.counts[x.0])
      && (forall x :: x in ports ==> x.0 in dstPortStats.counts && x.1 == dstPortStats.counts[x.0])
  {
    ItemsSize(srcIpStats);
    ItemsSize(dstPortStats);
    ItemsMember(srcIpStats, topN);
    ItemsMember(dstPortStats, topN);
    TopSpec(Items(srcIpStats), topN);
    TopSpec(Items(dstPortStats), topN);
  }

  lemma ItemsMember(c: Counter, n: nat)
    requires Valid(c)
    ensures forall x :: x in Top(Items(c), n) ==> x.0 in c.counts && x.1 == c.counts[x.0]
  {
    TopSpec(Items(c), n);
    forall x | x in Top(Items(c), n) ensures x.0 in c.counts && x.1 == c.counts[x.0] {
      assert x in multiset(Top(Items(c), n));
      assert x in multiset(Items(c));
      var k :| 0 <= k < |Items(c)| && Items(c)[k] == x;
    }
  }
}
