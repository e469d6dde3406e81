/**
 * Counters as the source keeps them: a `defaultdict(int)` whose entries are
 * only ever incremented. A Python dict iterates in first-insertion order,
 * and that order decides ties when the counters are ranked, so a counter
 * keeps its keys in insertion order beside the counts.
 */
module Counters {

  datatype Counter = Counter(keys: seq<string>, counts: map<string, nat>)

  ghost predicate Distinct<T>(s: seq<T>) {
    forall i, j :: 0 <= i < j < |s| ==> s[i] != s[j]
  }

  /** Keys are listed once each, exactly the keys of the map, each counted at least once. */
  ghost predicate Valid(c: Counter) {
    && Distinct(c.keys)
    && (forall k :: k in c.counts <==> k in c.keys)
    && (forall k :: k in c.counts ==> 1 <= c.counts[k])
  }

  const Empty: Counter := Counter([], map[])

  /** Reading a `defaultdict(int)`: a missing key reads as 0. */
  function Get(c: Counter, k: string): nat {
    if k in c.counts then c.counts[k] else 0
  }

  /** `counter[k] += 1` on a `defaultdict(int)`. */
  function Increment(c: Counter, k: string): (r: Counter)
    ensures Get(r, k) == Get(c, k) + 1
    ensures forall k' :: k' != k ==> Get(r, k') == Get(c, k')
  {
    Counter(if k in c.counts then c.keys else c.keys + [k], c.counts[k := Get(c, k) + 1])
  }

  /** Incrementing adds the key to the map, appending it to the key order when it is new. */
  lemma IncrementValid(c: Counter, k: string)
    requires Valid(c)
    ensures Valid(Increment(c, k))
    ensures Increment(c, k).counts.Keys == c.counts.Keys + {k}
  {
  }

  /** The counter left by incrementing once per element of `s`, in order. */
  function Tally(s: seq<string>): Counter
  {
    if s == [] then Empty else Increment(Tally(s[..|s| - 1]), s[|s| - 1])
  }

  /** Index of the first occurrence of x in s. */
  function FirstIndex<T(==)>(s: seq<T>, x: T): (r: nat)
    requires x in s
    ensures r < |s| && s[r] == x && x !in s[..r]
  {
    if x in s[..|s| - 1] then FirstIndex(s[..|s| - 1], x) else |s| - 1
  }

  /** The distinct elements of s in order of first occurrence. */
  function Dedup<T(==)>(s: seq<T>): seq<T>
  {
    if s == [] then []
    else if s[|s| - 1] in s[..|s| - 1] then Dedup(s[..|s| - 1])
    else Dedup(s[..|s| - 1]) + [s[|s| - 1]]
  }

  lemma FirstIndexExtend<T>(s: seq<T>, y: T, x: T)
    requires x in s
    ensures x in s + [y] && FirstIndex(s + [y], x) == FirstIndex(s, x)
  {
    assert (s + [y])[..|s|] == s;
  }

  lemma DedupMember<T>(s: seq<T>, x: T)
    requires x in Dedup(s)
    ensures x in s
  {
    if x !in Dedup(s[..|s| - 1]) {
      assert x == s[|s| - 1];
    }
  }

  /**
   * Dedup keeps each element of s exactly once, and lists them in the order
   * in which they first occur in s.
   */
  lemma {:induction false} DedupSpec<T>(s: seq<T>)
    ensures Distinct(Dedup(s))
    ensures forall x :: x in Dedup(s) <==> x in s
    ensures forall i, j :: 0 <= i < j < |Dedup(s)| ==> FirstIndex(s, Dedup(s)[i]) < FirstIndex(s, Dedup(s)[j])
  {
    if s != [] {
      var init, y := s[..|s| - 1], s[|s| - 1];
      assert s == init + [y];
      DedupSpec(init);
      var d := Dedup(init);
      forall x | x in d ensures x in init && FirstIndex(s, x) == FirstIndex(init, x) {
        DedupMember(init, x);
        FirstIndexExtend(init, y, x);
      }
      if y !in init {
        assert Dedup(s) == d + [y];
        forall i | 0 <= i < |d| ensures FirstIndex(s, d[i]) < FirstIndex(s, y) {
          assert d[i] in d;
        }
      }
    }
  }

  /**
   * A tally counts every element as many times as it occurs, and lists the
   * keys in order of first occurrence (the dict's iteration order).
   */
  lemma {:induction false} TallyCounts(s: seq<string>)
    ensures Valid(Tally(s))
    ensures forall v :: Get(Tally(s), v) == multiset(s)[v]
    ensures forall v :: v in Tally(s).counts <==> v in s
    ensures Tally(s).keys == Dedup(s)
  {
    if s != [] {
      var init, y := s[..|s| - 1], s[|s| - 1];
      assert s == init + [y];
      TallyCounts(init);
      IncrementValid(Tally(init), y);
      assert multiset(s) == multiset(init) + multiset{y};
    }
  }

  /** The sum of the values of a map. */
  ghost function Sum(m: map<string, nat>): nat
    decreases |m|
  {
    if m == map[] then 0
    else
      var k :| k in m;
      assert |m - {k}| < |m| by {
        assert (m - {k}).Keys == m.Keys - {k};
      }
      m[k] + Sum(m - {k})
  }

  /** Sum does not depend on the key it happens to take out first. */
  lemma {:induction false} SumRemove(m: map<string, nat>, k: string)
    requires k in m
    ensures Sum(m) == m[k] + Sum(m - {k})
    decreases |m|
  {
    var k' :| k' in m && Sum(m) == m[k'] + Sum(m - {k'});
    if k' != k {
      assert (m - {k'}).Keys == m.Keys - {k'};
      assert (m - {k}).Keys == m.Keys - {k};
      SumRemove(m - {k'}, k);
      SumRemove(m - {k}, k');
      assert m - {k'} - {k} == m - {k} - {k'};
    }
  }

  /**
   * A map holding, for every element of t, the number of its occurrences in
   * t sums to the length of t.
   */
  /** Taking one off a count takes one off the sum. */
  lemma SumDecrement(m: map<string, nat>, x: string)
    requires x in m && m[x] >= 1
    ensures Sum(m) == Sum(m[x := m[x] - 1]) + 1
  {
    var m' := m[x := m[x] - 1];
    SumRemove(m, x);
    SumRemove(m', x);
    assert m' - {x} == m - {x};
  }

  lemma {:induction false} SumOfCounts(m: map<string, nat>, t: seq<string>)
    requires forall v :: v in m <==> v in t
    requires forall v :: v in m ==> m[v] == multiset(t)[v]
    ensures Sum(m) == |t|
  {
    if t == [] {
      assert m == map[];
    } else {
      var init, x := t[..|t| - 1], t[|t| - 1];
      assert t == init + [x];
      assert multiset(t) == multiset(init) + multiset{x};
      var m' := if x in init then m[x := m[x] - 1] else m - {x};
      forall v ensures (v in m' <==> v in init) && (v in m' ==> m'[v] == multiset(init)[v]) {
        if v != x {
          assert v in t <==> v in init;
        }
      }
      SumOfCounts(m', init);
      if x in init {
        SumDecrement(m, x);
      } else {
        SumRemove(m, x);
      }
    }
  }

  /** The counts of a tally add up to the number of elements tallied. */
  lemma TallySum(s: seq<string>)
    ensures Sum(Tally(s).counts) == |s|
  {
    TallyCounts(s);
    SumOfCounts(Tally(s).counts, s);
  }

  /** `dict.items()`: the (key, count) pairs in iteration order. */
  function Items(c: Counter): (r: seq<(string, nat)>)
    ensures |r| == |c.keys|
    ensures forall i :: 0 <= i < |r| ==> r[i].0 == c.keys[i] && r[i].1 == Get(c, c.keys[i])
  {
    seq(|c.keys|, i requires 0 <= i < |c.keys| => (c.keys[i], Get(c, c.keys[i])))
  }

  /**
   * The items of a well-formed counter are exactly its entries, each key once,
   * as many as the map has keys.
   */
  lemma ItemsSpec(c: Counter)
    requires Valid(c)
    ensures forall x :: x in Items(c) <==> x.0 in c.counts && x.1 == c.counts[x.0]
    ensures forall i, j :: 0 <= i < j < |Items(c)| ==> Items(c)[i].0 != Items(c)[j].0
    ensures |Items(c)| == |c.counts|
  {
    ItemsSize(c);
    forall x: (string, nat) | x.0 in c.counts && x.1 == c.counts[x.0] ensures x in Items(c) {
      var i :| 0 <= i < |c.keys| && c.keys[i] == x.0;
      assert Items(c)[i] == x;
    }
  }

  lemma {:induction false} DistinctSize<T>(s: seq<T>)
    requires Distinct(s)
    ensures |set x | x in s| == |s|
  {
    if s != [] {
      var init, y := s[..|s| - 1], s[|s| - 1];
      assert s == init + [y];
      DistinctSize(init);
      assert (set x | x in s) == (set x | x in init) + {y};
    }
  }

  /** A well-formed counter lists as many items as its map has keys. */
  lemma ItemsSize(c: Counter)
    requires Valid(c)
    ensures |Items(c)| == |c.counts|
  {
    DistinctSize(c.keys);
    assert c.counts.Keys == set x | x in c.keys;
  }
}
