/**
 The top-3 derivation of `calc_specified_stats` (src/log_reporter.js).

 Each list is `Object.entries(map).sort((a, b) => b[1] - a[1]).splice(0, 3)`.
 The order in which `Object.entries` lists the keys is the engine's; here it
 is any sequence that enumerates the map (`IsEnumeration`).  The sort is a
 stable insertion sort by count, descending, and `splice(0, 3)` keeps the
 first three entries.  Nothing is promised about the order of equal counts:
 `TopCountsIndependentOfOrder` shows that the counts reported do not depend on
 the enumeration order, only which of several equally counted keys is shown.
 */
module Ranking {

  /** One `[key, count]` pair of `Object.entries`. */
  type Entry = (string, nat)

  function Min(a: int, b: int): int
  {
    if a <= b then a else b
  }

  /** Counts are non-increasing from first to last. */
  predicate Descending(s: seq<Entry>)
  {
    forall i, j | 0 <= i < j < |s| :: s[i].1 >= s[j].1
  }

  predicate DistinctKeys(s: seq<Entry>)
  {
    forall i, j | 0 <= i < j < |s| :: s[i].0 != s[j].0
  }

  /** `es` lists every key of `m` exactly once, with its count: one possible `Object.entries(m)`. */
  predicate IsEnumeration(es: seq<Entry>, m: map<string, nat>)
  {
    && DistinctKeys(es)
    && (forall i | 0 <= i < |es| :: es[i].0 in m && m[es[i].0] == es[i].1)
    && (forall k | k in m :: (k, m[k]) in es)
  }

  /** Place `e` before the first entry whose count is not larger (stable for equal counts). */
  function Insert(e: Entry, s: seq<Entry>): (r: seq<Entry>)
    ensures |r| == |s| + 1
    ensures multiset(r) == multiset(s) + multiset{e}
    ensures forall x | x in r :: x == e || x in s
  {
    if s == [] || e.1 >= s[0].1 then [e] + s
    else
      assert s == [s[0]] + s[1..];
      [s[0]] + Insert(e, s[1..])
  }

  /** An entry counting at least as much as every entry of a descending sequence can go in front. */
  lemma DescendingCons(x: Entry, t: seq<Entry>)
    requires Descending(t)
    requires forall y | y in t :: y.1 <= x.1
    ensures Descending([x] + t)
  {
    forall i, j | 0 <= i < j < |[x] + t| ensures ([x] + t)[i].1 >= ([x] + t)[j].1 {
      assert ([x] + t)[j] == t[j - 1];
      if i > 0 {
        assert ([x] + t)[i] == t[i - 1];
      }
    }
  }

  /** Inserting into a descending sequence keeps it descending. */
  lemma {:induction false} InsertDescending(e: Entry, s: seq<Entry>)
    requires Descending(s)
    ensures Descending(Insert(e, s))
  {
    if s == [] || e.1 >= s[0].1 {
      forall y | y in s ensures y.1 <= e.1 {
        var p :| 0 <= p < |s| && s[p] == y;
      }
      DescendingCons(e, s);
    } else {
      assert Descending(s[1..]);
      InsertDescending(e, s[1..]);
      var rest := Insert(e, s[1..]);
      forall y | y in rest ensures y.1 <= s[0].1 {
        if y != e {
          var p :| 0 <= p < |s[1..]| && s[1..][p] == y;
          assert s[p + 1] == y;
        }
      }
      DescendingCons(s[0], rest);
    }
  }

  /** The sort of `calc_specified_stats`: by count, descending. */
  function SortDescending(s: seq<Entry>): (r: seq<Entry>)
    ensures |r| == |s|
    ensures multiset(r) == multiset(s)
    ensures Descending(r)
  {
    if s == [] then []
    else
      assert s == [s[0]] + s[1..];
      var rest := SortDescending(s[1..]);
      InsertDescending(s[0], rest);
      Insert(s[0], rest)
  }

  /** Cutting a descending sequence after `n` entries: everything left behind counts no more than the last kept entry. */
  lemma PrefixBoundsRest(s: seq<Entry>, n: nat)
    requires Descending(s) && 0 < n <= |s|
    ensures multiset(s) - multiset(s[..n]) == multiset(s[n..])
    ensures forall x | x in multiset(s[n..]) :: x.1 <= s[n - 1].1
  {
    assert s == s[..n] + s[n..];
    forall x | x in multiset(s[n..]) ensures x.1 <= s[n - 1].1 {
      assert x in s[n..];
      var p :| 0 <= p < |s[n..]| && s[n..][p] == x;
      assert s[n + p] == x;
    }
  }

  /** `sort(...).splice(0, 3)`: the first three entries of the sorted sequence, or all of them when there are fewer. */
  function TopThree(es: seq<Entry>): (r: seq<Entry>)
    ensures |r| == Min(3, |es|)
  {
    var sorted := SortDescending(es);
    sorted[..Min(3, |sorted|)]
  }

  /**
   The top three hold at most three entries, in descending order, taken from
   the input, and no entry left out counts more than the last one taken.
   */
  lemma TopThreeProperties(es: seq<Entry>)
    ensures |TopThree(es)| == Min(3, |es|)
    ensures Descending(TopThree(es))
    ensures multiset(TopThree(es)) <= multiset(es)
    ensures forall x | x in multiset(es) - multiset(TopThree(es)) :: x.1 <= TopThree(es)[|TopThree(es)| - 1].1
  {
    var sorted := SortDescending(es);
    var n := Min(3, |sorted|);
    DescendingPrefix(sorted, n);
    if n > 0 {
      PrefixBoundsRest(sorted, n);
    }
  }

  /** A prefix of a descending sequence is descending and is drawn from it. */
  lemma DescendingPrefix(s: seq<Entry>, n: nat)
    requires Descending(s) && n <= |s|
    ensures Descending(s[..n])
    ensures multiset(s[..n]) <= multiset(s)
  {
    assert s == s[..n] + s[n..];
  }

  /** A key-distinct sequence holds each entry at most once. */
  lemma {:induction false} DistinctKeysMultiplicity(s: seq<Entry>, x: Entry)
    requires DistinctKeys(s)
    ensures multiset(s)[x] <= 1
  {
    if s != [] {
      assert s == [s[0]] + s[1..];
      DistinctKeysMultiplicity(s[1..], x);
      if s[0] == x {
        assert x !in s[1..] by {
          forall p | 0 <= p < |s[1..]| ensures s[1..][p] != x {
            assert s[1..][p] == s[p + 1];
          }
        }
      }
    }
  }

  /** An entry found at two positions occurs twice. */
  lemma TwiceAtTwoPositions(s: seq<Entry>, i: nat, j: nat)
    requires i < j < |s| && s[i] == s[j]
    ensures multiset(s)[s[i]] >= 2
  {
    assert s == s[..j] + s[j..];
    assert s[i] in s[..j];
    assert s[j..][0] == s[j];
  }

  /** Entries drawn from an enumeration of a map have distinct keys. */
  lemma SubEnumerationDistinct(top: seq<Entry>, es: seq<Entry>, m: map<string, nat>)
    requires IsEnumeration(es, m) && multiset(top) <= multiset(es)
    ensures DistinctKeys(top)
  {
    forall i, j | 0 <= i < j < |top| ensures top[i].0 != top[j].0 {
      assert top[i] in multiset(es) && top[j] in multiset(es);
      if top[i].0 == top[j].0 {
        assert top[i] == top[j];
        TwiceAtTwoPositions(top, i, j);
        DistinctKeysMultiplicity(es, top[i]);
      }
    }
  }

  /** `k` is the key of one of the entries of `s`. */
  predicate Listed(s: seq<Entry>, k: string)
  {
    exists i | 0 <= i < |s| :: s[i].0 == k
  }

  /** The set of keys of a sequence of entries. */
  function KeySet(s: seq<Entry>): set<string>
  {
    if s == [] then {} else {s[0].0} + KeySet(s[1..])
  }

  /** The keys of `KeySet(s)` are those of the entries of `s`. */
  lemma {:induction false} KeySetMembers(s: seq<Entry>)
    ensures forall i | 0 <= i < |s| :: s[i].0 in KeySet(s)
    ensures forall k | k in KeySet(s) :: Listed(s, k)
  {
    if s != [] {
      KeySetMembers(s[1..]);
      forall i | 1 <= i < |s| ensures s[i].0 in KeySet(s) {
        assert s[1..][i - 1] == s[i];
      }
      forall k | k in KeySet(s[1..]) ensures Listed(s, k) {
        var i :| 0 <= i < |s[1..]| && s[1..][i].0 == k;
        assert s[i + 1].0 == k;
      }
    }
  }

  /** A key-distinct sequence has as many keys as entries. */
  lemma {:induction false} KeySetSize(s: seq<Entry>)
    requires DistinctKeys(s)
    ensures |KeySet(s)| == |s|
  {
    if s != [] {
      KeySetSize(s[1..]);
      KeySetMembers(s[1..]);
    }
  }

  /** An enumeration of a map has one entry per key. */
  lemma EnumerationSize(es: seq<Entry>, m: map<string, nat>)
    requires IsEnumeration(es, m)
    ensures |es| == |m|
  {
    KeySetSize(es);
    KeySetMembers(es);
    forall k | k in m ensures k in KeySet(es) {
      var p :| 0 <= p < |es| && es[p] == (k, m[k]);
    }
    assert KeySet(es) == m.Keys;
  }

  /**
   What each list of `calc_specified_stats` is: `min(3, number of keys)`
   entries with non-increasing counts, each a distinct key of the map with its
   own count, and every key not listed counting no more than the last listed.
   */
  ghost predicate IsTopThree(top: seq<Entry>, m: map<string, nat>)
  {
    && |top| == Min(3, |m|)
    && Descending(top)
    && DistinctKeys(top)
    && (forall i | 0 <= i < |top| :: top[i].0 in m && m[top[i].0] == top[i].1)
    && (forall k | k in m && !Listed(top, k) :: |top| > 0 && m[k] <= top[|top| - 1].1)
  }

  /** Entries drawn from an enumeration are entries of the map. */
  lemma SubEnumerationEntries(top: seq<Entry>, es: seq<Entry>, m: map<string, nat>)
    requires IsEnumeration(es, m) && multiset(top) <= multiset(es)
    ensures forall i | 0 <= i < |top| :: top[i].0 in m && m[top[i].0] == top[i].1
  {
    forall i | 0 <= i < |top| ensures top[i].0 in m && m[top[i].0] == top[i].1 {
      assert top[i] in multiset(es);
    }
  }

  /** A key the top three leave out counts no more than the last one listed. */
  lemma UnlistedBounded(es: seq<Entry>, m: map<string, nat>, k: string)
    requires IsEnumeration(es, m) && k in m
    requires !Listed(TopThree(es), k)
    ensures |TopThree(es)| > 0 && m[k] <= TopThree(es)[|TopThree(es)| - 1].1
  {
    var top := TopThree(es);
    TopThreeProperties(es);
    var x := (k, m[k]);
    assert x in multiset(es);
    assert x !in multiset(top);
    assert x in multiset(es) - multiset(top);
    assert |top| > 0 by {
      assert |es| > 0;
    }
  }

  /** Every listed entry is a key of the map with its own count. */
  lemma TopThreeEntries(es: seq<Entry>, m: map<string, nat>)
    requires IsEnumeration(es, m)
    ensures forall i | 0 <= i < |TopThree(es)| :: TopThree(es)[i].0 in m && m[TopThree(es)[i].0] == TopThree(es)[i].1
  {
    TopThreeProperties(es);
    SubEnumerationEntries(TopThree(es), es, m);
  }

  /** Whatever the enumeration order, the top three of a map's entries are its top three. */
  lemma TopThreeOfMap(es: seq<Entry>, m: map<string, nat>)
    requires IsEnumeration(es, m)
    ensures IsTopThree(TopThree(es), m)
  {
    var top := TopThree(es);
    TopThreeProperties(es);
    EnumerationSize(es, m);
    SubEnumerationDistinct(top, es, m);
    SubEnumerationEntries(top, es, m);
    forall k | k in m && !Listed(top, k) ensures |top| > 0 && m[k] <= top[|top| - 1].1 {
      UnlistedBounded(es, m, k);
    }
  }

  /** The count column of a sequence of entries. */
  function CountColumn(s: seq<Entry>): seq<nat>
  {
    seq(|s|, i requires 0 <= i < |s| => s[i].1)
  }

  /** Taking the element at `p` out of a sequence takes one copy of it out of the multiset. */
  lemma MultisetRemoveAt<T>(b: seq<T>, p: nat)
    requires p < |b|
    ensures multiset(b[..p] + b[p + 1..]) == multiset(b) - multiset{b[p]}
  {
    assert b == b[..p] + [b[p]] + b[p + 1..];
  }

  /** Matching `a[0]` with `b[p]` and the rest of `a` with the rest of `b` matches all of `a` with all of `b`. */
  lemma MultisetMatchHead<T>(a: seq<T>, b: seq<T>, p: nat)
    requires a != [] && p < |b| && a[0] == b[p]
    ensures multiset(a) == multiset(b) <==> multiset(a[1..]) == multiset(b[..p] + b[p + 1..])
  {
    var b' := b[..p] + b[p + 1..];
    assert a == [a[0]] + a[1..];
    assert b == b[..p] + [b[p]] + b[p + 1..];
    assert multiset(a) == multiset(a[1..]) + multiset{a[0]};
    assert multiset(b) == multiset(b') + multiset{b[p]};
    assert multiset(a[1..]) == multiset(a) - multiset{a[0]};
    assert multiset(b') == multiset(b) - multiset{b[p]};
  }

  lemma MultisetTails<T>(a: seq<T>, b: seq<T>)
    requires a != [] && b != [] && a[0] == b[0]
    requires multiset(a) == multiset(b)
    ensures multiset(a[1..]) == multiset(b[1..])
  {
    MultisetMatchHead(a, b, 0);
    assert b[..0] + b[1..] == b[1..];
  }

  lemma CountColumnSlices(s: seq<Entry>, p: nat)
    requires p < |s|
    ensures CountColumn(s[1..]) == CountColumn(s)[1..]
    ensures CountColumn(s[..p] + s[p + 1..]) == CountColumn(s)[..p] + CountColumn(s)[p + 1..]
  {
  }

  /** Two arrangements of the same entries have the same counts. */
  lemma {:induction false} CountColumnPermutation(a: seq<Entry>, b: seq<Entry>)
    requires multiset(a) == multiset(b)
    ensures multiset(CountColumn(a)) == multiset(CountColumn(b))
    decreases |a|
  {
    if a != [] {
      assert a[0] in multiset(b);
      var p :| 0 <= p < |b| && b[p] == a[0];
      MultisetMatchHead(a, b, p);
      CountColumnPermutation(a[1..], b[..p] + b[p + 1..]);
      CountColumnSlices(a, 0);
      CountColumnSlices(b, p);
      MultisetMatchHead(CountColumn(a), CountColumn(b), p);
    }
  }

  predicate NonIncreasing(s: seq<nat>)
  {
    forall i, j | 0 <= i < j < |s| :: s[i] >= s[j]
  }

  /** The head of a non-increasing sequence is its largest element. */
  lemma HeadIsLargest(a: seq<nat>, x: nat)
    requires NonIncreasing(a) && x in multiset(a)
    ensures x <= a[0]
  {
    var p :| 0 <= p < |a| && a[p] == x;
  }

  lemma NonIncreasingTail(a: seq<nat>)
    requires NonIncreasing(a) && a != []
    ensures NonIncreasing(a[1..])
  {
    forall i, j | 0 <= i < j < |a[1..]| ensures a[1..][i] >= a[1..][j] {
      assert a[1..][i] == a[i + 1] && a[1..][j] == a[j + 1];
    }
  }

  /** Non-increasing sequences of counts with the same elements are equal. */
  lemma {:induction false} NonIncreasingUnique(a: seq<nat>, b: seq<nat>)
    requires NonIncreasing(a) && NonIncreasing(b)
    requires multiset(a) == multiset(b)
    ensures a == b
    decreases |a|
  {
    assert |b| == |a| by { assert |multiset(a)| == |multiset(b)|; }
    if a != [] {
      assert a[0] in multiset(a) && b[0] in multiset(b);
      HeadIsLargest(a, b[0]);
      HeadIsLargest(b, a[0]);
      assert a[0] == b[0];
      MultisetTails(a, b);
      NonIncreasingTail(a);
      NonIncreasingTail(b);
      assert NonIncreasing(a[1..]);
      assert NonIncreasing(b[1..]);
      assert multiset(a[1..]) == multiset(b[1..]);
      NonIncreasingUnique(a[1..], b[1..]);
      assert a == [a[0]] + a[1..] && b == [b[0]] + b[1..];
    }
  }

  lemma DescendingCountColumn(s: seq<Entry>)
    requires Descending(s)
    ensures NonIncreasing(CountColumn(s))
  {
  }

  /** Two enumerations of one map hold the same entries. */
  lemma EnumerationsPermute(es1: seq<Entry>, es2: seq<Entry>, m: map<string, nat>)
    requires IsEnumeration(es1, m) && IsEnumeration(es2, m)
    ensures multiset(es1) == multiset(es2)
  {
    forall x ensures multiset(es1)[x] == multiset(es2)[x] {
      DistinctKeysMultiplicity(es1, x);
      DistinctKeysMultiplicity(es2, x);
      if x in es1 {
        var i :| 0 <= i < |es1| && es1[i] == x;
        assert x == (x.0, m[x.0]);
      }
      if x in es2 {
        var i :| 0 <= i < |es2| && es2[i] == x;
        assert x == (x.0, m[x.0]);
      }
    }
  }

  /**
   The counts reported for a map do not depend on the order in which its
   entries are enumerated; only which of several equally counted keys is shown
   can differ.
   */
  lemma TopCountsIndependentOfOrder(es1: seq<Entry>, es2: seq<Entry>, m: map<string, nat>)
    requires IsEnumeration(es1, m) && IsEnumeration(es2, m)
    ensures CountColumn(TopThree(es1)) == CountColumn(TopThree(es2))
  {
    EnumerationsPermute(es1, es2, m);
    var s1, s2 := SortDescending(es1), SortDescending(es2);
    CountColumnPermutation(s1, s2);
    DescendingCountColumn(s1);
    DescendingCountColumn(s2);
    NonIncreasingUnique(CountColumn(s1), CountColumn(s2));
    var t1, t2 := TopThree(es1), TopThree(es2);
    assert |t1| == |t2|;
    forall i | 0 <= i < |t1| ensures t1[i].1 == t2[i].1 {
      assert CountColumn(s1)[i] == CountColumn(s2)[i];
    }
  }
}
