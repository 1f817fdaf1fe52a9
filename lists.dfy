/** The array operations the pages and helpers are built from:
    `Array.prototype.filter`, a summing `reduce`, and `find`. */
module Lists {

  import opened Nullable

  /** a is an order-preserving subsequence of b: b with some elements
      dropped. */
  ghost predicate IsSubsequence<T>(a: seq<T>, b: seq<T>)
    decreases |b|
  {
    a == [] || (b != [] && ((a[0] == b[0] && IsSubsequence(a[1..], b[1..])) || IsSubsequence(a, b[1..])))
  }

  /** `s.filter(keep)`. */
  function Filter<T>(s: seq<T>, keep: T -> bool): (r: seq<T>)
    ensures |r| <= |s|
    ensures forall i :: 0 <= i < |r| ==> r[i] in s && keep(r[i])
    ensures forall i :: 0 <= i < |s| && keep(s[i]) ==> s[i] in r
    ensures IsSubsequence(r, s)
  {
    if s == [] then []
    else if keep(s[0]) then [s[0]] + Filter(s[1..], keep)
    else Filter(s[1..], keep)
  }

  /** Filtering keeps every copy of a passing element and no copy of a
      failing one. */
  lemma {:induction false} FilterCounts<T>(s: seq<T>, keep: T -> bool, x: T)
    ensures multiset(Filter(s, keep))[x] == if keep(x) then multiset(s)[x] else 0
  {
    if s != [] {
      assert s == [s[0]] + s[1..];
      FilterCounts(s[1..], keep, x);
    }
  }

  /** A filter that keeps every element returns its input. */
  lemma {:induction false} FilterKeepsAll<T>(s: seq<T>, keep: T -> bool)
    requires forall i :: 0 <= i < |s| ==> keep(s[i])
    ensures Filter(s, keep) == s
  {
    if s != [] {
      FilterKeepsAll(s[1..], keep);
    }
  }

  /** Two filters with predicates that never hold together select at most
      as many elements as the input has. */
  lemma {:induction false} FilterExclusiveSizes<T>(s: seq<T>, p: T -> bool, q: T -> bool)
    requires forall i :: 0 <= i < |s| ==> !(p(s[i]) && q(s[i]))
    ensures |Filter(s, p)| + |Filter(s, q)| <= |s|
  {
    if s != [] {
      FilterExclusiveSizes(s[1..], p, q);
    }
  }

  /** `s.reduce((sum, x) => sum + f(x), 0)`. */
  function Sum<T>(s: seq<T>, f: T -> int): int
  {
    if s == [] then 0 else f(s[0]) + Sum(s[1..], f)
  }

  /** A sum of |s| terms, each between lo and hi, lies between |s| * lo
      and |s| * hi. */
  lemma {:induction false} SumBetween<T>(s: seq<T>, f: T -> int, lo: int, hi: int)
    requires forall i :: 0 <= i < |s| ==> lo <= f(s[i]) <= hi
    ensures |s| * lo <= Sum(s, f) <= |s| * hi
  {
    if s != [] {
      SumBetween(s[1..], f, lo, hi);
    }
  }

  /** Filtering a sequence with one more element at the end. */
  lemma {:induction false} FilterAppend<T>(s: seq<T>, x: T, keep: T -> bool)
    ensures Filter(s + [x], keep) == Filter(s, keep) + (if keep(x) then [x] else [])
  {
    if s != [] {
      assert (s + [x])[1..] == s[1..] + [x];
      FilterAppend(s[1..], x, keep);
    }
  }

  /** Filtering twice is filtering once by the conjunction. */
  lemma {:induction false} FilterTwice<T>(s: seq<T>, p: T -> bool, q: T -> bool, both: T -> bool)
    requires forall i :: 0 <= i < |s| ==> both(s[i]) == (p(s[i]) && q(s[i]))
    ensures Filter(Filter(s, p), q) == Filter(s, both)
  {
    if s != [] {
      FilterTwice(s[1..], p, q, both);
    }
  }

  /** A sum over a concatenation is the sum of the two sums. */
  lemma {:induction false} SumAppend<T>(s: seq<T>, t: seq<T>, f: T -> int)
    ensures Sum(s + t, f) == Sum(s, f) + Sum(t, f)
  {
    if s != [] {
      assert (s + t)[1..] == s[1..] + t;
      SumAppend(s[1..], t, f);
    } else {
      assert s + t == t;
    }
  }

  /** Summing some of a list's terms, none of them negative, gives a sum
      that is not negative. */
  lemma {:induction false} FilteredSumNonNegative<T>(s: seq<T>, keep: T -> bool, f: T -> int)
    requires forall i :: 0 <= i < |s| ==> f(s[i]) >= 0
    ensures Sum(Filter(s, keep), f) >= 0
  {
    if s != [] {
      FilteredSumNonNegative(s[1..], keep, f);
      if keep(s[0]) {
        assert ([s[0]] + Filter(s[1..], keep))[1..] == Filter(s[1..], keep);
      }
    }
  }

  /** Filtering out elements that add nothing leaves the sum unchanged. */
  lemma {:induction false} SumSkipsZeros<T>(s: seq<T>, f: T -> int, keep: T -> bool)
    requires forall i :: 0 <= i < |s| && !keep(s[i]) ==> f(s[i]) == 0
    ensures Sum(Filter(s, keep), f) == Sum(s, f)
  {
    if s != [] {
      SumSkipsZeros(s[1..], f, keep);
      if keep(s[0]) {
        assert ([s[0]] + Filter(s[1..], keep))[1..] == Filter(s[1..], keep);
      }
    }
  }

  lemma PrefixStep<T>(s: seq<T>, k: nat)
    requires k < |s|
    ensures s[..k + 1] == s[..k] + [s[k]]
  {
  }

  lemma PrefixWhole<T>(s: seq<T>)
    ensures s[..|s|] == s
  {
  }

  /** A sequence with as many distinct elements as positions repeats none. */
  lemma {:induction false} Pigeonhole<T>(s: seq<T>)
    ensures |set x | x in s| <= |s|
    ensures |set x | x in s| == |s| ==> forall i, j :: 0 <= i < j < |s| ==> s[i] != s[j]
  {
    if s != [] {
      Pigeonhole(s[1..]);
      assert s == [s[0]] + s[1..];
      assert (set x | x in s) == {s[0]} + (set x | x in s[1..]);
      if s[0] !in s[1..] {
        forall i, j | 0 <= i < j < |s| && |set x | x in s| == |s| ensures s[i] != s[j] {
          if i > 0 { assert s[i] == s[1..][i - 1] && s[j] == s[1..][j - 1]; }
          else { assert s[j] == s[1..][j - 1]; }
        }
      }
    }
  }

  /** Keys drawn from a set of keys as large as s, covering all of it, are
      all different. */
  lemma CoveringKeysDiffer<V, K>(s: seq<V>, keyOf: V -> K, keys: set<K>)
    requires |s| == |keys|
    requires forall i :: 0 <= i < |s| ==> keyOf(s[i]) in keys
    requires forall k :: k in keys ==> exists i :: 0 <= i < |s| && keyOf(s[i]) == k
    ensures forall i, j :: 0 <= i < j < |s| ==> keyOf(s[i]) != keyOf(s[j])
  {
    var ks := seq(|s|, i requires 0 <= i < |s| => keyOf(s[i]));
    assert (set x | x in ks) == keys by {
      forall k | k in keys ensures k in ks {
        var i :| 0 <= i < |s| && keyOf(s[i]) == k;
        assert ks[i] == k;
      }
    }
    Pigeonhole(ks);
    forall i, j | 0 <= i < j < |s| ensures keyOf(s[i]) != keyOf(s[j]) {
      assert ks[i] == keyOf(s[i]) && ks[j] == keyOf(s[j]);
    }
  }

  /** A sequence without repeats holds each of its elements once. */
  lemma {:induction false} DistinctCount<T>(s: seq<T>, x: T)
    requires forall i, j :: 0 <= i < j < |s| ==> s[i] != s[j]
    ensures multiset(s)[x] == if x in s then 1 else 0
  {
    if s != [] {
      assert s == [s[0]] + s[1..];
      DistinctCount(s[1..], x);
    }
  }

  /** Two sequences without repeats and with the same elements hold the
      same multiset. */
  lemma SameElements<T>(s: seq<T>, t: seq<T>)
    requires forall i, j :: 0 <= i < j < |s| ==> s[i] != s[j]
    requires forall i, j :: 0 <= i < j < |t| ==> t[i] != t[j]
    requires forall x :: x in s <==> x in t
    ensures multiset(s) == multiset(t)
  {
    forall x ensures multiset(s)[x] == multiset(t)[x] {
      DistinctCount(s, x);
      DistinctCount(t, x);
    }
  }

  /** `s.find(found)`: the first element satisfying found, if any. */
  function Find<T>(s: seq<T>, found: T -> bool): (r: Option<T>)
    ensures r.None? <==> forall i :: 0 <= i < |s| ==> !found(s[i])
    ensures r.Some? ==> exists i :: 0 <= i < |s| && s[i] == r.value && found(s[i]) &&
                                    forall j :: 0 <= j < i ==> !found(s[j])
  {
    if s == [] then None
    else if found(s[0]) then Some(s[0])
    else
      var r := Find(s[1..], found);
      assert r.Some? ==> exists i :: 0 <= i < |s| - 1 && s[1..][i] == r.value && found(s[1..][i]) &&
                                    forall j :: 0 <= j < i ==> !found(s[1..][j]);
      r
  }
}
