/**
 * How both implementations rank root-to-leaf paths: a path's score is the mean
 * of its nodes' average scores, and paths are sorted by non-increasing score
 * with a stable sort (JavaScript's `sort((a, b) => b.score - a.score)` and
 * Python's `sort(key=…, reverse=True)` both keep equal scores in their
 * original order).
 */
module Ranking {
  import opened Wrappers
  import Argmax

  /** A path of node keys with its score. */
  datatype ScoredPath = ScoredPath(path: seq<int>, score: real)

  function ScoreOf(s: ScoredPath): real
  {
    s.score
  }

  function Sum(vs: seq<real>): real
  {
    if |vs| == 0 then 0.0 else Sum(vs[..|vs| - 1]) + vs[|vs| - 1]
  }

  /** `sum(scores) / len(scores) if scores else 0.0`. */
  function Mean(vs: seq<real>): real
  {
    if |vs| == 0 then 0.0 else Sum(vs) / |vs| as real
  }

  lemma {:induction false} SumBounds(vs: seq<real>, lo: real, hi: real)
    requires forall i :: 0 <= i < |vs| ==> lo <= vs[i] <= hi
    ensures |vs| as real * lo <= Sum(vs) <= |vs| as real * hi
  {
    if |vs| > 0 {
      SumBounds(vs[..|vs| - 1], lo, hi);
    }
  }

  /** The mean of values that all lie in [lo, hi] lies in [lo, hi] too. */
  lemma MeanBounds(vs: seq<real>, lo: real, hi: real)
    requires |vs| > 0
    requires forall i :: 0 <= i < |vs| ==> lo <= vs[i] <= hi
    ensures lo <= Mean(vs) <= hi
  {
    SumBounds(vs, lo, hi);
    var n := |vs| as real;
    assert Mean(vs) * n == Sum(vs);
  }

  /** Insert `x` after every element whose key is at least `x`'s. */
  function Insert<T>(ys: seq<T>, x: T, key: T -> real): (r: seq<T>)
    ensures |r| == |ys| + 1
    ensures multiset(r) == multiset(ys) + multiset{x}
  {
    if |ys| == 0 then [x]
    else if key(ys[0]) >= key(x) then
      assert ys == [ys[0]] + ys[1..];
      [ys[0]] + Insert(ys[1..], x, key)
    else [x] + ys
  }

  /** The stable descending sort: each element in turn is inserted behind the ones kept so far. */
  function SortDesc<T>(xs: seq<T>, key: T -> real): (r: seq<T>)
    ensures |r| == |xs|
    ensures multiset(r) == multiset(xs)
  {
    if |xs| == 0 then []
    else
      assert xs == xs[..|xs| - 1] + [xs[|xs| - 1]];
      Insert(SortDesc(xs[..|xs| - 1], key), xs[|xs| - 1], key)
  }

  predicate SortedDesc<T>(xs: seq<T>, key: T -> real)
  {
    forall i, j :: 0 <= i < j < |xs| ==> key(xs[i]) >= key(xs[j])
  }

  lemma {:induction false} InsertSorted<T>(ys: seq<T>, x: T, key: T -> real)
    requires SortedDesc(ys, key)
    ensures SortedDesc(Insert(ys, x, key), key)
    ensures |ys| > 0 ==> Insert(ys, x, key)[0] == (if key(ys[0]) >= key(x) then ys[0] else x)
  {
    if |ys| > 0 && key(ys[0]) >= key(x) {
      InsertSorted(ys[1..], x, key);
      var r := Insert(ys, x, key);
      var t := Insert(ys[1..], x, key);
      assert r == [ys[0]] + t;
      forall k | 0 <= k < |t|
        ensures key(ys[0]) >= key(t[k])
      {
        assert t[k] in multiset(ys[1..]) + multiset{x};
        if t[k] in multiset(ys[1..]) {
          var j :| 0 <= j < |ys[1..]| && ys[1..][j] == t[k];
          assert ys[j + 1] == t[k];
        }
      }
    }
  }

  /** The ranking is ordered by non-increasing key. */
  lemma {:induction false} SortDescSorted<T>(xs: seq<T>, key: T -> real)
    ensures SortedDesc(SortDesc(xs, key), key)
  {
    if |xs| > 0 {
      SortDescSorted(xs[..|xs| - 1], key);
      InsertSorted(SortDesc(xs[..|xs| - 1], key), xs[|xs| - 1], key);
    }
  }

  /** Each element's key, as the values the "best so far" scan reads. */
  function Keys<T>(xs: seq<T>, key: T -> real): (vs: seq<Option<real>>)
    ensures |vs| == |xs|
    ensures forall i :: 0 <= i < |xs| ==> vs[i] == Some(key(xs[i]))
  {
    if |xs| == 0 then [] else Keys(xs[..|xs| - 1], key) + [Some(key(xs[|xs| - 1]))]
  }

  /**
   * The head of the ranking is the first element with the greatest key — the
   * same element the strict "best so far" scan picks.
   */
  lemma {:induction false} SortDescHead<T>(xs: seq<T>, key: T -> real)
    requires |xs| > 0
    ensures Argmax.FirstMaxIndex(Keys(xs, key)).Some?
    ensures SortDesc(xs, key)[0] == xs[Argmax.FirstMaxIndex(Keys(xs, key)).value]
  {
    var n := |xs| - 1;
    var vs := Keys(xs, key);
    assert vs[..n] == Keys(xs[..n], key);
    if n == 0 {
      assert Argmax.FirstMaxIndex(vs[..0]) == None;
    } else {
      SortDescHead(xs[..n], key);
      SortDescSorted(xs[..n], key);
      InsertSorted(SortDesc(xs[..n], key), xs[n], key);
    }
  }
}
