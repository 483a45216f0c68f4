/**
 * The array combinators the shopping-list code is written with:
 * `Array.prototype.filter`, `Array.prototype.map` and the
 * "filter out every copy of x" idiom, together with the order-preserving
 * subsequence relation that describes what a filter returns.
 */
module Seqs {

  /** `r` can be obtained from `s` by deleting elements, keeping the order of the rest. */
  predicate IsSubsequence<T(==)>(r: seq<T>, s: seq<T>)
    decreases |s|
  {
    r == [] ||
    (s != [] && ((r[0] == s[0] && IsSubsequence(r[1..], s[1..])) || IsSubsequence(r, s[1..])))
  }

  /**
   * `r` is what `s.filter(keep)` returns: the elements of `s` that pass, in
   * their order and with their multiplicity, and nothing else.
   */
  ghost predicate Filtered<T>(r: seq<T>, s: seq<T>, keep: T -> bool)
  {
    && IsSubsequence(r, s)
    && (forall x :: x in r ==> x in s && keep(x))
    && (forall x :: x in s && keep(x) ==> x in r)
    && multiset(r) <= multiset(s)
    && (forall k :: 0 <= k < |s| && keep(s[k]) ==> multiset(r)[s[k]] == multiset(s)[s[k]])
  }

  /** `xs.filter(keep)`. */
  function Filter<T(==)>(s: seq<T>, keep: T -> bool): (r: seq<T>)
    ensures |r| <= |s|
    ensures forall x :: x in r ==> x in s && keep(x)
    ensures forall x :: x in s && keep(x) ==> x in r
    ensures IsSubsequence(r, s)
  {
    if s == [] then []
    else if keep(s[0]) then [s[0]] + Filter(s[1..], keep)
    else Filter(s[1..], keep)
  }

  /** A filter keeps every passing element as often as it occurs, and nothing more. */
  lemma {:induction false} FilterFiltered<T>(s: seq<T>, keep: T -> bool)
    ensures Filtered(Filter(s, keep), s, keep)
  {
    if s != [] {
      FilterFiltered(s[1..], keep);
      var r := Filter(s, keep);
      var t := Filter(s[1..], keep);
      assert s == [s[0]] + s[1..];
      assert multiset(s) == multiset{s[0]} + multiset(s[1..]);
      if keep(s[0]) {
        assert r == [s[0]] + t;
        assert multiset(r) == multiset{s[0]} + multiset(t);
      } else {
        assert r == t;
      }
      forall k | 0 <= k < |s| && keep(s[k])
        ensures multiset(r)[s[k]] == multiset(s)[s[k]]
      {
        if s[k] in s[1..] {
          var j :| 0 <= j < |s[1..]| && s[1..][j] == s[k];
          assert multiset(t)[s[1..][j]] == multiset(s[1..])[s[1..][j]];
        } else {
          assert multiset(t)[s[k]] == 0;
        }
      }
    }
  }

  /** `xs.map(f)`. */
  function Map<T, U>(s: seq<T>, f: T -> U): (r: seq<U>)
    ensures |r| == |s|
    ensures forall k :: 0 <= k < |s| ==> r[k] == f(s[k])
  {
    if s == [] then [] else [f(s[0])] + Map(s[1..], f)
  }

  /** `r` is `s` with every occurrence of `x` taken out and nothing else touched. */
  ghost predicate RemovedAll<T>(r: seq<T>, s: seq<T>, x: T)
  {
    && x !in r
    && IsSubsequence(r, s)
    && multiset(r) == multiset(s)[x := 0]
  }

  /** `xs.filter(y => y !== x)`. */
  function RemoveAll<T(==)>(s: seq<T>, x: T): (r: seq<T>)
    ensures RemovedAll(r, s, x)
    ensures x !in s ==> r == s
  {
    if s == [] then []
    else
      assert s == [s[0]] + s[1..];
      if s[0] == x then RemoveAll(s[1..], x)
      else [s[0]] + RemoveAll(s[1..], x)
  }

  lemma {:induction false} SubsequenceLength<T>(r: seq<T>, s: seq<T>)
    requires IsSubsequence(r, s)
    ensures |r| <= |s|
    decreases |s|
  {
    if r != [] {
      if r[0] == s[0] && IsSubsequence(r[1..], s[1..]) {
        SubsequenceLength(r[1..], s[1..]);
      } else {
        SubsequenceLength(r, s[1..]);
      }
    }
  }

  /** Filtering twice with the same predicate is filtering once. */
  lemma {:induction false} FilterIdempotent<T>(s: seq<T>, keep: T -> bool)
    ensures Filter(Filter(s, keep), keep) == Filter(s, keep)
  {
    if s != [] {
      FilterIdempotent(s[1..], keep);
    }
  }

  /** A filter that keeps every element is the identity. */
  lemma {:induction false} FilterKeepsAll<T>(s: seq<T>, keep: T -> bool)
    requires forall x :: x in s ==> keep(x)
    ensures Filter(s, keep) == s
  {
    if s != [] {
      assert s == [s[0]] + s[1..];
      FilterKeepsAll(s[1..], keep);
    }
  }

  /** Filtering distributes over concatenation. */
  lemma {:induction false} FilterAppend<T>(s: seq<T>, t: seq<T>, keep: T -> bool)
    ensures Filter(s + t, keep) == Filter(s, keep) + Filter(t, keep)
  {
    if s == [] {
      assert s + t == t;
    } else {
      assert (s + t)[1..] == s[1..] + t;
      FilterAppend(s[1..], t, keep);
    }
  }

  /** Two filters commute. */
  lemma {:induction false} FilterCommute<T>(s: seq<T>, p: T -> bool, q: T -> bool)
    ensures Filter(Filter(s, p), q) == Filter(Filter(s, q), p)
  {
    if s != [] {
      FilterCommute(s[1..], p, q);
    }
  }

  /** Filtering keeps everything exactly when every element passes. */
  lemma {:induction false} FilterLengthFull<T>(s: seq<T>, keep: T -> bool)
    ensures |Filter(s, keep)| == |s| <==> forall x :: x in s ==> keep(x)
  {
    if s != [] {
      FilterLengthFull(s[1..], keep);
      assert s == [s[0]] + s[1..];
    }
  }
}
