/**
 Sequence helpers shared by every reducer: JavaScript's `Array.prototype.filter`
 as a pure function, the "order-preserving subsequence" relation it produces,
 and duplicate-freedom.
 */
module Seqs {

  /** `a` can be obtained from `b` by deleting elements, keeping the order of the rest. */
  ghost predicate IsSubsequence<T>(a: seq<T>, b: seq<T>)
    decreases |b|
  {
    if |a| == 0 then true
    else if |b| == 0 then false
    else (a[0] == b[0] && IsSubsequence(a[1..], b[1..])) || IsSubsequence(a, b[1..])
  }

  /** No element occurs twice. */
  predicate Distinct<T(==)>(s: seq<T>) {
    forall i, j :: 0 <= i < j < |s| ==> s[i] != s[j]
  }

  /**
   The recursion behind `Filter`, without its contract, so that the proofs about
   it stay small. Outside this module, use `Filter`.
   */
  function Select<T>(s: seq<T>, keep: T -> bool): seq<T>
    decreases |s|
  {
    if |s| == 0 then []
    else if keep(s[0]) then [s[0]] + Select(s[1..], keep)
    else Select(s[1..], keep)
  }

  /** `Select` keeps every copy of each kept value and no copy of any other. */
  lemma {:induction false} SelectCount<T>(s: seq<T>, keep: T -> bool)
    ensures forall x :: multiset(Select(s, keep))[x] == if keep(x) then multiset(s)[x] else 0
    decreases |s|
  {
    if |s| > 0 {
      SelectCount(s[1..], keep);
      assert s == [s[0]] + s[1..];
      assert multiset(s) == multiset{s[0]} + multiset(s[1..]);
    }
  }

  /** `Select` returns an order-preserving subsequence, hence no longer than its input. */
  lemma {:induction false} SelectSubsequence<T>(s: seq<T>, keep: T -> bool)
    ensures IsSubsequence(Select(s, keep), s)
    ensures |Select(s, keep)| <= |s|
    decreases |s|
  {
    if |s| > 0 {
      SelectSubsequence(s[1..], keep);
    }
  }

  /** What the counts of `Select` say about its elements, stated per index. */
  lemma SelectMembers<T>(s: seq<T>, keep: T -> bool)
    ensures var r := Select(s, keep);
      && multiset(r) <= multiset(s)
      && (forall i :: 0 <= i < |r| ==> r[i] in s && keep(r[i]))
      && (forall i :: 0 <= i < |s| && keep(s[i]) ==> s[i] in r)
      && (forall i :: 0 <= i < |s| && keep(s[i]) ==> multiset(r)[s[i]] == multiset(s)[s[i]])
  {
    var r := Select(s, keep);
    SelectCount(s, keep);
    forall i | 0 <= i < |r| ensures r[i] in s && keep(r[i]) {
      assert r[i] in multiset(r);
    }
    forall i | 0 <= i < |s| && keep(s[i]) ensures s[i] in r {
      assert s[i] in multiset(s);
    }
  }

  /** `s.filter(keep)`: the elements satisfying `keep`, in their original order. */
  function Filter<T>(s: seq<T>, keep: T -> bool): (r: seq<T>)
    ensures IsSubsequence(r, s)
    ensures forall i :: 0 <= i < |r| ==> r[i] in s && keep(r[i])
    ensures forall i :: 0 <= i < |s| && keep(s[i]) ==> s[i] in r
    ensures multiset(r) <= multiset(s)
    ensures forall i :: 0 <= i < |s| && keep(s[i]) ==> multiset(r)[s[i]] == multiset(s)[s[i]]
    ensures |r| <= |s|
  {
    SelectMembers(s, keep);
    SelectSubsequence(s, keep);
    Select(s, keep)
  }

  /** Selecting with a predicate every element satisfies returns the sequence itself. */
  lemma {:induction false} SelectKeepsAll<T>(s: seq<T>, keep: T -> bool)
    requires forall i :: 0 <= i < |s| ==> keep(s[i])
    ensures Select(s, keep) == s
    decreases |s|
  {
    if |s| > 0 {
      var t := s[1..];
      forall i | 0 <= i < |t| ensures keep(t[i]) {
        assert t[i] == s[i + 1];
      }
      SelectKeepsAll(t, keep);
      assert s == [s[0]] + t;
    }
  }

  /** Filtering with a predicate every element satisfies returns the sequence itself. */
  lemma FilterKeepsAll<T>(s: seq<T>, keep: T -> bool)
    requires forall i :: 0 <= i < |s| ==> keep(s[i])
    ensures Filter(s, keep) == s
  {
    SelectKeepsAll(s, keep);
  }

  /** Two predicates that agree on every element make `Select` pick the same elements. */
  lemma {:induction false} SelectAgreeing<T>(s: seq<T>, p: T -> bool, q: T -> bool)
    requires forall i :: 0 <= i < |s| ==> p(s[i]) == q(s[i])
    ensures Select(s, p) == Select(s, q)
    decreases |s|
  {
    if |s| > 0 {
      assert forall i :: 0 <= i < |s[1..]| ==> s[1..][i] == s[i + 1];
      SelectAgreeing(s[1..], p, q);
    }
  }

  /** Two predicates that agree on every element select the same elements. */
  lemma FilterAgreeing<T>(s: seq<T>, p: T -> bool, q: T -> bool)
    requires forall i :: 0 <= i < |s| ==> p(s[i]) == q(s[i])
    ensures Filter(s, p) == Filter(s, q)
  {
    SelectAgreeing(s, p, q);
  }

  /** Filtering twice with the same predicate is filtering once. */
  lemma FilterIdempotent<T>(s: seq<T>, keep: T -> bool)
    ensures Filter(Filter(s, keep), keep) == Filter(s, keep)
  {
    FilterKeepsAll(Filter(s, keep), keep);
  }

  /** `Select` distributes over appending one element at the end. */
  lemma {:induction false} SelectAppend<T>(s: seq<T>, x: T, keep: T -> bool)
    ensures Select(s + [x], keep) == Select(s, keep) + (if keep(x) then [x] else [])
    decreases |s|
  {
    if |s| == 0 {
      assert s + [x] == [x];
      assert [x][1..] == [];
    } else {
      assert (s + [x])[0] == s[0];
      assert (s + [x])[1..] == s[1..] + [x];
      SelectAppend(s[1..], x, keep);
    }
  }

  /** Filtering distributes over appending one element at the end. */
  lemma FilterAppend<T>(s: seq<T>, x: T, keep: T -> bool)
    ensures Filter(s + [x], keep) == Filter(s, keep) + (if keep(x) then [x] else [])
  {
    SelectAppend(s, x, keep);
  }

  /** Filtering never introduces a duplicate. */
  lemma {:induction false} FilterDistinct<T>(s: seq<T>, keep: T -> bool)
    requires Distinct(s)
    ensures Distinct(Filter(s, keep))
    decreases |s|
  {
    if |s| > 0 {
      DistinctSplit(s);
      FilterDistinct(s[1..], keep);
      if keep(s[0]) {
        var t := Filter(s[1..], keep);
        assert s[0] !in t;
        PrependDistinct(s[0], t);
      }
    }
  }

  /** A duplicate-free non-empty sequence is a head that does not recur and a duplicate-free tail. */
  lemma DistinctSplit<T>(s: seq<T>)
    requires Distinct(s)
    requires |s| > 0
    ensures s[0] !in s[1..]
    ensures Distinct(s[1..])
  {
    forall i, j | 0 <= i < j < |s[1..]| ensures s[1..][i] != s[1..][j] {
      assert s[1..][i] == s[i + 1] && s[1..][j] == s[j + 1];
    }
    forall k | 0 <= k < |s[1..]| ensures s[1..][k] != s[0] {
      assert s[1..][k] == s[k + 1];
    }
  }

  /** Putting an element that does not occur in front keeps a sequence duplicate-free. */
  lemma PrependDistinct<T>(x: T, t: seq<T>)
    requires Distinct(t)
    requires x !in t
    ensures Distinct([x] + t)
  {
    var r := [x] + t;
    forall i, j | 0 <= i < j < |r| ensures r[i] != r[j] {
      if i == 0 {
        assert r[j] == t[j - 1];
      } else {
        assert r[i] == t[i - 1] && r[j] == t[j - 1];
      }
    }
  }

  /** Appending an element that does not occur keeps a sequence duplicate-free. */
  lemma AppendDistinct<T>(s: seq<T>, x: T)
    requires Distinct(s)
    requires x !in s
    ensures Distinct(s + [x])
  {
    var r := s + [x];
    forall i, j | 0 <= i < j < |r| ensures r[i] != r[j] {
      if j == |s| {
        assert r[i] == s[i];
        assert s[i] in s;
      } else {
        assert r[i] == s[i] && r[j] == s[j];
      }
    }
  }
}
