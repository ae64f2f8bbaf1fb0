/** Order-preserving filtering of sequences, the behaviour of `Array.prototype.filter`. */
module Seqs {

  /** `r` can be obtained from `s` by deleting elements, keeping the order of the rest. */
  predicate Subsequence<T(==)>(r: seq<T>, s: seq<T>)
    decreases |s|
  {
    if |r| == 0 then true
    else if |s| == 0 then false
    else (r[0] == s[0] && Subsequence(r[1..], s[1..])) || Subsequence(r, s[1..])
  }

  /** The elements of `s` that satisfy `p`, in their original relative order. */
  function Filter<T(!new)>(s: seq<T>, p: T -> bool): (r: seq<T>)
    ensures |r| <= |s|
    ensures forall x :: x in r <==> x in s && p(x)
    ensures Subsequence(r, s)
  {
    if |s| == 0 then []
    else if p(s[0]) then [s[0]] + Filter(s[1..], p)
    else Filter(s[1..], p)
  }

  /** Every sequence is a subsequence of itself. */
  lemma {:induction false} SubsequenceReflexive<T>(s: seq<T>)
    ensures Subsequence(s, s)
    decreases |s|
  {
    if |s| > 0 {
      SubsequenceReflexive(s[1..]);
    }
  }

  /** Any subsequence of `s` made only of `p`-elements is no longer than `Filter(s, p)`. */
  lemma {:induction false} FilterIsLongest<T(!new)>(s: seq<T>, p: T -> bool, r: seq<T>)
    requires Subsequence(r, s)
    requires forall x :: x in r ==> p(x)
    ensures |r| <= |Filter(s, p)|
    decreases |s|
  {
    if |r| > 0 && |s| > 0 {
      assert forall x :: x in r[1..] ==> x in r;
      if r[0] == s[0] && Subsequence(r[1..], s[1..]) {
        assert r[0] in r;
        FilterIsLongest(s[1..], p, r[1..]);
      } else {
        FilterIsLongest(s[1..], p, r);
      }
    }
  }

  /** `Filter(s, p)` is the only subsequence of `s` that holds nothing but `p`-elements and is at
      least as long as it: the filter keeps every `p`-element and nothing else, in order. */
  lemma {:induction false} FilterIsUnique<T(!new)>(s: seq<T>, p: T -> bool, r: seq<T>)
    requires Subsequence(r, s)
    requires forall x :: x in r ==> p(x)
    requires |Filter(s, p)| <= |r|
    ensures r == Filter(s, p)
    decreases |s|
  {
    if |s| > 0 && |r| > 0 {
      var t := s[1..];
      assert r[0] in r;
      assert forall x :: x in r[1..] ==> x in r;
      if r[0] == s[0] && Subsequence(r[1..], t) {
        FilterIsLongest(t, p, r[1..]);
        FilterIsUnique(t, p, r[1..]);
        assert r == [r[0]] + r[1..];
      } else {
        FilterIsLongest(t, p, r);
        FilterIsUnique(t, p, r);
      }
    }
  }

  /** Filtering by `p` and by its complement `q` splits `s`: together the two results hold
      every element of `s` exactly as often as `s` does. */
  lemma {:induction false} FilterPartition<T(!new)>(s: seq<T>, p: T -> bool, q: T -> bool)
    requires forall x :: q(x) == !p(x)
    ensures multiset(Filter(s, p)) + multiset(Filter(s, q)) == multiset(s)
    ensures |Filter(s, p)| + |Filter(s, q)| == |s|
    decreases |s|
  {
    if |s| > 0 {
      FilterPartition(s[1..], p, q);
      assert s == [s[0]] + s[1..];
    }
  }
}
