/**
 Order-preserving filtering of sequences: the model of LINQ's `Where(...).ToList()`,
 which the scanner uses for its extension filter, its removal pass and its
 list of files still to hash.
 */
module Seqs {

  /** The elements of `s` that satisfy `keep`, in their original order. */
  function Filter<T>(keep: T -> bool, s: seq<T>): (r: seq<T>)
    ensures |r| <= |s|
    ensures forall x :: x in r ==> x in s && keep(x)
    ensures forall x :: x in s && keep(x) ==> x in r
    ensures |r| == |s| <==> forall x :: x in s ==> keep(x)
    ensures |r| == |s| ==> r == s
  {
    if s == [] then []
    else
      var init := Filter(keep, s[..|s| - 1]);
      if keep(s[|s| - 1]) then init + [s[|s| - 1]] else init
  }

  /** Filtering distributes over concatenation; together with the one-element
      case this says that Filter keeps the relative order of what it keeps. */
  lemma {:induction false} FilterConcat<T>(keep: T -> bool, a: seq<T>, b: seq<T>)
    ensures Filter(keep, a + b) == Filter(keep, a) + Filter(keep, b)
  {
    if b == [] {
      assert a + b == a;
    } else {
      var b', x := b[..|b| - 1], b[|b| - 1];
      var tail := if keep(x) then [x] else [];
      assert (a + b)[..|a + b| - 1] == a + b';
      assert (a + b)[|a + b| - 1] == x;
      assert Filter(keep, a + b) == Filter(keep, a + b') + tail;
      assert Filter(keep, b) == Filter(keep, b') + tail;
      FilterConcat(keep, a, b');
    }
  }

  /** Nothing passes when no element satisfies `keep`. */
  lemma {:induction false} FilterNone<T>(keep: T -> bool, s: seq<T>)
    requires forall x :: x in s ==> !keep(x)
    ensures Filter(keep, s) == []
  {
    if s != [] {
      FilterNone(keep, s[..|s| - 1]);
    }
  }

  /** A one-element sequence is kept or dropped whole. */
  lemma FilterSingleton<T>(keep: T -> bool, x: T)
    ensures Filter(keep, [x]) == if keep(x) then [x] else []
  {
    assert [x][..0] == [];
  }

  /** `f` applied to every element of `s`, in order; it builds the entries
      the addition loop appends, one per file. */
  function Map<S, T>(f: S -> T, s: seq<S>): seq<T>
  {
    seq(|s|, i requires 0 <= i < |s| => f(s[i]))
  }

  /** Mapping a sequence one element longer appends that element's image. */
  lemma MapSnoc<S, T>(f: S -> T, s: seq<S>)
    requires s != []
    ensures Map(f, s) == Map(f, s[..|s| - 1]) + [f(s[|s| - 1])]
  {
  }

  /** The four pieces of a concatenation can be cut back out of it. */
  lemma ConcatParts<T>(a: seq<T>, b: seq<T>, c: seq<T>, d: seq<T>)
    ensures var s, i, j, k := a + b + c + d, |a|, |a| + |b|, |a| + |b| + |c|;
      && s[..i] == a && s[i..j] == b && s[j..k] == c && s[k..] == d
  {
  }

  /** No two elements of `s` share a key. */
  predicate DistinctBy<T>(s: seq<T>, key: T -> string)
  {
    forall i, j :: 0 <= i < j < |s| ==> key(s[i]) != key(s[j])
  }

  /** Filtering never creates a shared key. */
  lemma {:induction false} FilterDistinctBy<T>(keep: T -> bool, key: T -> string, s: seq<T>)
    requires DistinctBy(s, key)
    ensures DistinctBy(Filter(keep, s), key)
  {
    if s != [] {
      var init := s[..|s| - 1];
      var last := s[|s| - 1];
      assert DistinctBy(init, key);
      FilterDistinctBy(keep, key, init);
      var r0 := Filter(keep, init);
      if keep(last) {
        forall i | 0 <= i < |r0|
          ensures key(r0[i]) != key(last)
        {
          assert r0[i] in init;
          var j :| 0 <= j < |init| && init[j] == r0[i];
          assert s[j] == r0[i];
        }
        assert Filter(keep, s) == r0 + [last];
      }
    }
  }
}
