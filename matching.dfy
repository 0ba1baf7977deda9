/**
 The all-pairs comparison of ImageScanner.Process (after "Comparing images"):
 every ordered pair of distinct keys is scored, and a qualifying pair (A, B)
 is recorded unless some recorded match already has B as its first name.

 The specification is the canonical enumeration of unordered pairs: for keys
 k0 .. km in dictionary order, the pairs (ki, kj) with i < j whose score
 reaches the threshold, by increasing i and then j.
 */
module Matching {
  import opened FolderHashes

  /** One reported pair of similar images. */
  datatype ImageMatch = ImageMatch(fileName1: string, fileName2: string, similarity: real)

  /** The score does not depend on the order of its arguments. */
  ghost predicate Symmetric(similarity: (ulong, ulong) -> real)
  {
    forall a, b :: similarity(a, b) == similarity(b, a)
  }

  /** The match recorded for entries `i` and `k`, in that order. */
  function MatchOf(d: seq<Entry>, i: nat, k: nat, similarity: (ulong, ulong) -> real): ImageMatch
    requires i < |d| && k < |d|
  {
    ImageMatch(d[i].name, d[k].name, similarity(d[i].hash, d[k].hash))
  }

  /** `m` is the match of the entries `i < k`, whose score reaches the threshold. */
  predicate IsPairMatch(d: seq<Entry>, threshold: real, similarity: (ulong, ulong) -> real,
                        m: ImageMatch, i: int, k: int)
  {
    && 0 <= i < k < |d|
    && similarity(d[i].hash, d[k].hash) >= threshold
    && m == MatchOf(d, i, k, similarity)
  }

  /** The qualifying pairs (d[i], d[k]) with i < k < j, by increasing k. */
  function Row(d: seq<Entry>, i: nat, j: nat, threshold: real, similarity: (ulong, ulong) -> real): seq<ImageMatch>
    requires i < |d| && j <= |d|
  {
    if j == 0 then []
    else
      Row(d, i, j - 1, threshold, similarity)
      + (if i < j - 1 && similarity(d[i].hash, d[j - 1].hash) >= threshold
         then [MatchOf(d, i, j - 1, similarity)] else [])
  }

  /** The rows of the first `n` entries, row `i` holding entry i's pairs. */
  function Rows(d: seq<Entry>, n: nat, threshold: real, similarity: (ulong, ulong) -> real): seq<seq<ImageMatch>>
    requires n <= |d|
  {
    seq(n, i requires 0 <= i < n => Row(d, i, |d|, threshold, similarity))
  }

  /** Rows laid end to end. */
  function Flatten<T>(rows: seq<seq<T>>): seq<T>
  {
    if rows == [] then [] else Flatten(rows[..|rows| - 1]) + rows[|rows| - 1]
  }

  /** The rows of the first `n` entries, in order. */
  function Pairs(d: seq<Entry>, n: nat, threshold: real, similarity: (ulong, ulong) -> real): seq<ImageMatch>
    requires n <= |d|
  {
    Flatten(Rows(d, n, threshold, similarity))
  }

  /** Every qualifying unordered pair, the earlier key first. */
  function AllPairs(d: seq<Entry>, threshold: real, similarity: (ulong, ulong) -> real): seq<ImageMatch>
  {
    Pairs(d, |d|, threshold, similarity)
  }

  /** One more entry appends its row. */
  lemma PairsSnoc(d: seq<Entry>, n: nat, threshold: real, similarity: (ulong, ulong) -> real)
    requires n < |d|
    ensures Pairs(d, n + 1, threshold, similarity) == Pairs(d, n, threshold, similarity) + Row(d, n, |d|, threshold, similarity)
  {
    assert Rows(d, n + 1, threshold, similarity)[..n] == Rows(d, n, threshold, similarity);
  }

  lemma {:induction false} RowMembers(d: seq<Entry>, i: nat, j: nat, threshold: real, similarity: (ulong, ulong) -> real)
    requires i < |d| && j <= |d|
    ensures forall m :: m in Row(d, i, j, threshold, similarity) ==>
      exists k :: k < j && IsPairMatch(d, threshold, similarity, m, i, k)
    ensures forall m, k :: k < j && IsPairMatch(d, threshold, similarity, m, i, k) ==>
      m in Row(d, i, j, threshold, similarity)
  {
    if j > 0 {
      RowMembers(d, i, j - 1, threshold, similarity);
      var init := Row(d, i, j - 1, threshold, similarity);
      forall m | m in Row(d, i, j, threshold, similarity)
        ensures exists k :: k < j && IsPairMatch(d, threshold, similarity, m, i, k)
      {
        if m !in init {
          assert IsPairMatch(d, threshold, similarity, m, i, j - 1);
        }
      }
    }
  }

  lemma {:induction false} PairsMembers(d: seq<Entry>, n: nat, threshold: real, similarity: (ulong, ulong) -> real)
    requires n <= |d|
    ensures forall m :: m in Pairs(d, n, threshold, similarity) ==>
      exists i, k :: i < n && IsPairMatch(d, threshold, similarity, m, i, k)
    ensures forall m, i, k :: i < n && IsPairMatch(d, threshold, similarity, m, i, k) ==>
      m in Pairs(d, n, threshold, similarity)
  {
    if n > 0 {
      PairsMembers(d, n - 1, threshold, similarity);
      RowMembers(d, n - 1, |d|, threshold, similarity);
      PairsSnoc(d, n - 1, threshold, similarity);
    }
  }

  /** The matches are exactly the qualifying pairs (ki, kj) with i < j: the
      bound is inclusive, the first name is the earlier key and the two names
      differ. */
  lemma AllPairsMembers(d: seq<Entry>, threshold: real, similarity: (ulong, ulong) -> real)
    requires DistinctNames(d)
    ensures forall m :: m in AllPairs(d, threshold, similarity) <==>
      exists i, k :: IsPairMatch(d, threshold, similarity, m, i, k)
    ensures forall m :: m in AllPairs(d, threshold, similarity) ==>
      m.fileName1 != m.fileName2 && m.similarity >= threshold
  {
    PairsMembers(d, |d|, threshold, similarity);
    forall m | m in AllPairs(d, threshold, similarity)
      ensures m.fileName1 != m.fileName2
    {
      var i, k :| i < |d| && IsPairMatch(d, threshold, similarity, m, i, k);
      assert NameOf(d[i]) != NameOf(d[k]);
    }
  }

  function CountOrdered(r: seq<ImageMatch>, a: string, b: string): nat
  {
    if r == [] then 0
    else CountOrdered(r[..|r| - 1], a, b) + (if r[|r| - 1].fileName1 == a && r[|r| - 1].fileName2 == b then 1 else 0)
  }

  lemma {:induction false} CountConcat(x: seq<ImageMatch>, y: seq<ImageMatch>, a: string, b: string)
    ensures CountOrdered(x + y, a, b) == CountOrdered(x, a, b) + CountOrdered(y, a, b)
  {
    if y == [] {
      assert x + y == x;
    } else {
      assert (x + y)[..|x + y| - 1] == x + y[..|y| - 1];
      CountConcat(x, y[..|y| - 1], a, b);
    }
  }

  lemma CountOne(m: ImageMatch, a: string, b: string)
    ensures CountOrdered([m], a, b) == if m.fileName1 == a && m.fileName2 == b then 1 else 0
  {
    assert [m][..0] == [];
  }

  lemma {:induction false} CountAbsent(r: seq<ImageMatch>, a: string, b: string)
    requires forall m :: m in r ==> !(m.fileName1 == a && m.fileName2 == b)
    ensures CountOrdered(r, a, b) == 0
  {
    if r != [] {
      assert forall m :: m in r[..|r| - 1] ==> m in r;
      CountAbsent(r[..|r| - 1], a, b);
    }
  }

  /** Row `i` up to column `j` holds the pair (p, q), earlier key first, once
      when it is row p's own pair with a later column below `j` that
      qualifies, and never otherwise. */
  lemma {:induction false} RowForward(d: seq<Entry>, i: nat, j: nat, threshold: real, similarity: (ulong, ulong) -> real,
                                      p: nat, q: nat)
    requires DistinctNames(d)
    requires i < |d| && j <= |d| && p < q < |d|
    ensures CountOrdered(Row(d, i, j, threshold, similarity), d[p].name, d[q].name)
         == if i == p && q < j && similarity(d[p].hash, d[q].hash) >= threshold then 1 else 0
  {
    if j > 0 {
      var a, b := d[p].name, d[q].name;
      var init := Row(d, i, j - 1, threshold, similarity);
      var qualifies := i < j - 1 && similarity(d[i].hash, d[j - 1].hash) >= threshold;
      var tail := if qualifies then [MatchOf(d, i, j - 1, similarity)] else [];
      assert Row(d, i, j, threshold, similarity) == init + tail;
      RowForward(d, i, j - 1, threshold, similarity, p, q);
      CountConcat(init, tail, a, b);
      if qualifies {
        MatchCount(d, i, j - 1, similarity, p, q);
      }
    }
  }

  /** A single match of entries `i` and `k` records the names of `p` and `q`,
      in that order, exactly when it was made from those two entries. */
  lemma MatchCount(d: seq<Entry>, i: nat, k: nat, similarity: (ulong, ulong) -> real, p: nat, q: nat)
    requires DistinctNames(d)
    requires i < |d| && k < |d| && p < |d| && q < |d|
    ensures CountOrdered([MatchOf(d, i, k, similarity)], d[p].name, d[q].name)
         == if i == p && k == q then 1 else 0
  {
    CountOne(MatchOf(d, i, k, similarity), d[p].name, d[q].name);
    SameNameSameIndex(d, i, p);
    SameNameSameIndex(d, k, q);
  }

  /** When only row `p` can hold the names `a`, `b`, and it holds them `c`
      times, so do the rows laid end to end (none, when there is no row `p`). */
  lemma {:induction false} FlattenCount(rows: seq<seq<ImageMatch>>, a: string, b: string, p: nat, c: nat)
    requires forall i :: 0 <= i < |rows| && i != p ==> CountOrdered(rows[i], a, b) == 0
    requires p < |rows| ==> CountOrdered(rows[p], a, b) == c
    ensures CountOrdered(Flatten(rows), a, b) == if p < |rows| then c else 0
  {
    if rows != [] {
      var init := rows[..|rows| - 1];
      FlattenCount(init, a, b, p, c);
      CountConcat(Flatten(init), rows[|rows| - 1], a, b);
    }
  }

  /** Each unordered pair of distinct keys is reported once if its score
      reaches the threshold and never otherwise, never in both orders, and
      always with the earlier key first. */
  lemma OncePerPair(d: seq<Entry>, threshold: real, similarity: (ulong, ulong) -> real, p: nat, q: nat)
    requires DistinctNames(d)
    requires p < q < |d|
    ensures CountOrdered(AllPairs(d, threshold, similarity), d[p].name, d[q].name)
         == if similarity(d[p].hash, d[q].hash) >= threshold then 1 else 0
    ensures CountOrdered(AllPairs(d, threshold, similarity), d[q].name, d[p].name) == 0
  {
    var rows := Rows(d, |d|, threshold, similarity);
    var hit := similarity(d[p].hash, d[q].hash) >= threshold;
    forall i | 0 <= i < |rows|
      ensures CountOrdered(rows[i], d[p].name, d[q].name) == if i == p && hit then 1 else 0
    {
      RowForward(d, i, |d|, threshold, similarity, p, q);
    }
    FlattenCount(rows, d[p].name, d[q].name, p, if hit then 1 else 0);
    var r := AllPairs(d, threshold, similarity);
    PairsMembers(d, |d|, threshold, similarity);
    forall m | m in r
      ensures !(m.fileName1 == d[q].name && m.fileName2 == d[p].name)
    {
      var i, k :| i < |d| && IsPairMatch(d, threshold, similarity, m, i, k);
      SameNameSameIndex(d, i, q);
      SameNameSameIndex(d, k, p);
    }
    CountAbsent(r, d[q].name, d[p].name);
  }

  /** Three images a, b, c scoring 92 (a, b), 40 (a, c) and 38 (b, c) against
      a threshold of 80 give the single match (a, b, 92). */
  lemma ThreeImages(similarity: (ulong, ulong) -> real)
    requires similarity(1, 2) == 92.0 && similarity(1, 3) == 40.0 && similarity(2, 3) == 38.0
    ensures AllPairs([Entry("a.jpg", 1), Entry("b.jpg", 2), Entry("c.jpg", 3)], 80.0, similarity)
         == [ImageMatch("a.jpg", "b.jpg", 92.0)]
  {
    var d := [Entry("a.jpg", 1), Entry("b.jpg", 2), Entry("c.jpg", 3)];
    assert Row(d, 0, 3, 80.0, similarity) == [ImageMatch("a.jpg", "b.jpg", 92.0)];
    assert Row(d, 1, 3, 80.0, similarity) == [];
    assert Row(d, 2, 3, 80.0, similarity) == [];
    assert Pairs(d, 0, 80.0, similarity) == [];
    PairsSnoc(d, 0, 80.0, similarity);
    PairsSnoc(d, 1, 80.0, similarity);
    PairsSnoc(d, 2, 80.0, similarity);
  }

  /** The matcher's own reading of `m`: two distinct names of `d`, scored by
      the similarity of their hashes, at or above the threshold. */
  predicate Recorded(d: seq<Entry>, threshold: real, similarity: (ulong, ulong) -> real, m: ImageMatch)
  {
    && m.fileName1 != m.fileName2
    && m.similarity >= threshold
    && exists i, k :: 0 <= i < |d| && 0 <= k < |d| && m == MatchOf(d, i, k, similarity)
  }

  /** No match has the name of an entry from `n` on as its first name. */
  predicate NoLaterFirstNames(matches: seq<ImageMatch>, d: seq<Entry>, n: nat)
  {
    forall t, p :: 0 <= t < |matches| && n <= p < |d| ==> matches[t].fileName1 != d[p].name
  }

  /** The search of the matches found so far (the `foreach` over `result`
      with its `break`). */
  method HasFirstName(matches: seq<ImageMatch>, name: string) returns (found: bool)
    ensures found <==> exists t :: 0 <= t < |matches| && matches[t].fileName1 == name
  {
    found := false;
    var k := 0;
    while k < |matches|
      invariant 0 <= k <= |matches|
      invariant forall t :: 0 <= t < k ==> matches[t].fileName1 != name
    {
      if matches[k].fileName1 == name {
        found := true;
        break;
      }
      k := k + 1;
    }
  }

  /** One pass of the inner `foreach`: entry `i` against every entry. */
  method MatchEntry(hashes: seq<Entry>, i: nat, threshold: real, similarity: (ulong, ulong) -> real,
                    matches: seq<ImageMatch>)
    returns (result: seq<ImageMatch>)
    requires DistinctNames(hashes) && i < |hashes|
    requires forall m :: m in matches ==> Recorded(hashes, threshold, similarity, m)
    requires NoLaterFirstNames(matches, hashes, i)
    ensures forall m :: m in result ==> Recorded(hashes, threshold, similarity, m)
    ensures NoLaterFirstNames(result, hashes, i + 1)
    ensures Symmetric(similarity) && matches == Pairs(hashes, i, threshold, similarity) ==>
      result == Pairs(hashes, i + 1, threshold, similarity)
  {
    result := matches;
    ghost var canonical := Symmetric(similarity) && matches == Pairs(hashes, i, threshold, similarity);
    var j := 0;
    while j < |hashes|
      invariant 0 <= j <= |hashes|
      invariant forall m :: m in result ==> Recorded(hashes, threshold, similarity, m)
      invariant NoLaterFirstNames(result, hashes, i + 1)
      invariant canonical ==> result == matches + Row(hashes, i, j, threshold, similarity)
    {
      if hashes[i].name != hashes[j].name {
        var score := similarity(hashes[i].hash, hashes[j].hash);
        if score >= threshold {
          var found := HasFirstName(result, hashes[j].name);
          SameNameSameIndex(hashes, i, j);
          StepKeepsCanonical(hashes, threshold, similarity, matches, result, i, j, found);
          if !found {
            var m := ImageMatch(hashes[i].name, hashes[j].name, score);
            assert m == MatchOf(hashes, i, j, similarity);
            forall p | i + 1 <= p < |hashes| ensures hashes[i].name != hashes[p].name {
              SameNameSameIndex(hashes, i, p);
            }
            result := result + [m];
          }
        }
      } else {
        SameNameSameIndex(hashes, i, j);
      }
      j := j + 1;
    }
    PairsSnoc(hashes, i, threshold, similarity);
  }

  /** One step of the inner loop keeps the canonical invariant: the search
      finds an earlier match exactly when `j` comes before `i`. */
  lemma StepKeepsCanonical(d: seq<Entry>, threshold: real, similarity: (ulong, ulong) -> real,
                           matches: seq<ImageMatch>, before: seq<ImageMatch>, i: nat, j: nat, found: bool)
    requires DistinctNames(d) && i < |d| && j < |d| && i != j
    requires similarity(d[i].hash, d[j].hash) >= threshold
    requires NoLaterFirstNames(before, d, i + 1)
    requires found <==> exists t :: 0 <= t < |before| && before[t].fileName1 == d[j].name
    requires Symmetric(similarity) && matches == Pairs(d, i, threshold, similarity) ==>
      before == matches + Row(d, i, j, threshold, similarity)
    ensures Symmetric(similarity) && matches == Pairs(d, i, threshold, similarity) ==>
      (if found then before else before + [MatchOf(d, i, j, similarity)])
        == matches + Row(d, i, j + 1, threshold, similarity)
  {
    if Symmetric(similarity) && matches == Pairs(d, i, threshold, similarity) {
      if j < i {
        assert similarity(d[j].hash, d[i].hash) >= threshold;
        PairsMembers(d, i, threshold, similarity);
        var m := MatchOf(d, j, i, similarity);
        assert IsPairMatch(d, threshold, similarity, m, j, i);
        assert m in before;
        var t :| 0 <= t < |before| && before[t] == m;
        assert found;
      }
    }
  }

  /** The nested loop over the folder's dictionary. Every reported match
      names two different images whose score reaches the threshold; with a
      symmetric score the matches are exactly the canonical pairs. */
  method FindMatches(hashes: seq<Entry>, threshold: real, similarity: (ulong, ulong) -> real)
    returns (result: seq<ImageMatch>)
    requires DistinctNames(hashes)
    ensures forall m :: m in result ==> Recorded(hashes, threshold, similarity, m)
    ensures Symmetric(similarity) ==> result == AllPairs(hashes, threshold, similarity)
  {
    result := [];
    var i := 0;
    while i < |hashes|
      invariant 0 <= i <= |hashes|
      invariant forall m :: m in result ==> Recorded(hashes, threshold, similarity, m)
      invariant NoLaterFirstNames(result, hashes, i)
      invariant Symmetric(similarity) ==> result == Pairs(hashes, i, threshold, similarity)
    {
      result := MatchEntry(hashes, i, threshold, similarity, result);
      i := i + 1;
    }
  }
}
