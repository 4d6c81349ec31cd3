/** The result list of `compute_similarity` and its final
  * `results.sort(key=lambda x: x[1], reverse=True)` (Assignment4.py:82-84):
  * Python's sort is stable, also with `reverse=True`, so entries of equal
  * similarity keep the order in which they were appended. */
module Ranking {
  import opened Collections

  type Pos = n: nat | n > 0 witness 1

  /** A non-negative similarity `s`, held exactly through its square:
    * `s * s == num / den`. Comparing squares of non-negative numbers orders them
    * like the numbers themselves. */
  datatype ExactSimilarity = ExactSimilarity(num: nat, den: Pos)

  /** One entry of `results`: the document's content and its similarity, together
    * with the id of the document it was computed for. */
  datatype Ranked = Ranked(docId: nat, content: string, similarity: ExactSimilarity)

  /** `a >= b`. */
  predicate AtLeast(a: ExactSimilarity, b: ExactSimilarity)
  {
    a.num * b.den >= b.num * a.den
  }

  /** `a == b` as numbers. */
  predicate Equivalent(a: ExactSimilarity, b: ExactSimilarity)
  {
    AtLeast(a, b) && AtLeast(b, a)
  }

  lemma MulMonotone(x: nat, y: nat, z: nat)
    requires x >= y
    ensures x * z >= y * z
  {
  }

  lemma MulCancel(x: nat, y: nat, z: nat)
    requires z > 0 && x * z >= y * z
    ensures x >= y
  {
    if x < y {
      MulMonotone(y, x + 1, z);
    }
  }

  lemma AtLeastTransitive(a: ExactSimilarity, b: ExactSimilarity, c: ExactSimilarity)
    requires AtLeast(a, b) && AtLeast(b, c)
    ensures AtLeast(a, c)
  {
    MulMonotone(a.num * b.den, b.num * a.den, c.den);
    MulMonotone(b.num * c.den, c.num * b.den, a.den);
    assert (a.num * b.den) * c.den == (a.num * c.den) * b.den;
    assert (b.num * a.den) * c.den == (b.num * c.den) * a.den;
    assert (c.num * b.den) * a.den == (c.num * a.den) * b.den;
    MulCancel(a.num * c.den, c.num * a.den, b.den);
  }

  /** Sorted in descending order of similarity. */
  predicate Sorted(s: seq<Ranked>)
  {
    forall i, j :: 0 <= i < j < |s| ==> AtLeast(s[i].similarity, s[j].similarity)
  }

  /** Inserts `x` after every leading entry whose similarity is at least that of `x`. */
  function Insert(x: Ranked, s: seq<Ranked>): seq<Ranked>
  {
    if s == [] then [x]
    else if AtLeast(s[0].similarity, x.similarity) then [s[0]] + Insert(x, s[1..])
    else [x] + s
  }

  /** The stable descending sort of `s` by similarity, as insertion sort. */
  function SortDesc(s: seq<Ranked>): seq<Ranked>
  {
    if s == [] then [] else Insert(s[|s| - 1], SortDesc(s[..|s| - 1]))
  }

  /** The entries of `s` whose similarity equals `k`, in their order in `s`. */
  function WithSimilarity(s: seq<Ranked>, k: ExactSimilarity): seq<Ranked>
  {
    if s == [] then []
    else (if Equivalent(s[0].similarity, k) then [s[0]] else []) + WithSimilarity(s[1..], k)
  }

  lemma {:induction false} InsertPermutation(x: Ranked, s: seq<Ranked>)
    ensures multiset(Insert(x, s)) == multiset(s) + multiset{x}
  {
    if s != [] && AtLeast(s[0].similarity, x.similarity) {
      InsertPermutation(x, s[1..]);
      assert s == [s[0]] + s[1..];
    }
  }

  /** Sorting only reorders: the result is a permutation of the input. */
  lemma {:induction false} SortDescPermutation(s: seq<Ranked>)
    ensures multiset(SortDesc(s)) == multiset(s)
  {
    if s != [] {
      var init, x := s[..|s| - 1], s[|s| - 1];
      SplitLast(s);
      assert multiset(s) == multiset(init) + multiset{x};
      SortDescPermutation(init);
      InsertPermutation(x, SortDesc(init));
    }
  }

  lemma {:induction false} InsertSorted(x: Ranked, s: seq<Ranked>)
    requires Sorted(s)
    ensures Sorted(Insert(x, s))
  {
    if s != [] {
      var r := Insert(x, s);
      if AtLeast(s[0].similarity, x.similarity) {
        InsertSorted(x, s[1..]);
        var tail := Insert(x, s[1..]);
        InsertPermutation(x, s[1..]);
        forall j | 0 <= j < |tail| ensures AtLeast(s[0].similarity, tail[j].similarity) {
          assert tail[j] in multiset(tail);
          assert tail[j] == x || tail[j] in s[1..];
        }
      } else {
        forall j | 0 <= j < |s| ensures AtLeast(x.similarity, s[j].similarity) {
          AtLeastTransitive(x.similarity, s[0].similarity, s[j].similarity);
        }
      }
    }
  }

  lemma {:induction false} SortDescSorted(s: seq<Ranked>)
    ensures Sorted(SortDesc(s))
  {
    if s != [] {
      SortDescSorted(s[..|s| - 1]);
      InsertSorted(s[|s| - 1], SortDesc(s[..|s| - 1]));
    }
  }

  /** In a sorted `s`, `Insert` puts `x` at the position `j` that a right-to-left
    * scan stops at: after the entries at least as similar as `x`. */
  lemma {:induction false} InsertAt(x: Ranked, s: seq<Ranked>, j: nat)
    requires Sorted(s) && j <= |s|
    requires forall m :: j <= m < |s| ==> !AtLeast(s[m].similarity, x.similarity)
    requires j > 0 ==> AtLeast(s[j - 1].similarity, x.similarity)
    ensures Insert(x, s) == s[..j] + [x] + s[j..]
  {
    if s == [] {
    } else if j == 0 {
      assert s[..0] == [] && s[0..] == s;
    } else {
      if j > 1 {
        AtLeastTransitive(s[0].similarity, s[j - 1].similarity, x.similarity);
      }
      InsertAt(x, s[1..], j - 1);
      assert s[1..][..j - 1] == s[1..j];
      assert s[1..][j - 1..] == s[j..];
      assert s[..j] == [s[0]] + s[1..j];
    }
  }

  lemma {:induction false} WithSimilarityAppend(s: seq<Ranked>, u: seq<Ranked>, k: ExactSimilarity)
    ensures WithSimilarity(s + u, k) == WithSimilarity(s, k) + WithSimilarity(u, k)
  {
    if s == [] {
      assert s + u == u;
    } else {
      assert (s + u)[0] == s[0] && (s + u)[1..] == s[1..] + u;
      WithSimilarityAppend(s[1..], u, k);
    }
  }

  lemma {:induction false} WithSimilarityNone(s: seq<Ranked>, k: ExactSimilarity)
    requires forall m :: 0 <= m < |s| ==> !Equivalent(s[m].similarity, k)
    ensures WithSimilarity(s, k) == []
  {
    if s != [] {
      WithSimilarityNone(s[1..], k);
    }
  }

  lemma {:induction false} InsertStable(x: Ranked, s: seq<Ranked>, k: ExactSimilarity)
    requires Sorted(s)
    ensures WithSimilarity(Insert(x, s), k)
         == WithSimilarity(s, k) + (if Equivalent(x.similarity, k) then [x] else [])
  {
    if s == [] {
    } else if AtLeast(s[0].similarity, x.similarity) {
      InsertStable(x, s[1..], k);
      WithSimilarityAppend([s[0]], Insert(x, s[1..]), k);
      WithSimilarityAppend([s[0]], s[1..], k);
      assert [s[0]] + s[1..] == s;
    } else {
      WithSimilarityAppend([x], s, k);
      if Equivalent(x.similarity, k) {
        forall m | 0 <= m < |s| ensures !Equivalent(s[m].similarity, k) {
          if Equivalent(s[m].similarity, k) {
            AtLeastTransitive(s[m].similarity, k, x.similarity);
            AtLeastTransitive(s[0].similarity, s[m].similarity, x.similarity);
          }
        }
        WithSimilarityNone(s, k);
      }
    }
  }

  /** Stability: the entries of any one similarity appear in the sorted sequence in
    * the order they had before sorting. */
  lemma {:induction false} SortDescStable(s: seq<Ranked>, k: ExactSimilarity)
    ensures WithSimilarity(SortDesc(s), k) == WithSimilarity(s, k)
  {
    if s != [] {
      var init, x := s[..|s| - 1], s[|s| - 1];
      SortDescStable(init, k);
      SortDescSorted(init);
      InsertStable(x, SortDesc(init), k);
      WithSimilarityAppend(init, [x], k);
      SplitLast(s);
    }
  }

  /** One step of insertion sort: with `a[..i]` sorted, moves `a[i]` left past the
    * entries less similar than it. */
  method InsertNext(a: array<Ranked>, i: nat)
    requires i < a.Length && Sorted(a[..i])
    modifies a
    ensures a[..i + 1] == Insert(old(a[i]), old(a[..i]))
    ensures forall m :: i < m < a.Length ==> a[m] == old(a[m])
  {
    var x := a[i];
    ghost var sorted := a[..i];
    var j := i;
    while j > 0 && !AtLeast(a[j - 1].similarity, x.similarity)
      invariant 0 <= j <= i
      invariant forall m :: 0 <= m < j ==> a[m] == sorted[m]
      invariant forall m :: j < m <= i ==> a[m] == sorted[m - 1]
      invariant forall m :: i < m < a.Length ==> a[m] == old(a[m])
      invariant forall m :: j <= m < i ==> !AtLeast(sorted[m].similarity, x.similarity)
    {
      a[j] := a[j - 1];
      j := j - 1;
    }
    a[j] := x;
    PlacedIsInsert(a[..i + 1], sorted, x, j);
  }

  /** The entries of `sorted` with `x` placed at `j`, where the right-to-left scan
    * of `InsertNext` stops, are `Insert(x, sorted)`. */
  lemma PlacedIsInsert(placed: seq<Ranked>, sorted: seq<Ranked>, x: Ranked, j: nat)
    requires Sorted(sorted) && j <= |sorted| && |placed| == |sorted| + 1
    requires forall m :: 0 <= m < j ==> placed[m] == sorted[m]
    requires placed[j] == x
    requires forall m :: j < m < |placed| ==> placed[m] == sorted[m - 1]
    requires forall m :: j <= m < |sorted| ==> !AtLeast(sorted[m].similarity, x.similarity)
    requires j > 0 ==> AtLeast(sorted[j - 1].similarity, x.similarity)
    ensures placed == Insert(x, sorted)
  {
    InsertAt(x, sorted, j);
    var expected := sorted[..j] + [x] + sorted[j..];
    forall m | 0 <= m < |placed| ensures placed[m] == expected[m] {
      if m < j {
        assert expected[m] == sorted[m];
      } else if m > j {
        assert expected[m] == sorted[m - 1];
      }
    }
    assert placed == expected;
  }

  /** `results.sort(key=lambda x: x[1], reverse=True)`, in place, as insertion sort. */
  method SortBySimilarity(a: array<Ranked>)
    modifies a
    ensures a[..] == SortDesc(old(a[..]))
  {
    ghost var input := a[..];
    var i := 0;
    while i < a.Length
      invariant 0 <= i <= a.Length
      invariant a[..i] == SortDesc(input[..i])
      invariant forall m :: i <= m < a.Length ==> a[m] == input[m]
    {
      SortDescSorted(input[..i]);
      InsertNext(a, i);
      assert input[..i + 1] == input[..i] + [input[i]];
      i := i + 1;
    }
    assert input[..a.Length] == input;
  }
}
