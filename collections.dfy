/** Sequence helpers shared by the tokenizer, the index builder and the scorer:
  * occurrence counts (Python's `Counter`) and the distinct elements of a
  * sequence in order of first occurrence (the iteration order of a `Counter`). */
module Collections {

  datatype Option<T> = None | Some(value: T)

  /** The number of occurrences of `x` in `s`; positive exactly when `x` occurs. */
  function Count<T(==)>(s: seq<T>, x: T): (n: nat)
    ensures n <= |s|
    ensures n > 0 <==> x in s
  {
    if s == [] then 0
    else
      assert x in s <==> s[0] == x || x in s[1..] by { assert s == [s[0]] + s[1..]; }
      (if s[0] == x then 1 else 0) + Count(s[1..], x)
  }

  lemma {:induction false} CountAppend<T>(s: seq<T>, u: seq<T>, x: T)
    ensures Count(s + u, x) == Count(s, x) + Count(u, x)
  {
    if s != [] {
      assert (s + u)[0] == s[0] && (s + u)[1..] == s[1..] + u;
      CountAppend(s[1..], u, x);
    } else {
      assert s + u == u;
    }
  }

  /** Appending one element after a concatenation. */
  lemma SnocAssociative<T>(a: seq<T>, b: seq<T>, x: T)
    ensures (a + b) + [x] == a + (b + [x])
  {
  }

  /** A non-empty sequence is its prefix followed by its last element. */
  lemma SplitLast<T>(s: seq<T>)
    requires s != []
    ensures s == s[..|s| - 1] + [s[|s| - 1]]
  {
  }

  predicate NoDuplicates<T(==)>(s: seq<T>)
  {
    forall i, j :: 0 <= i < j < |s| ==> s[i] != s[j]
  }

  /** The distinct elements of `s`, each at the position of its first occurrence. */
  function Distinct<T(==,!new)>(s: seq<T>): (r: seq<T>)
    ensures forall x :: x in r <==> x in s
    ensures NoDuplicates(r)
    ensures |r| <= |s|
  {
    if s == [] then []
    else
      var r := Distinct(s[..|s| - 1]);
      assert forall x :: x in s <==> x in s[..|s| - 1] || x == s[|s| - 1] by {
        assert s == s[..|s| - 1] + [s[|s| - 1]];
      }
      if s[|s| - 1] in r then r else r + [s[|s| - 1]]
  }

  /** The distinct elements of a prefix of `s` are a prefix of those of `s`: each
    * element comes before every element that first occurs after it. */
  lemma {:induction false} DistinctPrefix<T(!new)>(s: seq<T>, k: nat)
    requires k <= |s|
    ensures Distinct(s[..k]) <= Distinct(s)
  {
    if k < |s| {
      var init := s[..|s| - 1];
      assert init[..k] == s[..k];
      DistinctPrefix(init, k);
    } else {
      assert s[..k] == s;
    }
  }

  /** `Counter(s)`: each element of `s` mapped to its number of occurrences. */
  function Counter<T(==,!new)>(s: seq<T>): (m: map<T, nat>)
    ensures forall x :: x in m <==> x in s
    ensures forall x :: x in m ==> m[x] == Count(s, x) && m[x] >= 1
  {
    map x | x in s :: Count(s, x)
  }

  /** In a sequence without duplicates every element occurs at most once. */
  lemma {:induction false} NoDuplicatesCount<T>(s: seq<T>, x: T)
    requires NoDuplicates(s)
    ensures multiset(s)[x] <= 1
  {
    if s != [] {
      NoDuplicatesCount(s[1..], x);
      assert s == [s[0]] + s[1..];
      if s[0] == x {
        assert x !in s[1..];
      }
    }
  }

  lemma RepeatedCount<T>(s: seq<T>, i: nat, j: nat)
    requires i < j < |s| && s[i] == s[j]
    ensures multiset(s)[s[i]] >= 2
  {
    assert s == s[..j] + [s[j]] + s[j + 1..];
    assert s[i] in s[..j];
  }
}
