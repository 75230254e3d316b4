/** Facts about sequences and their multisets shared by the sorted and the summed parts. */
module Sequences {

  function Map<A, B>(f: A -> B, s: seq<A>): (t: seq<B>)
    ensures |t| == |s| && forall i :: 0 <= i < |s| ==> t[i] == f(s[i])
  {
    seq(|s|, i requires 0 <= i < |s| => f(s[i]))
  }

  function RemoveAt<A>(s: seq<A>, k: nat): (t: seq<A>)
    requires k < |s|
  {
    s[..k] + s[k + 1..]
  }

  lemma RemoveAtMultiset<A>(s: seq<A>, k: nat)
    requires k < |s|
    ensures multiset(s) == multiset(RemoveAt(s, k)) + multiset{s[k]}
    ensures multiset(RemoveAt(s, k)) == multiset(s) - multiset{s[k]}
  {
    assert s == s[..k] + [s[k]] + s[k + 1..];
  }

  lemma MapRemoveAt<A, B>(f: A -> B, s: seq<A>, k: nat)
    requires k < |s|
    ensures multiset(Map(f, s)) == multiset(Map(f, RemoveAt(s, k))) + multiset{f(s[k])}
  {
    assert Map(f, RemoveAt(s, k)) == RemoveAt(Map(f, s), k);
    RemoveAtMultiset(Map(f, s), k);
  }

  lemma Occurs<A>(s: seq<A>, x: A) returns (k: nat)
    requires x in multiset(s)
    ensures k < |s| && s[k] == x
  {
    k :| k < |s| && s[k] == x;
  }

  /** Mapping a permutation permutes the images. */
  lemma {:induction false} MapPermutation<A, B>(f: A -> B, s: seq<A>, t: seq<A>)
    requires multiset(s) == multiset(t)
    ensures multiset(Map(f, s)) == multiset(Map(f, t))
  {
    if |s| == 0 {
      assert |multiset(t)| == 0;
      assert Map(f, s) == [] && Map(f, t) == [];
    } else {
      assert s[0] in multiset(s);
      var k := Occurs(t, s[0]);
      RemoveAtMultiset(s, 0);
      RemoveAtMultiset(t, k);
      MapPermutation(f, RemoveAt(s, 0), RemoveAt(t, k));
      MapRemoveAt(f, s, 0);
      MapRemoveAt(f, t, k);
    }
  }

  lemma TwiceCounts<A>(s: seq<A>, i: nat, j: nat)
    requires i < j < |s| && s[i] == s[j]
    ensures multiset(s)[s[i]] >= 2
  {
    assert s == s[..i] + [s[i]] + s[i + 1..j] + [s[j]] + s[j + 1..];
  }

  lemma {:induction false} DistinctCounts<A>(s: seq<A>, x: A)
    requires forall i, j :: 0 <= i < j < |s| ==> s[i] != s[j]
    ensures multiset(s)[x] <= 1
  {
    if |s| > 0 {
      assert s == [s[0]] + s[1..];
      DistinctCounts(s[1..], x);
      if x == s[0] {
        assert x !in s[1..];
      }
    }
  }

  /** A permutation of distinct items is distinct. */
  lemma DistinctPermutation<A>(s: seq<A>, t: seq<A>)
    requires multiset(s) == multiset(t)
    requires forall i, j :: 0 <= i < j < |t| ==> t[i] != t[j]
    ensures forall i, j :: 0 <= i < j < |s| ==> s[i] != s[j]
  {
    forall i, j | 0 <= i < j < |s| ensures s[i] != s[j] {
      if s[i] == s[j] {
        TwiceCounts(s, i, j);
        DistinctCounts(t, s[i]);
      }
    }
  }

  // ---------------------------------------------------------------- sums

  function Sum(s: seq<real>): real {
    if |s| == 0 then 0.0 else Sum(s[..|s| - 1]) + s[|s| - 1]
  }

  lemma SumAppend(s: seq<real>, x: real)
    ensures Sum(s + [x]) == Sum(s) + x
  {
    assert (s + [x])[..|s|] == s;
  }

  lemma {:induction false} SumConcat(s: seq<real>, t: seq<real>)
    ensures Sum(s + t) == Sum(s) + Sum(t)
  {
    if |t| == 0 {
      assert s + t == s;
    } else {
      assert (s + t)[..|s + t| - 1] == s + t[..|t| - 1];
      SumConcat(s, t[..|t| - 1]);
    }
  }

  lemma {:induction false} SumAround(a: seq<real>, x: real, b: seq<real>)
    ensures Sum((a + [x]) + b) == Sum(a + b) + x
  {
    SumConcat(a + [x], b);
    SumAppend(a, x);
    SumConcat(a, b);
  }

  lemma CutAt<A>(s: seq<A>, k: nat)
    requires k < |s|
    ensures (s[..k] + [s[k]]) + s[k + 1..] == s
  {
  }

  lemma {:induction false} SumRemoveAt(s: seq<real>, k: nat)
    requires k < |s|
    ensures Sum(s) == Sum(RemoveAt(s, k)) + s[k]
  {
    SumAround(s[..k], s[k], s[k + 1..]);
    CutAt(s, k);
  }

  /** A sum does not depend on the order of its terms. */
  lemma {:induction false} SumPermutation(s: seq<real>, t: seq<real>)
    requires multiset(s) == multiset(t)
    ensures Sum(s) == Sum(t)
  {
    if |s| == 0 {
      assert |multiset(t)| == 0;
    } else {
      assert s[0] in multiset(s);
      var k := Occurs(t, s[0]);
      RemoveAtMultiset(s, 0);
      RemoveAtMultiset(t, k);
      SumPermutation(RemoveAt(s, 0), RemoveAt(t, k));
      SumRemoveAt(s, 0);
      SumRemoveAt(t, k);
    }
  }

  /** The sum of f over a finite set. */
  ghost function SumOver<A(!new)>(f: A -> real, d: set<A>): real {
    if d == {} then 0.0 else var x :| x in d; f(x) + SumOver(f, d - {x})
  }

  /** Any element may be taken out first. */
  lemma {:induction false} SumOverTakes<A(!new)>(f: A -> real, d: set<A>, x: A)
    requires x in d
    ensures SumOver(f, d) == f(x) + SumOver(f, d - {x})
  {
    var y :| y in d && SumOver(f, d) == f(y) + SumOver(f, d - {y});
    if y != x {
      SumOverTakes(f, d - {y}, x);
      SumOverTakes(f, d - {x}, y);
      assert d - {y} - {x} == d - {x} - {y};
    }
  }

  lemma {:induction false} SumOverEqual<A(!new)>(f: A -> real, g: A -> real, d: set<A>)
    requires forall x :: x in d ==> f(x) == g(x)
    ensures SumOver(f, d) == SumOver(g, d)
  {
    if d != {} {
      var x :| x in d;
      SumOverTakes(f, d, x);
      SumOverTakes(g, d, x);
      SumOverEqual(f, g, d - {x});
    }
  }

  /** Adding to f at one place of the set adds to the sum. */
  lemma SumOverBump<A(!new)>(f: A -> real, g: A -> real, d: set<A>, x: A, v: real)
    requires x in d && g(x) == f(x) + v && forall y :: y in d && y != x ==> g(y) == f(y)
    ensures SumOver(g, d) == SumOver(f, d) + v
  {
    SumOverTakes(f, d, x);
    SumOverTakes(g, d, x);
    SumOverEqual(f, g, d - {x});
  }

  lemma {:induction false} SumOverZero<A(!new)>(f: A -> real, d: set<A>)
    requires forall x :: x in d ==> f(x) == 0.0
    ensures SumOver(f, d) == 0.0
  {
    if d != {} {
      var x :| x in d;
      SumOverTakes(f, d, x);
      SumOverZero(f, d - {x});
    }
  }

  // ---------------------------------------------------------------- sorting

  /** A comparison a sort may be given: asymmetric, and "not after" is transitive. */
  ghost predicate WeakOrder<A(!new)>(less: (A, A) -> bool) {
    && (forall a, b :: less(a, b) ==> !less(b, a))
    && (forall a, b, c :: !less(b, a) && !less(c, b) ==> !less(c, a))
  }

  /** No later item comes before an earlier one. */
  ghost predicate Sorted<A>(less: (A, A) -> bool, s: seq<A>) {
    forall i, j :: 0 <= i < j < |s| ==> !less(s[j], s[i])
  }

  /** Sorted but for the item at j, which is still sinking toward the front. */
  ghost predicate SortedButAt<A>(less: (A, A) -> bool, s: seq<A>, j: nat) {
    && (forall i, k :: 0 <= i < k < |s| && i != j && k != j ==> !less(s[k], s[i]))
    && (forall k :: j < k < |s| ==> !less(s[k], s[j]))
  }

  /** One swap toward the front keeps everything else in order. */
  lemma SinkOne<A(!new)>(less: (A, A) -> bool, s: seq<A>, j: nat)
    requires WeakOrder(less) && 0 < j < |s| && SortedButAt(less, s, j) && less(s[j], s[j - 1])
    ensures SortedButAt(less, s[j := s[j - 1]][j - 1 := s[j]], j - 1)
  {
  }

  lemma SunkIsSorted<A(!new)>(less: (A, A) -> bool, s: seq<A>, j: nat)
    requires WeakOrder(less) && j < |s| && SortedButAt(less, s, j)
    requires j > 0 ==> !less(s[j], s[j - 1])
    ensures Sorted(less, s)
  {
    forall i | 0 <= i < j ensures !less(s[j], s[i]) {
      if i < j - 1 {
        assert !less(s[j - 1], s[i]);
      }
    }
  }

  /** The library sort, as an insertion sort: a sorted permutation, in place. */
  method Sort<A(!new)>(a: array<A>, less: (A, A) -> bool)
    requires WeakOrder(less)
    modifies a
    ensures Sorted(less, a[..])
    ensures multiset(a[..]) == multiset(old(a[..]))
  {
    var n := 0;
    while n < a.Length
      invariant 0 <= n <= a.Length
      invariant Sorted(less, a[..n])
      invariant multiset(a[..]) == multiset(old(a[..]))
    {
      Sink(a, less, n);
      n := n + 1;
    }
    assert a[..n] == a[..];
  }

  method Sink<A(!new)>(a: array<A>, less: (A, A) -> bool, n: nat)
    requires n < a.Length && WeakOrder(less) && Sorted(less, a[..n])
    modifies a
    ensures Sorted(less, a[..n + 1])
    ensures multiset(a[..]) == multiset(old(a[..]))
  {
    var j := n;
    while j > 0 && less(a[j], a[j - 1])
      invariant 0 <= j <= n
      invariant SortedButAt(less, a[..n + 1], j)
      invariant multiset(a[..]) == multiset(old(a[..]))
    {
      SinkOne(less, a[..n + 1], j);
      ghost var before := a[..n + 1];
      a[j], a[j - 1] := a[j - 1], a[j];
      assert a[..n + 1] == before[j := before[j - 1]][j - 1 := before[j]];
      j := j - 1;
    }
    SunkIsSorted(less, a[..n + 1], j);
  }
}
