/**
 The two list operations the card layer is built from: `list.pop(i)`, which
 removes the element at index `i`, and `itertools.product`, which pairs every
 element of one sequence with every element of another, the first varying
 slowest; and facts about sequences without repeated elements.
 */
module Sequences {

  /** No element occurs at two positions. */
  ghost predicate Distinct<T>(s: seq<T>) {
    forall i, j :: 0 <= i < j < |s| ==> s[i] != s[j]
  }

  /** The list left behind by `s.pop(i)`. */
  function RemoveAt<T>(s: seq<T>, i: nat): (r: seq<T>)
    requires i < |s|
    ensures |r| == |s| - 1
    ensures forall k :: 0 <= k < i ==> r[k] == s[k]
    ensures forall k :: i <= k < |r| ==> r[k] == s[k + 1]
  {
    s[..i] + s[i + 1..]
  }

  /** Popping loses exactly the popped element. */
  lemma RemoveAtMultiset<T>(s: seq<T>, i: nat)
    requires i < |s|
    ensures multiset(RemoveAt(s, i)) + multiset{s[i]} == multiset(s)
  {
    assert s == s[..i] + [s[i]] + s[i + 1..];
  }

  lemma RemoveAtDistinct<T>(s: seq<T>, i: nat)
    requires i < |s| && Distinct(s)
    ensures Distinct(RemoveAt(s, i))
    ensures s[i] !in RemoveAt(s, i)
  {
    var r := RemoveAt(s, i);
    forall a, b | 0 <= a < b < |r| ensures r[a] != r[b] {
      var a' := if a < i then a else a + 1;
      var b' := if b < i then b else b + 1;
      assert r[a] == s[a'] && r[b] == s[b'];
    }
    forall k | 0 <= k < |r| ensures r[k] != s[i] {
      assert r[k] == s[if k < i then k else k + 1];
    }
  }

  /** `product([x], ys)`: `x` paired with each element of `ys` in order. */
  function Pairs<A, B>(x: A, ys: seq<B>): (r: seq<(A, B)>)
    ensures |r| == |ys|
    ensures forall j :: 0 <= j < |ys| ==> r[j] == (x, ys[j])
  {
    if ys == [] then [] else [(x, ys[0])] + Pairs(x, ys[1..])
  }

  /** `product(xs, ys)`: all pairs, ordered by `xs` first and `ys` second. */
  function Product<A, B>(xs: seq<A>, ys: seq<B>): (r: seq<(A, B)>)
    ensures |r| == |xs| * |ys|
  {
    if xs == [] then []
    else
      assert |xs| * |ys| == |ys| + (|xs| - 1) * |ys|;
      Pairs(xs[0], ys) + Product(xs[1..], ys)
  }

  /** The pair `(xs[q], ys[j])` sits at index `k == q * |ys| + j` of the product. */
  lemma {:induction false} ProductAt<A, B>(xs: seq<A>, ys: seq<B>, q: nat, j: nat, k: nat)
    requires q < |xs| && j < |ys| && k == q * |ys| + j
    ensures k < |Product(xs, ys)|
    ensures Product(xs, ys)[k] == (xs[q], ys[j])
  {
    var n := |ys|;
    var head, tail := Pairs(xs[0], ys), Product(xs[1..], ys);
    assert Product(xs, ys) == head + tail;
    IndexBound(q, j, |xs|, n);
    if q == 0 {
      assert k == j;
      assert (head + tail)[j] == head[j];
    } else {
      IndexShift(q, j, n);
      ProductAt(xs[1..], ys, q - 1, j, k - n);
      assert (head + tail)[k] == tail[k - n];
    }
  }

  /** An index `q * n + j` with `j < n` stays inside `m * n` when `q < m`. */
  lemma IndexBound(q: nat, j: nat, m: nat, n: nat)
    requires q < m && j < n
    ensures q * n + j < m * n
  {
    assert (q + 1) * n <= m * n;
  }

  /** Row and column of the index `q * 13 + j` in a product with rows of 13. */
  lemma DivModThirteen(q: nat, j: nat)
    requires j < 13
    ensures (q * 13 + j) / 13 == q && (q * 13 + j) % 13 == j
  {
  }

  /** Stepping one row down the product moves an index by one row length. */
  lemma IndexShift(q: nat, j: nat, n: nat)
    requires q > 0
    ensures q * n + j == n + ((q - 1) * n + j)
  {
  }

  /** In a sequence without repeats every element occurs at most once. */
  lemma {:induction false} DistinctMultiplicity<T>(s: seq<T>, x: T)
    requires Distinct(s)
    ensures multiset(s)[x] <= 1
    decreases |s|
  {
    if s != [] {
      assert s == [s[0]] + s[1..];
      assert Distinct(s[1..]) by {
        assert forall k :: 0 <= k < |s| - 1 ==> s[1..][k] == s[k + 1];
      }
      DistinctMultiplicity(s[1..], x);
      if x == s[0] {
        assert x !in s[1..] by {
          assert forall k :: 0 <= k < |s| - 1 ==> s[1..][k] == s[k + 1];
        }
      }
    }
  }

  /** An element found at two positions occurs at least twice. */
  lemma RepeatMultiplicity<T>(s: seq<T>, i: nat, j: nat)
    requires i < j < |s| && s[i] == s[j]
    ensures multiset(s)[s[i]] >= 2
  {
    assert s == s[..j] + [s[j]] + s[j + 1..];
    assert s[..j][i] == s[i];
    assert multiset(s[..j])[s[i]] >= 1;
  }

  /** Being free of repeats depends only on the multiset of elements. */
  lemma DistinctPermutation<T>(s: seq<T>, t: seq<T>)
    requires Distinct(t) && multiset(s) == multiset(t)
    ensures Distinct(s)
  {
    forall i, j | 0 <= i < j < |s| ensures s[i] != s[j] {
      if s[i] == s[j] {
        RepeatMultiplicity(s, i, j);
        DistinctMultiplicity(t, s[i]);
      }
    }
  }
}
