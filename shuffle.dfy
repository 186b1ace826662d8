/**
 The deck-level shuffle as a function of the random indices it draws.

 The shuffle repeatedly removes the element at a randomly chosen index of the
 remaining pool and appends it to an output list until the pool is empty. The
 k-th chosen index (counting from 0) lies in `[0, n - k)` for a pool that
 started with `n` elements. `Steps` gives the pool and the output after a
 prefix of those choices; `ShuffleBy` is the output once all `n` are made.
 */
module Shuffle {
  import opened Sequences

  /** Each pick is a valid index into the pool as it is when the pick is made. */
  ghost predicate PicksFit(picks: seq<nat>, n: nat) {
    |picks| <= n && forall k :: 0 <= k < |picks| ==> picks[k] < n - k
  }

  /** A complete run of picks: one per element of the original pool. */
  ghost predicate ValidPicks(picks: seq<nat>, n: nat) {
    PicksFit(picks, n) && |picks| == n
  }

  /** (pool, output) after the given picks. */
  function Steps<T>(orig: seq<T>, picks: seq<nat>): (st: (seq<T>, seq<T>))
    requires PicksFit(picks, |orig|)
    ensures |st.0| == |orig| - |picks| && |st.1| == |picks|
    decreases |picks|
  {
    if picks == [] then (orig, [])
    else
      var last := picks[|picks| - 1];
      var prev := Steps(orig, picks[..|picks| - 1]);
      (RemoveAt(prev.0, last), prev.1 + [prev.0[last]])
  }

  /** The order the shuffle produces for the given picks. */
  function ShuffleBy<T>(orig: seq<T>, picks: seq<nat>): (r: seq<T>)
    requires ValidPicks(picks, |orig|)
    ensures |r| == |orig|
    ensures multiset(r) == multiset(orig)
  {
    StepsMultiset(orig, picks);
    Steps(orig, picks).1
  }

  /** At every stage the pool and the output together hold exactly the
      original elements: nothing is lost or duplicated. */
  lemma {:induction false} StepsMultiset<T>(orig: seq<T>, picks: seq<nat>)
    requires PicksFit(picks, |orig|)
    ensures multiset(Steps(orig, picks).0) + multiset(Steps(orig, picks).1) == multiset(orig)
    decreases |picks|
  {
    if picks != [] {
      var init := picks[..|picks| - 1];
      var last := picks[|picks| - 1];
      assert PicksFit(init, |orig|) by {
        assert forall k :: 0 <= k < |init| ==> init[k] == picks[k];
      }
      StepsMultiset(orig, init);
      var prev := Steps(orig, init);
      RemoveAtMultiset(prev.0, last);
      assert multiset(prev.1 + [prev.0[last]]) == multiset(prev.1) + multiset{prev.0[last]};
    }
  }

  /** `r` is an order the shuffle can produce from `orig`. */
  ghost predicate IsShuffleOutcome<T>(orig: seq<T>, r: seq<T>) {
    exists picks :: ValidPicks(picks, |orig|) && ShuffleBy(orig, picks) == r
  }

  /** Making pick `i` first moves `orig[i]` to the front of the output and
      leaves the rest of the run to work on `orig` without it. */
  lemma {:induction false} StepsFront<T>(orig: seq<T>, i: nat, rest: seq<nat>)
    requires i < |orig| && PicksFit(rest, |orig| - 1)
    ensures PicksFit([i] + rest, |orig|)
    ensures Steps(orig, [i] + rest)
         == (Steps(RemoveAt(orig, i), rest).0, [orig[i]] + Steps(RemoveAt(orig, i), rest).1)
    decreases |rest|
  {
    var picks := [i] + rest;
    var rem := RemoveAt(orig, i);
    assert forall k :: 1 <= k < |picks| ==> picks[k] == rest[k - 1];
    if rest == [] {
      assert picks[..0] == [];
      assert Steps(orig, picks[..0]) == (orig, []);
      assert Steps(rem, rest) == (rem, []);
      assert [] + [orig[i]] == [orig[i]] + [];
    } else {
      var init := rest[..|rest| - 1];
      var last := rest[|rest| - 1];
      assert PicksFit(init, |orig| - 1) by {
        assert forall k :: 0 <= k < |init| ==> init[k] == rest[k];
      }
      StepsFront(orig, i, init);
      var q := Steps(rem, init);
      DropLastOfCons(i, rest);
      assert picks[|picks| - 1] == last;
      assert Steps(orig, picks)
          == (RemoveAt(q.0, last), ([orig[i]] + q.1) + [q.0[last]]);
      assert Steps(rem, rest) == (RemoveAt(q.0, last), q.1 + [q.0[last]]);
      assert ([orig[i]] + q.1) + [q.0[last]] == [orig[i]] + (q.1 + [q.0[last]]);
    }
  }

  lemma DropLastOfCons(x: nat, s: seq<nat>)
    requires s != []
    ensures ([x] + s)[..|s|] == [x] + s[..|s| - 1]
  {
  }

  lemma ShuffleByFront<T>(orig: seq<T>, picks: seq<nat>)
    requires |orig| > 0 && ValidPicks(picks, |orig|)
    ensures ValidPicks(picks[1..], |orig| - 1)
    ensures ShuffleBy(orig, picks)
         == [orig[picks[0]]] + ShuffleBy(RemoveAt(orig, picks[0]), picks[1..])
  {
    assert forall k :: 0 <= k < |picks| - 1 ==> picks[1..][k] == picks[k + 1];
    assert picks == [picks[0]] + picks[1..];
    StepsFront(orig, picks[0], picks[1..]);
  }

  /** Every order the shuffle yields is a permutation of its input, and every
      permutation of the input is yielded by some run of picks. */
  lemma ShuffleOutcomeIffPermutation<T>(orig: seq<T>, r: seq<T>)
    ensures IsShuffleOutcome(orig, r) <==> multiset(r) == multiset(orig)
  {
    if multiset(r) == multiset(orig) {
      EveryPermutationReachable(orig, r);
    }
  }

  lemma EveryPermutationReachable<T>(orig: seq<T>, target: seq<T>)
    requires multiset(target) == multiset(orig)
    ensures IsShuffleOutcome(orig, target)
  {
    var picks := PicksReaching(orig, target);
  }

  /** The picks that draw `target` from `orig`: each step picks an element
      equal to the next one wanted. */
  lemma {:induction false} PicksReaching<T>(orig: seq<T>, target: seq<T>) returns (picks: seq<nat>)
    requires multiset(target) == multiset(orig)
    ensures ValidPicks(picks, |orig|) && ShuffleBy(orig, picks) == target
    decreases |orig|
  {
    assert |target| == |orig| by {
      assert |multiset(target)| == |multiset(orig)|;
    }
    if orig == [] {
      picks := [];
      assert ShuffleBy(orig, picks) == [] == target;
    } else {
      assert target[0] in multiset(orig);
      var i :| 0 <= i < |orig| && orig[i] == target[0];
      RemoveMatchingHead(orig, target, i);
      var rest := PicksReaching(RemoveAt(orig, i), target[1..]);
      ShuffleByCons(orig, i, rest);
      picks := [i] + rest;
      assert target == [target[0]] + target[1..];
    }
  }

  /** Prepending a pick draws that element first. */
  lemma ShuffleByCons<T>(orig: seq<T>, i: nat, rest: seq<nat>)
    requires i < |orig| && ValidPicks(rest, |orig| - 1)
    ensures ValidPicks([i] + rest, |orig|)
    ensures ShuffleBy(orig, [i] + rest) == [orig[i]] + ShuffleBy(RemoveAt(orig, i), rest)
  {
    StepsFront(orig, i, rest);
  }

  lemma RemoveMatchingHead<T>(orig: seq<T>, target: seq<T>, i: nat)
    requires multiset(target) == multiset(orig)
    requires i < |orig| && |target| > 0 && orig[i] == target[0]
    ensures multiset(target[1..]) == multiset(RemoveAt(orig, i))
  {
    RemoveAtMultiset(orig, i);
    assert target == [target[0]] + target[1..];
    assert multiset(target) == multiset{target[0]} + multiset(target[1..]);
    assert multiset(target[1..]) == multiset(target) - multiset{target[0]};
  }

  /** On a pool without repeats, different runs of picks give different
      orders: the runs and the permutations are in one-to-one correspondence. */
  lemma {:induction false} ShuffleByInjective<T>(orig: seq<T>, p1: seq<nat>, p2: seq<nat>)
    requires Distinct(orig)
    requires ValidPicks(p1, |orig|) && ValidPicks(p2, |orig|)
    requires ShuffleBy(orig, p1) == ShuffleBy(orig, p2)
    ensures p1 == p2
    decreases |orig|
  {
    if orig != [] {
      var rem := FirstPickAgrees(orig, p1, p2);
      RemoveAtDistinct(orig, p1[0]);
      ShuffleByInjective(rem, p1[1..], p2[1..]);
      assert p1 == [p1[0]] + p1[1..] && p2 == [p2[0]] + p2[1..];
    }
  }

  /** Two runs with the same outcome over distinct elements drew the same
      first index, and their remaining picks shuffle what is left alike. */
  lemma FirstPickAgrees<T>(orig: seq<T>, p1: seq<nat>, p2: seq<nat>) returns (rem: seq<T>)
    requires |orig| > 0 && Distinct(orig)
    requires ValidPicks(p1, |orig|) && ValidPicks(p2, |orig|)
    requires ShuffleBy(orig, p1) == ShuffleBy(orig, p2)
    ensures p1[0] == p2[0] && rem == RemoveAt(orig, p1[0])
    ensures ValidPicks(p1[1..], |rem|) && ValidPicks(p2[1..], |rem|)
    ensures ShuffleBy(rem, p1[1..]) == ShuffleBy(rem, p2[1..])
  {
    ShuffleByFront(orig, p1);
    ShuffleByFront(orig, p2);
    var r := ShuffleBy(orig, p1);
    assert orig[p1[0]] == r[0] == orig[p2[0]];
    rem := RemoveAt(orig, p1[0]);
    assert ShuffleBy(rem, p1[1..]) == r[1..];
  }
}
