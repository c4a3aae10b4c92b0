/**
 * Arm selection: the greedy argmax with its first-index tie-break, the epsilon-greedy
 * pull, and the UCB pull with its forced-exploration phase. Random draws are inputs;
 * the logarithm and square root of the UCB bonus are passed in as functions.
 */
module Selection {
  import opened Wrappers

  /** `k` is the first index at which `s` reaches its maximum. */
  predicate IsFirstMax(s: seq<real>, k: nat)
  {
    k < |s| &&
    (forall j :: 0 <= j < |s| ==> s[j] <= s[k]) &&
    (forall j :: 0 <= j < k ==> s[j] < s[k])
  }

  /** The index numpy's argmax returns: the first position of the largest value. */
  function ArgMax(s: seq<real>): (k: nat)
    requires |s| > 0
    ensures IsFirstMax(s, k)
  {
    if |s| == 1 then 0
    else
      var k := ArgMax(s[..|s| - 1]);
      if s[k] < s[|s| - 1] then |s| - 1 else k
  }

  /** Only one index can be the first maximum, so the tie-break is deterministic. */
  lemma FirstMaxUnique(s: seq<real>, k1: nat, k2: nat)
    requires IsFirstMax(s, k1) && IsFirstMax(s, k2)
    ensures k1 == k2
  {
    assert s[k1] <= s[k2] && s[k2] <= s[k1];
  }

  /**
   * The epsilon-greedy rule: when the uniform draw `u` exceeds epsilon the arm with the
   * best average reward, otherwise the uniformly drawn arm `pick` (which may happen to be
   * the greedy arm as well).
   */
  function EpsilonGreedyPull(averages: seq<real>, epsilon: real, u: real, pick: nat): (arm: nat)
    requires |averages| > 0 && pick < |averages|
    ensures arm < |averages|
    ensures u > epsilon ==> IsFirstMax(averages, arm)
    ensures u <= epsilon ==> arm == pick
  {
    if u > epsilon then ArgMax(averages) else pick
  }

  /**
   * The arms pulled at most `explore` times, in increasing order: numpy's
   * `where(N <= explore)`.
   */
  function UnderPulled(counts: seq<nat>, explore: nat): (r: seq<nat>)
    ensures forall i: nat :: i in r <==> i < |counts| && counts[i] <= explore
    ensures forall a, b :: 0 <= a < b < |r| ==> r[a] < r[b]
    ensures r == [] <==> forall i :: 0 <= i < |counts| ==> counts[i] > explore
  {
    if counts == [] then []
    else
      var k := |counts| - 1;
      var front := UnderPulled(counts[..k], explore);
      assert forall a :: 0 <= a < |front| ==> front[a] < k by {
        forall a | 0 <= a < |front| ensures front[a] < k {
          assert front[a] in front;
        }
      }
      var tail := if counts[k] <= explore then [k] else [];
      assert forall i: nat :: i in front + tail <==> i < |counts| && counts[i] <= explore by {
        forall i: nat ensures i in front + tail <==> i < |counts| && counts[i] <= explore {
          assert i in front + tail <==> i in front || i in tail;
          if i < k {
            assert counts[..k][i] == counts[i];
          }
        }
      }
      front + tail
  }

  /**
   * The value whose logarithm the UCB bonus uses: 1/delta for UCB(delta) and the number of
   * learning steps for UCB1. A delta of None or 0 counts as absent, as Python's truth test does.
   */
  function ExplorationTarget(delta: Option<real>, nIter: nat): (x: real)
    ensures delta.Some? && delta.value > 0.0 ==> x * delta.value == 1.0
    ensures delta.None? ==> x == nIter as real
  {
    if delta.Some? && delta.value != 0.0 then 1.0 / delta.value else nIter as real
  }

  /**
   * The upper confidence bound of each arm: its average reward plus
   * sqrt(2 * ln(x) / count). Every count is positive, so the division is defined.
   */
  function UpperBounds(averages: seq<real>, counts: seq<nat>, x: real,
                       ln: real -> real, sqrt: real -> real): (b: seq<real>)
    requires |averages| == |counts|
    requires forall i :: 0 <= i < |counts| ==> counts[i] > 0
    ensures |b| == |averages|
    ensures forall i :: 0 <= i < |b| ==>
      b[i] - averages[i] == sqrt(2.0 * ln(x) / (counts[i] as real))
  {
    seq(|averages|, i requires 0 <= i < |averages| =>
      averages[i] + sqrt(2.0 * ln(x) / (counts[i] as real)))
  }

  /**
   * The UCB rule. While some arm has been pulled at most `explore` times, the arm is the
   * `pick`-th of those under-pulled arms; afterwards it is the first arm with the highest
   * upper confidence bound.
   */
  function UcbPull(averages: seq<real>, counts: seq<nat>, explore: nat, delta: Option<real>,
                   nIter: nat, ln: real -> real, sqrt: real -> real, pick: nat): (arm: nat)
    requires |averages| == |counts| > 0
    requires UnderPulled(counts, explore) != [] ==> pick < |UnderPulled(counts, explore)|
    ensures arm < |counts|
    ensures (exists i :: 0 <= i < |counts| && counts[i] <= explore) ==>
      counts[arm] <= explore && arm == UnderPulled(counts, explore)[pick]
    ensures (forall i :: 0 <= i < |counts| ==> counts[i] > explore) ==>
      IsFirstMax(UpperBounds(averages, counts, ExplorationTarget(delta, nIter), ln, sqrt), arm)
  {
    var candidates := UnderPulled(counts, explore);
    if candidates != [] then
      assert candidates[pick] in candidates;
      candidates[pick]
    else
      ArgMax(UpperBounds(averages, counts, ExplorationTarget(delta, nIter), ln, sqrt))
  }
}
