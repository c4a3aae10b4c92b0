/**
 * The bandit that selects among candidate models online: per-arm pull counts and
 * running-average rewards, the learning cycle that updates them, arm growth, and the
 * queries on the current statistics. The two policies (epsilon-greedy and UCB) are the
 * variants of `Policy`; the policy's own state (a decaying epsilon) lives there.
 *
 * Collaborators whose code is not part of this model are parameters: the metric's
 * compatibility test `worksWith`, the metric value of a prediction, the reward scaler
 * `scale`, numpy's `ln`, `sqrt` and `exp`, and the random draws.
 */
module Bandits {
  import opened Wrappers
  import opened Stats
  import opened Selection

  /** The configuration errors the constructors raise. */
  datatype ConfigError =
    | TooFewModels(supplied: nat)
    | IncompatibleModel(index: nat)
    | DeltaOutOfRange(delta: real)

  /**
   * The selection policy with its state. `EpsilonGreedy` keeps the current and the
   * starting epsilon and an optional decay rate; `Ucb` keeps its optional confidence
   * parameter delta and the number of forced pulls per arm.
   */
  datatype Policy =
    | EpsilonGreedy(epsilon: real, decay: Option<real>, startingEpsilon: real)
    | Ucb(delta: Option<real>, explore: nat)

  /**
   * One step's random draws: `u` stands for the uniform value in [0, 1) and `pick` for the
   * index a uniform choice returns (among all arms for epsilon-greedy, among the
   * under-pulled arms for UCB).
   */
  datatype Draw = Draw(u: real, pick: nat)

  /** A metric value turned into a reward to be maximised: negated when smaller is better. */
  function MetricToReward(value: real, biggerIsBetter: bool): real
  {
    if biggerIsBetter then value else -value
  }

  predicate AtLeastAsGood(a: real, b: real, biggerIsBetter: bool)
  {
    if biggerIsBetter then a >= b else a <= b
  }

  /** A larger reward always means a metric value at least as good, in either direction. */
  lemma MetricToRewardOrdersByQuality(a: real, b: real, biggerIsBetter: bool)
    ensures MetricToReward(a, biggerIsBetter) >= MetricToReward(b, biggerIsBetter)
        <==> AtLeastAsGood(a, b, biggerIsBetter)
  {
  }

  /** The UCB constructor's test of delta: None, or strictly between 0 and 1. */
  function DeltaError(delta: Option<real>): (e: Option<ConfigError>)
    ensures e.None? <==> delta.None? || 0.0 < delta.value < 1.0
    ensures e.Some? ==> e == Some(DeltaOutOfRange(delta.value))
  {
    if delta.Some? && (delta.value >= 1.0 || delta.value <= 0.0)
    then Some(DeltaOutOfRange(delta.value))
    else None
  }

  /** Decay is on when a rate is given and it is not zero (Python's truth test). */
  predicate DecayOn(decay: Option<real>)
  {
    decay.Some? && decay.value != 0.0
  }

  /** The decayed epsilon after `nIter` learning steps: start * exp(-nIter * decay). */
  function DecayedEpsilon(start: real, decay: real, nIter: nat, exp: real -> real): real
  {
    start * exp(-(nIter as real) * decay)
  }

  /** The policy after the policy-specific update that follows each learning step. */
  function PolicyAfterUpdate(p: Policy, nIter: nat, exp: real -> real): (q: Policy)
    ensures q.EpsilonGreedy? == p.EpsilonGreedy?
    ensures q.EpsilonGreedy? ==> q.decay == p.decay && q.startingEpsilon == p.startingEpsilon
    ensures q.EpsilonGreedy? && !DecayOn(p.decay) ==> q == p
    ensures q.EpsilonGreedy? && DecayOn(p.decay) ==>
      q.epsilon == DecayedEpsilon(p.startingEpsilon, p.decay.value, nIter, exp)
    ensures q.Ucb? ==> q == p
  {
    match p
    case EpsilonGreedy(_, decay, start) =>
      if DecayOn(decay) then p.(epsilon := DecayedEpsilon(start, decay.value, nIter, exp)) else p
    case Ucb(_, _) => p
  }

  /**
   * With a non-negative starting epsilon and decay rate and a non-decreasing `exp`,
   * epsilon never grows as learning steps accumulate.
   */
  lemma DecayedEpsilonNonIncreasing(start: real, decay: real, n1: nat, n2: nat, exp: real -> real)
    requires start >= 0.0 && decay >= 0.0 && n1 <= n2
    requires forall x: real, y: real :: x <= y ==> exp(x) <= exp(y)
    ensures DecayedEpsilon(start, decay, n2, exp) <= DecayedEpsilon(start, decay, n1, exp)
  {
  }

  /**
   * Once no arm is under-pulled, at least `explore_each_arm + 1` pulls per arm have been
   * made, and the value whose logarithm the UCB bonus takes exceeds 1, so the logarithm is
   * positive: for UCB(delta) because delta lies in (0, 1), for UCB1 because at least two
   * arms have been pulled at least once each.
   */
  lemma ExploitTargetAboveOne(counts: seq<nat>, explore: nat, delta: Option<real>, nIter: nat)
    requires |counts| >= 2 && nIter == CountSum(counts)
    requires forall i :: 0 <= i < |counts| ==> counts[i] > explore
    requires DeltaError(delta).None?
    ensures nIter >= |counts| * (explore + 1)
    ensures ExplorationTarget(delta, nIter) > 1.0
  {
    CountSumAtLeast(counts, explore + 1);
  }

  /**
   * In the exploitation phase of UCB every arm's upper confidence bound lies strictly above its
   * average reward, given a logarithm that is positive above 1 and a square root that is
   * positive on positive arguments: the exploration bonus is a genuine bonus.
   */
  lemma UpperBoundsExceedAverages(averages: seq<real>, counts: seq<nat>, explore: nat,
                                  delta: Option<real>, nIter: nat,
                                  ln: real -> real, sqrt: real -> real)
    requires |averages| == |counts| >= 2 && nIter == CountSum(counts)
    requires forall i :: 0 <= i < |counts| ==> counts[i] > explore
    requires DeltaError(delta).None?
    requires forall y :: y > 1.0 ==> ln(y) > 0.0
    requires forall y :: y > 0.0 ==> sqrt(y) > 0.0
    ensures forall i :: 0 <= i < |averages| ==>
      UpperBounds(averages, counts, ExplorationTarget(delta, nIter), ln, sqrt)[i] > averages[i]
  {
    var x := ExplorationTarget(delta, nIter);
    ExploitTargetAboveOne(counts, explore, delta, nIter);
    forall i | 0 <= i < |averages|
      ensures UpperBounds(averages, counts, x, ln, sqrt)[i] > averages[i]
    {
      assert 2.0 * ln(x) / (counts[i] as real) > 0.0;
    }
  }

  predicate IsFirstIncompatible<M>(models: seq<M>, worksWith: M -> bool, k: nat)
  {
    k < |models| && !worksWith(models[k]) &&
    forall j :: 0 <= j < k ==> worksWith(models[j])
  }

  /**
   * The checks the base constructor makes, in its order: at least two models, then each
   * model in turn must work with the metric; the first one that does not is reported.
   */
  method CheckModels<M>(models: seq<M>, worksWith: M -> bool) returns (e: Option<ConfigError>)
    ensures |models| <= 1 ==> e == Some(TooFewModels(|models|))
    ensures |models| >= 2 ==> (e.None? <==> forall i :: 0 <= i < |models| ==> worksWith(models[i]))
    ensures |models| >= 2 && e.Some? ==>
      e.value.IncompatibleModel? && IsFirstIncompatible(models, worksWith, e.value.index)
  {
    if |models| <= 1 {
      return Some(TooFewModels(|models|));
    }
    var i := 0;
    while i < |models|
      invariant 0 <= i <= |models|
      invariant forall j :: 0 <= j < i ==> worksWith(models[j])
    {
      if !worksWith(models[i]) {
        return Some(IncompatibleModel(i));
      }
      i := i + 1;
    }
    return None;
  }

  predicate PolicyValid(p: Policy)
  {
    p.Ucb? ==> DeltaError(p.delta).None?
  }

  class Bandit<M> {
    var models: seq<M>
    const biggerIsBetter: bool
    var policy: Policy
    var nArms: nat
    var nIter: nat
    var counts: array<nat>
    var averageReward: array<real>
    /** Every reward each arm has received, in order. */
    ghost var rewards: seq<seq<real>>

    /**
     * The object invariant: one count, one average and one reward history per model, at
     * least two models, the step counter equal to the total of the counts, and each
     * average the exact mean of its arm's rewards.
     */
    ghost predicate Valid()
      reads this, counts, averageReward
    {
      nArms == |models| == counts.Length == averageReward.Length == |rewards| &&
      nArms >= 2 && PolicyValid(policy) &&
      nIter == CountSum(counts[..]) &&
      forall i :: 0 <= i < nArms ==>
        counts[i] == |rewards[i]| && averageReward[i] == Mean(rewards[i])
    }

    constructor (models: seq<M>, biggerIsBetter: bool, policy: Policy)
      requires |models| >= 2 && PolicyValid(policy)
      ensures Valid() && fresh(counts) && fresh(averageReward)
      ensures this.models == models && this.biggerIsBetter == biggerIsBetter
      ensures this.policy == policy && nIter == 0
      ensures counts[..] == ZeroCounts(|models|) && averageReward[..] == ZeroAverages(|models|)
    {
      this.models := models;
      this.biggerIsBetter := biggerIsBetter;
      this.policy := policy;
      nArms := |models|;
      nIter := 0;
      counts := new nat[|models|](_ => 0);
      averageReward := new real[|models|](_ => 0.0);
      rewards := seq(|models|, _ => []);
      new;
      assert counts[..] == [] + ZeroCounts(|models|);
      CountSumAppendZeros([], |models|);
    }

    /** The epsilon-greedy bandit's constructor: the base checks, then a fresh bandit. */
    static method CreateEpsilonGreedy(models: seq<M>, worksWith: M -> bool, biggerIsBetter: bool,
                                      epsilon: real := 0.1, decay: Option<real> := None)
      returns (r: Result<Bandit<M>, ConfigError>)
      ensures |models| <= 1 ==> r == Failure(TooFewModels(|models|))
      ensures r.Success? <==> |models| >= 2 && forall i :: 0 <= i < |models| ==> worksWith(models[i])
      ensures r.Failure? && |models| >= 2 ==>
        r.error.IncompatibleModel? && IsFirstIncompatible(models, worksWith, r.error.index)
      ensures r.Success? ==> fresh(r.value) && fresh(r.value.counts) && fresh(r.value.averageReward)
      ensures r.Success? ==> r.value.Valid() && r.value.nIter == 0
      ensures r.Success? ==> r.value.models == models && r.value.biggerIsBetter == biggerIsBetter
      ensures r.Success? ==> r.value.policy == EpsilonGreedy(epsilon, decay, epsilon)
      ensures r.Success? ==> r.value.counts[..] == ZeroCounts(|models|)
      ensures r.Success? ==> r.value.averageReward[..] == ZeroAverages(|models|)
    {
      var e := CheckModels(models, worksWith);
      if e.Some? {
        return Failure(e.value);
      }
      var b := new Bandit(models, biggerIsBetter, EpsilonGreedy(epsilon, decay, epsilon));
      return Success(b);
    }

    /** The UCB bandit's constructor: the base checks, then the test of delta. */
    static method CreateUcb(models: seq<M>, worksWith: M -> bool, biggerIsBetter: bool,
                            delta: Option<real> := None, explore: nat := 1)
      returns (r: Result<Bandit<M>, ConfigError>)
      ensures |models| <= 1 ==> r == Failure(TooFewModels(|models|))
      ensures r.Success? <==> |models| >= 2 && (forall i :: 0 <= i < |models| ==> worksWith(models[i]))
                              && (delta.None? || 0.0 < delta.value < 1.0)
      ensures r.Failure? && |models| >= 2 && (exists i :: 0 <= i < |models| && !worksWith(models[i])) ==>
        r.error.IncompatibleModel? && IsFirstIncompatible(models, worksWith, r.error.index)
      ensures r.Failure? && |models| >= 2 && (forall i :: 0 <= i < |models| ==> worksWith(models[i])) ==>
        r.error == DeltaOutOfRange(delta.value)
      ensures r.Success? ==> fresh(r.value) && fresh(r.value.counts) && fresh(r.value.averageReward)
      ensures r.Success? ==> r.value.Valid() && r.value.nIter == 0
      ensures r.Success? ==> r.value.models == models && r.value.biggerIsBetter == biggerIsBetter
      ensures r.Success? ==> r.value.policy == Ucb(delta, explore)
      ensures r.Success? ==> r.value.counts[..] == ZeroCounts(|models|)
      ensures r.Success? ==> r.value.averageReward[..] == ZeroAverages(|models|)
    {
      var e := CheckModels(models, worksWith);
      if e.Some? {
        return Failure(e.value);
      }
      var d := DeltaError(delta);
      if d.Some? {
        return Failure(d.value);
      }
      var b := new Bandit(models, biggerIsBetter, Ucb(delta, explore));
      return Success(b);
    }

    /** The index of the model with the highest average reward, the first one on ties. */
    function BestModelIdx(): (k: nat)
      reads this, counts, averageReward
      requires Valid()
      ensures k < nArms && IsFirstMax(averageReward[..], k)
    {
      ArgMax(averageReward[..])
    }

    /** The model with the highest average reward (not necessarily the most pulled). */
    function BestModel(): (m: M)
      reads this, counts, averageReward
      requires Valid()
      ensures exists k: nat :: IsFirstMax(averageReward[..], k) && m == models[k]
    {
      models[BestModelIdx()]
    }

    /** Each arm's pulls as a share of all pulls; None (NaN in the source) before any pull. */
    function PercentagePulled(): (r: Option<seq<real>>)
      reads this, counts, averageReward
      requires Valid()
      ensures r.None? <==> nIter == 0
      ensures r.Some? ==> |r.value| == nArms && Sum(r.value) == 1.0
      ensures r.Some? ==> forall i :: 0 <= i < nArms ==> r.value[i] * (nIter as real) == counts[i] as real
    {
      if nIter == 0 then Shares(counts[..])
      else
        SharesSumToOne(counts[..]);
        Shares(counts[..])
    }

    /** The draws fit the policy: `pick` indexes the arms a uniform choice is made from. */
    predicate DrawFits(d: Draw)
      reads this, counts
    {
      match policy
      case EpsilonGreedy(_, _, _) => d.pick < nArms
      case Ucb(_, explore) =>
        UnderPulled(counts[..], explore) != [] ==> d.pick < |UnderPulled(counts[..], explore)|
    }

    /** The arm the current policy pulls with the given draws; reads the state, changes nothing. */
    function PullArm(d: Draw, ln: real -> real, sqrt: real -> real): (arm: nat)
      reads this, counts, averageReward
      requires Valid() && DrawFits(d)
      ensures arm < nArms
      ensures policy.EpsilonGreedy? && d.u > policy.epsilon ==> IsFirstMax(averageReward[..], arm)
      ensures policy.EpsilonGreedy? && d.u <= policy.epsilon ==> arm == d.pick
      ensures policy.Ucb? && (exists i :: 0 <= i < nArms && counts[i] <= policy.explore) ==>
        counts[arm] <= policy.explore
    {
      match policy
      case EpsilonGreedy(epsilon, _, _) =>
        EpsilonGreedyPull(averageReward[..], epsilon, d.u, d.pick)
      case Ucb(delta, explore) =>
        var c := counts[..];
        assert forall i :: 0 <= i < nArms ==> c[i] == counts[i];
        UcbPull(averageReward[..], c, explore, delta, nIter, ln, sqrt, d.pick)
    }

    /** Prediction without learning: the pulled arm's model predicts; no statistic changes. */
    method PredictOne<Y>(d: Draw, ln: real -> real, sqrt: real -> real, predict: M -> Y) returns (y: Y)
      requires Valid() && DrawFits(d)
      ensures y == predict(models[PullArm(d, ln, sqrt)])
    {
      var arm := PullArm(d, ln, sqrt);
      y := predict(models[arm]);
    }

    /** The policy-specific step after the statistics update: epsilon decay, or nothing for UCB. */
    method UpdateArm(arm: nat, reward: real, exp: real -> real)
      modifies this`policy
      ensures policy == PolicyAfterUpdate(old(policy), nIter, exp)
    {
      match policy
      case EpsilonGreedy(_, decay, start) =>
        if DecayOn(decay) {
          policy := policy.(epsilon := DecayedEpsilon(start, decay.value, nIter, exp));
        }
      case Ucb(_, _) =>
    }

    /**
     * The statistics update of a learning step: count the step and the pull, then fold the
     * reward into the pulled arm's average. The count is raised before the division.
     */
    method Record(arm: nat, reward: real)
      requires Valid() && arm < nArms
      modifies this`nIter, this`rewards, counts, averageReward
      ensures Valid()
      ensures nIter == old(nIter) + 1
      ensures counts[..] == old(counts[..])[arm := old(counts[arm]) + 1]
      ensures averageReward[..] ==
        old(averageReward[..])[arm := IncrementalMean(old(averageReward[arm]), counts[arm], reward)]
      ensures rewards == old(rewards)[arm := old(rewards[arm]) + [reward]]
    {
      ghost var c0, a0, r0 := counts[..], averageReward[..], rewards;
      CountSumIncrement(c0, arm);
      IncrementalMeanIsMean(r0[arm], reward);
      nIter := nIter + 1;
      counts[arm] := counts[arm] + 1;
      averageReward[arm] := IncrementalMean(averageReward[arm], counts[arm], reward);
      rewards := r0[arm := r0[arm] + [reward]];
      assert counts[..] == c0[arm := c0[arm] + 1];
      forall i | 0 <= i < nArms
        ensures counts[i] == |rewards[i]| && averageReward[i] == Mean(rewards[i])
      {
        if i != arm {
          assert counts[i] == c0[i] && averageReward[i] == a0[i] && rewards[i] == r0[i];
        }
      }
    }

    /**
     * One learning cycle: pull an arm with the state as it is, evaluate the pulled arm's model
     * (`evaluate` gives the metric value of its prediction on the current example), turn that
     * value into a scaled reward, record it, then let the policy update. Returns the pulled arm
     * and its reward. Only the pulled arm's statistics change.
     */
    method LearnOne(d: Draw, evaluate: M -> real, scale: real -> real,
                    ln: real -> real, sqrt: real -> real, exp: real -> real)
      returns (arm: nat, reward: real)
      requires Valid() && DrawFits(d)
      modifies this, counts, averageReward
      ensures Valid()
      ensures arm == old(PullArm(d, ln, sqrt)) && arm < nArms
      ensures reward == scale(MetricToReward(evaluate(models[arm]), biggerIsBetter))
      ensures counts == old(counts) && averageReward == old(averageReward)
      ensures models == old(models) && nArms == old(nArms)
      ensures nIter == old(nIter) + 1
      ensures counts[..] == old(counts[..])[arm := old(counts[arm]) + 1]
      ensures averageReward[..] ==
        old(averageReward[..])[arm := IncrementalMean(old(averageReward[arm]), counts[arm], reward)]
      ensures rewards == old(rewards)[arm := old(rewards[arm]) + [reward]]
      ensures policy == PolicyAfterUpdate(old(policy), nIter, exp)
    {
      arm := PullArm(d, ln, sqrt);
      reward := scale(MetricToReward(evaluate(models[arm]), biggerIsBetter));
      Record(arm, reward);
      UpdateArm(arm, reward, exp);
    }

    /**
     * Adds arms for `newModels` with zero counts and zero averages; the existing arms keep
     * their indices and statistics. The new models are not checked against the metric.
     */
    method AddModels(newModels: seq<M>)
      requires Valid()
      modifies this
      ensures Valid() && fresh(counts) && fresh(averageReward)
      ensures models == old(models) + newModels && nArms == old(nArms) + |newModels|
      ensures counts[..] == old(counts[..]) + ZeroCounts(|newModels|)
      ensures averageReward[..] == old(averageReward[..]) + ZeroAverages(|newModels|)
      ensures rewards == old(rewards) + seq(|newModels|, _ => [])
      ensures nIter == old(nIter) && policy == old(policy)
    {
      var n, k := nArms, |newModels|;
      ghost var oldCounts, oldAverages := counts[..], averageReward[..];
      assert nIter == CountSum(oldCounts);
      CountSumAppendZeros(oldCounts, k);
      var c := new nat[n + k](_ => 0);
      var a := new real[n + k](_ => 0.0);
      forall i | 0 <= i < n {
        c[i] := counts[i];
      }
      forall i | 0 <= i < n {
        a[i] := averageReward[i];
      }
      assert c[..] == oldCounts + ZeroCounts(k);
      assert a[..] == oldAverages + ZeroAverages(k);
      ghost var r := rewards + seq(k, _ => []);
      forall i | 0 <= i < n + k
        ensures c[i] == |r[i]| && a[i] == Mean(r[i])
      {
        if i >= n {
          assert r[i] == [];
        } else {
          assert c[i] == oldCounts[i] && a[i] == oldAverages[i];
        }
      }
      models := models + newModels;
      nArms := n + k;
      counts := c;
      averageReward := a;
      rewards := r;
    }
  }
}
