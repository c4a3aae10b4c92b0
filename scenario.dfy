/**
 * A client of the bandit that uses nothing but the contracts of `Bandits`: three models whose
 * metric value is fixed at 1.0, 5.0 and 3.0 (bigger is better, an identity reward scaler),
 * an epsilon-greedy bandit with epsilon 0, one exploring pull of each arm, then ten greedy
 * pulls. Every greedy pull takes arm 1 and arm 1 stays the best model.
 */
module Scenarios {
  import opened Wrappers
  import opened Stats
  import opened Selection
  import opened Bandits

  /** The fixed metric value of each of the three models (each model is its own index). */
  function Value(model: nat): real
  {
    if model == 0 then 1.0 else if model == 1 then 5.0 else 3.0
  }

  /** The bandit of the scenario: three arms, epsilon-greedy with epsilon 0 and no decay. */
  ghost predicate Shape(b: Bandit<nat>)
    reads b, b.counts, b.averageReward
  {
    b.Valid() && b.models == [0, 1, 2] && b.policy == EpsilonGreedy(0.0, None, 0.0) && b.biggerIsBetter
  }

  /** An exploring pull of a fresh arm `i`: its average becomes that arm's value. */
  method ExploreStep(b: Bandit<nat>, i: nat) returns (arm: nat)
    requires Shape(b) && i < 3 && b.counts[i] == 0
    modifies b, b.counts, b.averageReward
    ensures Shape(b) && b.counts == old(b.counts) && b.averageReward == old(b.averageReward)
    ensures arm == i
    ensures b.counts[..] == old(b.counts[..])[i := 1]
    ensures b.averageReward[..] == old(b.averageReward[..])[i := Value(i)]
  {
    var id := (x: real) => x;
    assert b.averageReward[i] == 0.0 by {
      assert b.averageReward[i] == Mean(b.rewards[i]) && b.rewards[i] == [];
    }
    var reward;
    arm, reward := b.LearnOne(Draw(0.0, i), Value, id, id, id, id);
    assert reward == Value(i) by {
      assert b.models[arm] == i;
    }
    assert IncrementalMean(0.0, 1, Value(i)) == Value(i);
  }

  /** A greedy pull once the averages are 1.0, 5.0 and 3.0: arm 1, and the averages stay. */
  method ExploitStep(b: Bandit<nat>) returns (arm: nat)
    requires Shape(b) && b.averageReward[..] == [1.0, 5.0, 3.0]
    modifies b, b.counts, b.averageReward
    ensures Shape(b) && b.counts == old(b.counts) && b.averageReward == old(b.averageReward)
    ensures arm == 1 && b.averageReward[..] == [1.0, 5.0, 3.0]
  {
    var id := (x: real) => x;
    var reward;
    arm, reward := b.LearnOne(Draw(0.5, 0), Value, id, id, id, id);
    assert arm == 1 by {
      assert IsFirstMax([1.0, 5.0, 3.0], arm);
    }
    assert reward == 5.0 by {
      assert b.models[arm] == 1;
    }
  }

  method GreedyScenario() returns (arms: seq<nat>, best: nat)
    ensures arms == [0, 1, 2] + seq(10, _ => 1)
    ensures best == 1
  {
    var r := Bandit<nat>.CreateEpsilonGreedy([0, 1, 2], _ => true, true, 0.0);
    var b := r.value;
    // a draw of exactly 0.0 does not exceed epsilon 0, so each pull takes the drawn arm
    var a0 := ExploreStep(b, 0);
    var a1 := ExploreStep(b, 1);
    var a2 := ExploreStep(b, 2);
    assert b.averageReward[..] == [1.0, 5.0, 3.0];
    arms := [a0, a1, a2];
    var i := 0;
    while i < 10
      invariant 0 <= i <= 10 && Shape(b)
      invariant fresh(b) && fresh(b.counts) && fresh(b.averageReward)
      invariant arms == [0, 1, 2] + seq(i, _ => 1)
      invariant b.averageReward[..] == [1.0, 5.0, 3.0]
    {
      var arm := ExploitStep(b);
      arms := arms + [arm];
      i := i + 1;
    }
    best := b.BestModelIdx();
    assert IsFirstMax([1.0, 5.0, 3.0], best);
  }
}
