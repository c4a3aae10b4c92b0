# Bandit-based online model selection

This project models the bandit core of river's `expert` module
(`river/expert/bandit.py`). That core picks one of several candidate models at every
learning step and scores it. Each candidate model is an "arm". For each arm the core keeps a
pull count and a running-average reward. Two policies choose the arm:

- epsilon-greedy: with probability 1 - epsilon it takes the arm with the best average,
  otherwise a uniformly random arm; epsilon may decay over time.
- UCB: it first forces pulls of every arm pulled at most `explore_each_arm` times, then takes
  the arm with the highest upper confidence bound (average plus an exploration bonus).

Layout:

- `wrappers.dfy` (`Wrappers`): `Option` and `Result`.
- `stats.dfy` (`Stats`): sums of rewards and of counts, the exact mean, the source's
  incremental-mean update, and the pull shares behind `percentage_pulled`.
- `selection.dfy` (`Selection`): numpy's `argmax` (first maximum), `where(N <= explore)`,
  the epsilon-greedy pull and the UCB pull.
- `bandit.dfy` (`Bandits`): the class `Bandit<M>` over the candidate models `M`. Its fields
  are the models, the arm count, the step count `nIter`, the count array `counts` (`_N`) and
  the array `averageReward` (`_average_reward`). The two subclasses become the variants of the
  datatype `Policy`; the factories `CreateEpsilonGreedy` and `CreateUcb` play their
  constructors. The class also holds a ghost history of every reward each arm received.
  `Valid()` ties that history to the arrays: each count is the history's length, each
  average is the history's exact mean, and `nIter` is the total of the counts.
- `scenario.dfy` (`Scenarios`): a client that relies on the contracts alone. Three models have
  fixed metric values 1.0, 5.0 and 3.0 under epsilon-greedy with epsilon 0. After one
  exploring pull per arm, ten greedy pulls all take arm 1, and arm 1 is the best model.

Inputs in place of collaborators:

- random draws become a `Draw(u, pick)` argument;
- `metric.works_with`, the metric value of a prediction, the reward scaler, each model's
  `predict_one`, and numpy's `log`, `sqrt` and `exp` become function or value parameters.

## Model

| member | source | states |
|---|---|---|
| `Bandits.CheckModels` | river/expert/bandit.py:25-32 | fewer than two models fails with TooFewModels; otherwise the check passes iff every model works with the metric, and a failure names the first incompatible model |
| `Bandits.Bandit.constructor` | river/expert/bandit.py:46-50 | a new bandit holds the models, one zero count and one zero average per model, and a step count of 0; the object invariant holds |
| `Bandits.Bandit.CreateEpsilonGreedy` | river/expert/bandit.py:145-153 | succeeds iff there are at least two models and all are compatible; a failure carries the base constructor's error; on success the bandit is fresh and valid, its statistics are zero, and its starting epsilon is the given epsilon; epsilon defaults to 0.1 and the decay rate to None |
| `Bandits.Bandit.CreateUcb` | river/expert/bandit.py:210-219 | succeeds iff the base checks pass and delta is None or strictly inside (0, 1); model errors come before the delta error; on success the bandit is fresh, valid and zeroed; delta defaults to None and explore_each_arm to 1 |
| `Bandits.DeltaError` | river/expert/bandit.py:213-214 | no error iff delta is None or 0 < delta < 1; otherwise the error carries the offending delta |
| `Selection.ArgMax` | river/expert/bandit.py:65-67 | the result is an index of the sequence, no element exceeds the element there, and every earlier element is strictly smaller (the first maximum) |
| `Selection.FirstMaxUnique` | river/expert/bandit.py:67 | at most one index is a first maximum, so the greedy tie-break is deterministic |
| `Bandits.Bandit.BestModelIdx` | river/expert/bandit.py:64-67 | the best model's index is a valid arm and is the first arm with the highest average reward |
| `Bandits.Bandit.BestModel` | river/expert/bandit.py:69-71 | the best model is the model at the first index of highest average reward |
| `Stats.Shares` | river/expert/bandit.py:73-76 | there is no share vector (NaN in the source) iff nothing has been pulled; otherwise one share per arm, and each share times the total is that arm's count |
| `Stats.SharesSumToOne` | river/expert/bandit.py:75 | once anything has been pulled, the shares add up to exactly 1 |
| `Bandits.Bandit.PercentagePulled` | river/expert/bandit.py:73-76 | no shares iff the step count is 0; otherwise one share per arm, summing to 1, each share times the step count equal to the arm's count |
| `Bandits.Bandit.PredictOne` | river/expert/bandit.py:78-81 | the prediction is the pulled arm's model's prediction; it changes no statistic |
| `Bandits.Bandit.PullArm` | river/expert/bandit.py:52-54 | the pulled arm is a valid arm; for epsilon-greedy it is the first best-average arm when u > epsilon and the drawn arm otherwise; for UCB it is an under-pulled arm while one exists |
| `Bandits.Bandit.LearnOne` | river/expert/bandit.py:83-111 | one cycle: the arm is the one the old state pulls; the reward is the scaled, sign-corrected metric value of that arm's model; nIter grows by 1; only the pulled arm's count grows, by 1; only its average changes, by the incremental rule; the arrays and models stay the same; the policy takes its update; the invariant (nIter equals the total count, each average equals its arm's exact mean) is kept |
| `Bandits.Bandit.Record` | river/expert/bandit.py:93-96 | the statistics step of a cycle: nIter grows by 1, the arm's count grows by 1 before its average takes the incremental rule, no other arm changes, the reward joins the arm's history, and the invariant is kept |
| `Stats.IncrementalMeanIsMean` | river/expert/bandit.py:94-96 | raising the count to n + 1 and then applying avg + (1/(n+1)) * (reward - avg) to the mean of n rewards gives exactly the mean of the n + 1 rewards |
| `Stats.CountSumIncrement` | river/expert/bandit.py:93-94 | adding one to one arm's count adds one to the total, so nIter stays equal to the sum of the counts |
| `Bandits.Bandit.AddModels` | river/expert/bandit.py:113-124 | the models are extended by the new ones; the arm count grows by their number; the count and average arrays are the old ones followed by that many zeros; nIter and the policy are unchanged; the invariant is kept |
| `Stats.CountSumAppendZeros` | river/expert/bandit.py:121 | appending zero counts leaves the total unchanged, so adding models keeps nIter equal to the sum of the counts |
| `Bandits.MetricToRewardOrdersByQuality` | river/expert/bandit.py:128-130 | after the sign flip, a larger reward means a metric value at least as good: at least as large when bigger is better, at most as large otherwise |
| `Selection.EpsilonGreedyPull` | river/expert/bandit.py:155-161 | a valid arm; when u > epsilon, the first arm with the highest average; otherwise the uniformly drawn arm |
| `Bandits.PolicyAfterUpdate` | river/expert/bandit.py:163-166 | the policy keeps its kind, decay rate and starting epsilon; with decay on, epsilon becomes the starting epsilon times exp(-nIter * decay); without decay (None or 0) and for UCB it is unchanged |
| `Bandits.Bandit.UpdateArm` | river/expert/bandit.py:163-166 | the policy becomes its updated form for the current step count; no other field changes |
| `Bandits.DecayedEpsilonNonIncreasing` | river/expert/bandit.py:166 | with a non-negative starting epsilon and decay rate and a non-decreasing exp, epsilon after more steps is at most epsilon after fewer steps |
| `Selection.UnderPulled` | river/expert/bandit.py:222-224 | an index is listed iff it is an arm pulled at most explore_each_arm times; the list is strictly increasing; it is empty iff every arm has more pulls than that |
| `Bandits.UpperBoundsExceedAverages` | river/expert/bandit.py:227-231 | in the exploitation phase, with a logarithm positive above 1 and a square root positive on positive arguments, every arm's upper confidence bound is strictly above its average reward, for UCB(delta) and for UCB1 alike |
| `Selection.UcbPull` | river/expert/bandit.py:221-234 | a valid arm; while some arm has at most explore_each_arm pulls, the result is the drawn one of those arms; once none has, it is the first arm with the highest upper bound |
| `Bandits.ExploitTargetAboveOne` | river/expert/bandit.py:227-230 | once no arm is under-pulled, the step count is at least n_arms * (explore_each_arm + 1), and the logarithm's argument is above 1: for UCB(delta) because delta is in (0, 1), for UCB1 because at least two arms each have at least one pull |
| `Scenarios.GreedyScenario` | river/expert/bandit.py:155-161 | with epsilon 0 and arms worth 1.0, 5.0 and 3.0, the pulled arms are 0, 1 and 2 (draws of exactly 0.0), then arm 1 ten times (draws above 0), and the best model index is 1 |

## Left out

- Printing (`print_every`, `_print_info`, lines 101-103 and 136-142): console output only.
- The history lists `store_percentage_pulled` and `metric_values` and their flags (lines 38-44, 105-109): append-only logs. Their content comes from `PercentagePulled` and from the metric value.
- The models' own `predict_one` and `learn_one`, the metric's `update` and `_eval`, and `works_with` (lines 29-32, 87-89, 127): their code is not part of this model. `LearnOne` takes a function `evaluate` that gives a model's metric value on the current example (its prediction scored against the target), and applies it to the pulled arm's model. The models keep their identity, so the `models` sequence is unchanged by a learning step.
- The reward scaler's internal state and the default `StandardScaler` (lines 131-133, 152-153, 218-219): `LearnOne` takes the scaler's update-then-transform as a function argument. A different function per call stands for the scaler's changing state.
- `np.random.rand` and `np.random.choice` (lines 156, 159, 225): replaced by the `Draw` argument. `pick` must index the arms the choice is made from. Uniformity is not modelled.
- `np.log`, `np.sqrt` and `np.exp` (lines 166, 228-230): passed in as functions. Floating-point rounding, NaN and infinities are not modelled. Rewards and averages are exact reals, so the average equals the exact mean here, while in floating point it only comes close.
- Bandits.Bandit.PullArm: its contract covers the arm range and the policies' main cases. The complete statements are on `Selection.EpsilonGreedyPull` and `Selection.UcbPull`, which it calls.
- 64-bit integer overflow of `_N` and `_n_iter`: counts are unbounded naturals.
- A negative `explore_each_arm`: the source would divide by a zero count. Here it is a natural number.
- The `isinstance(new_models, list)` check in `add_models` (lines 114-115): `newModels` has a sequence type, so the `TypeError` path cannot occur.
- `_pred_func` (lines 206-207, 268-269) returns the model's `predict_one`. In `PredictOne` that is the `predict` argument.
- `river/bandit/__init__.py` only imports and lists names; it has no behaviour.
- Epsilon 0 does not always exploit: line 156 tests `u > epsilon`, so a draw of exactly 0.0 still explores. The model keeps that test.
- Epsilon is never range-checked (lines 146-148), and the model does not check it either.
- Before any pull, `percentage_pulled` divides by zero (line 75) and yields NaN shares. The model returns None there.
