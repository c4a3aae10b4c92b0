/**
 * Per-arm statistics of the bandit: pull counts, rewards, their running average and the
 * share of all pulls each arm received. Rewards are exact reals; pull counts are
 * unbounded naturals.
 */
module Stats {
  import opened Wrappers

  /** Total of a sequence of rewards, the last reward added last. */
  function Sum(s: seq<real>): real
  {
    if s == [] then 0.0 else Sum(s[..|s| - 1]) + s[|s| - 1]
  }

  /** Total of a sequence of pull counts. */
  function CountSum(c: seq<nat>): nat
  {
    if c == [] then 0 else CountSum(c[..|c| - 1]) + c[|c| - 1]
  }

  /** The arithmetic mean of the rewards an arm received; 0.0 for an arm never pulled. */
  function Mean(s: seq<real>): real
  {
    if s == [] then 0.0 else Sum(s) / (|s| as real)
  }

  /** `n` zero counts, the statistics of `n` freshly added arms. */
  function ZeroCounts(n: nat): (z: seq<nat>)
    ensures |z| == n && forall i :: 0 <= i < n ==> z[i] == 0
  {
    seq(n, _ => 0)
  }

  /** `n` zero averages. */
  function ZeroAverages(n: nat): (z: seq<real>)
    ensures |z| == n && forall i :: 0 <= i < n ==> z[i] == 0.0
  {
    seq(n, _ => 0.0)
  }

  /**
   * The source's update of an arm's average once its count has been raised to `n`:
   * the old average plus (1/n) times the gap between the new reward and the old average.
   * The count is raised before the division, so `n` is never zero.
   */
  function IncrementalMean(avg: real, n: nat, reward: real): real
    requires n >= 1
  {
    avg + (1.0 / (n as real)) * (reward - avg)
  }

  /**
   * The incremental update keeps the average exact: applied to the mean of the rewards
   * seen so far, with the count raised by one, it gives the mean of all of them.
   */
  lemma IncrementalMeanIsMean(s: seq<real>, reward: real)
    ensures IncrementalMean(Mean(s), |s| + 1, reward) == Mean(s + [reward])
  {
  }

  /** Raising one count by one raises the total by one. */
  lemma {:induction false} CountSumIncrement(c: seq<nat>, i: nat)
    requires i < |c|
    ensures CountSum(c[i := c[i] + 1]) == CountSum(c) + 1
  {
    var c' := c[i := c[i] + 1];
    var k := |c| - 1;
    if i == k {
      assert c'[..k] == c[..k];
    } else {
      assert c'[..k] == c[..k][i := c[i] + 1];
      CountSumIncrement(c[..k], i);
    }
  }

  /** Appending zero counts leaves the total unchanged. */
  lemma {:induction false} CountSumAppendZeros(c: seq<nat>, n: nat)
    ensures CountSum(c + ZeroCounts(n)) == CountSum(c)
    decreases n
  {
    if n > 0 {
      assert (c + ZeroCounts(n))[..|c| + n - 1] == c + ZeroCounts(n - 1);
      CountSumAppendZeros(c, n - 1);
    } else {
      assert c + ZeroCounts(n) == c;
    }
  }

  /** When every arm has been pulled at least `floor` times, the total is at least `|c| * floor`. */
  lemma {:induction false} CountSumAtLeast(c: seq<nat>, floor: nat)
    requires forall i :: 0 <= i < |c| ==> c[i] >= floor
    ensures CountSum(c) >= |c| * floor
  {
    if c != [] {
      var k := |c| - 1;
      CountSumAtLeast(c[..k], floor);
      assert |c| * floor == k * floor + floor;
    }
  }

  /**
   * Each arm's pulls as a share of all pulls. With no pull at all every share is 0/0,
   * which the source leaves as a vector of NaN; here that case is None.
   */
  function Shares(c: seq<nat>): (r: Option<seq<real>>)
    ensures r.None? <==> CountSum(c) == 0
    ensures r.Some? ==> |r.value| == |c|
    ensures r.Some? ==> forall i :: 0 <= i < |c| ==> r.value[i] * (CountSum(c) as real) == c[i] as real
  {
    if CountSum(c) == 0 then None else Some(Scaled(c, CountSum(c) as real))
  }

  /** Every count divided by the same positive total. */
  function Scaled(c: seq<nat>, t: real): (r: seq<real>)
    requires t > 0.0
    ensures |r| == |c| && forall i :: 0 <= i < |c| ==> r[i] == (c[i] as real) / t
  {
    seq(|c|, i requires 0 <= i < |c| => (c[i] as real) / t)
  }

  /** Dividing every count by `t` divides their total by `t`. */
  lemma {:induction false} SumScaled(c: seq<nat>, t: real)
    requires t > 0.0
    ensures Sum(Scaled(c, t)) == (CountSum(c) as real) / t
  {
    if c != [] {
      var k := |c| - 1;
      assert Scaled(c, t)[..k] == Scaled(c[..k], t);
      SumScaled(c[..k], t);
      assert (CountSum(c) as real) == (CountSum(c[..k]) as real) + (c[k] as real);
    }
  }

  /** Once anything has been pulled, the shares add up to one. */
  lemma SharesSumToOne(c: seq<nat>)
    requires CountSum(c) > 0
    ensures Shares(c).Some? && Sum(Shares(c).value) == 1.0
  {
    var t := CountSum(c) as real;
    SumScaled(c, t);
    assert Shares(c).value == Scaled(c, t);
    DivideBySelf(t);
  }

  /**
   * A positive total divided by itself is one; stated apart so that the solver meets this
   * non-linear fact in a small context.
   */
  lemma DivideBySelf(t: real)
    requires t > 0.0
    ensures t / t == 1.0
  {
  }
}
