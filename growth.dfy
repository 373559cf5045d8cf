/**
 * `simulate_long_term_growth`: yearly balances under compounding with a
 * contribution. The specification functions take the yearly growth factor
 * g = 1 + annual return.
 */
module Growth {

  /** The balance after k years: each year grows by `factor` first, then receives the contribution. */
  function Balance(initial: real, contribution: real, factor: real, k: nat): real {
    if k == 0 then initial else Balance(initial, contribution, factor, k - 1) * factor + contribution
  }

  /** The balances for years 0..n. */
  function Trajectory(initial: real, contribution: real, factor: real, n: nat): (t: seq<real>)
    ensures |t| == n + 1 && t[0] == initial
  {
    seq(n + 1, k requires 0 <= k <= n => Balance(initial, contribution, factor, k))
  }

  /** Python's `range(lo, hi)`: the integers from `lo` up to, not including, `hi`, in order. */
  function Range(lo: int, hi: int): (r: seq<int>)
    ensures |r| == if lo < hi then hi - lo else 0
    ensures forall i :: 0 <= i < |r| ==> r[i] == lo + i
  {
    seq(if lo < hi then hi - lo else 0, i => lo + i)
  }

  /** The years `range(1, years + 1)` runs through are 1, 2, ..., h, one iteration each. */
  function Horizon(years: int): (h: nat)
    ensures h == |Range(1, years + 1)|
    ensures Range(1, years + 1) == seq(h, i => i + 1)
  {
    if years < 0 then 0 else years
  }

  /** `simulate_long_term_growth`, with the list grown by appending once per year. */
  method SimulateLongTermGrowth(initial: real, contribution: real, rate: real, years: int)
    returns (amounts: seq<real>)
    ensures |amounts| == Horizon(years) + 1
    ensures amounts[0] == initial
    ensures forall k :: 0 < k < |amounts| ==> amounts[k] == amounts[k - 1] * (1.0 + rate) + contribution
    ensures amounts == Trajectory(initial, contribution, 1.0 + rate, Horizon(years))
  {
    amounts := [initial];
    var year := 1;
    while year <= years
      invariant 1 <= year <= Horizon(years) + 1
      invariant amounts == Trajectory(initial, contribution, 1.0 + rate, year - 1)
    {
      var finalAmount := amounts[|amounts| - 1] * (1.0 + rate) + contribution;
      assert finalAmount == Balance(initial, contribution, 1.0 + rate, year);
      assert Trajectory(initial, contribution, 1.0 + rate, year) == amounts + [finalAmount];
      amounts := amounts + [finalAmount];
      year := year + 1;
    }
  }

  /** A non-positive horizon yields only the initial amount. */
  lemma NoHorizonIsInitialOnly(initial: real, contribution: real, factor: real, years: int)
    requires years <= 0
    ensures Trajectory(initial, contribution, factor, Horizon(years)) == [initial]
  {
  }

  /** The trajectory for a shorter horizon is a prefix of the one for a longer horizon. */
  lemma TrajectoryPrefix(initial: real, contribution: real, factor: real, m: nat, n: nat)
    requires m <= n
    ensures Trajectory(initial, contribution, factor, m) == Trajectory(initial, contribution, factor, n)[..m + 1]
  {
  }

  /** Real exponentiation by a natural number. */
  function Pow(x: real, k: nat): real {
    if k == 0 then 1.0 else Pow(x, k - 1) * x
  }

  /** 1 + x + ... + x^(k-1): what k unit contributions grow to at factor x. */
  function GeometricSum(x: real, k: nat): real {
    if k == 0 then 0.0 else GeometricSum(x, k - 1) * x + 1.0
  }

  /** With no return (factor 1), year k holds the initial amount plus k contributions. */
  lemma {:induction false} ZeroReturnIsLinear(initial: real, contribution: real, k: nat)
    ensures Balance(initial, contribution, 1.0, k) == initial + (k as real) * contribution
  {
    if k > 0 {
      ZeroReturnIsLinear(initial, contribution, k - 1);
    }
  }

  /** One year without contribution: b = prev * g and prev = initial * a give b = initial * (a * g). */
  lemma CompoundStep(b: real, prev: real, initial: real, a: real, a': real, g: real)
    requires b == prev * g + 0.0 && prev == initial * a && a' == a * g
    ensures b == initial * a'
  {
  }

  /** Without contributions, year k holds the initial amount compounded k times. */
  lemma {:induction false} NoContributionCompounds(initial: real, factor: real, k: nat)
    ensures Balance(initial, 0.0, factor, k) == initial * Pow(factor, k)
  {
    if k > 0 {
      NoContributionCompounds(initial, factor, k - 1);
      CompoundStep(Balance(initial, 0.0, factor, k), Balance(initial, 0.0, factor, k - 1),
                   initial, Pow(factor, k - 1), Pow(factor, k), factor);
    }
  }

  /** One year of the closed form: capital times g, annuity times g plus one contribution. */
  lemma AnnuityStep(b: real, prev: real, initial: real, a: real, a': real,
                    contribution: real, s: real, s': real, g: real)
    requires b == prev * g + contribution && prev == initial * a + contribution * s
    requires a' == a * g && s' == s * g + 1.0
    ensures b == initial * a' + contribution * s'
  {
  }

  /** The general closed form: compounded capital plus an annuity of contributions. */
  lemma {:induction false} ClosedForm(initial: real, contribution: real, factor: real, k: nat)
    ensures Balance(initial, contribution, factor, k) ==
      initial * Pow(factor, k) + contribution * GeometricSum(factor, k)
  {
    if k > 0 {
      ClosedForm(initial, contribution, factor, k - 1);
      ClosedFormStep(initial, contribution, factor, k);
    }
  }

  /** If the closed form holds for year k - 1, it holds for year k. */
  lemma ClosedFormStep(initial: real, contribution: real, factor: real, k: nat)
    requires k > 0
    requires Balance(initial, contribution, factor, k - 1) ==
      initial * Pow(factor, k - 1) + contribution * GeometricSum(factor, k - 1)
    ensures Balance(initial, contribution, factor, k) ==
      initial * Pow(factor, k) + contribution * GeometricSum(factor, k)
  {
    AnnuityStep(Balance(initial, contribution, factor, k), Balance(initial, contribution, factor, k - 1),
                initial, Pow(factor, k - 1), Pow(factor, k),
                contribution, GeometricSum(factor, k - 1), GeometricSum(factor, k), factor);
  }

  /** One step of the annuity identity: s * (g - 1) = a - 1 gives (s * g + 1) * (g - 1) = a * g - 1. */
  lemma GeometricStep(s: real, a: real, g: real)
    requires s * (g - 1.0) == a - 1.0
    ensures (s * g + 1.0) * (g - 1.0) == a * g - 1.0
  {
  }

  /** For a factor other than 1, the annuity factor is (g^k - 1) / (g - 1). */
  lemma {:induction false} GeometricSumClosedForm(factor: real, k: nat)
    ensures GeometricSum(factor, k) * (factor - 1.0) == Pow(factor, k) - 1.0
  {
    if k > 0 {
      GeometricSumClosedForm(factor, k - 1);
      GeometricStep(GeometricSum(factor, k - 1), Pow(factor, k - 1), factor);
    }
  }

  /** Running m + n years is running m years, then n more from the balance reached. */
  lemma {:induction false} BalanceRestart(initial: real, contribution: real, factor: real, m: nat, n: nat)
    ensures Balance(initial, contribution, factor, m + n) ==
      Balance(Balance(initial, contribution, factor, m), contribution, factor, n)
  {
    if n > 0 {
      BalanceRestart(initial, contribution, factor, m, n - 1);
    }
  }

  /**
   * Restarting from the balance reached after m years continues the same
   * trajectory, and the restarted list begins with that balance; fed back
   * with horizon 0, the final balance comes back unchanged.
   */
  lemma TrajectoryRestart(initial: real, contribution: real, factor: real, m: nat, n: nat)
    ensures Trajectory(initial, contribution, factor, m + n) ==
      Trajectory(initial, contribution, factor, m) +
      Trajectory(Trajectory(initial, contribution, factor, m)[m], contribution, factor, n)[1..]
    ensures Trajectory(Trajectory(initial, contribution, factor, m)[m], contribution, factor, n)[0] ==
      Trajectory(initial, contribution, factor, m + n)[m]
    ensures Trajectory(Trajectory(initial, contribution, factor, m)[m], contribution, factor, 0) ==
      [Trajectory(initial, contribution, factor, m)[m]]
  {
    var whole := Trajectory(initial, contribution, factor, m + n);
    var head := Trajectory(initial, contribution, factor, m);
    var tail := Trajectory(head[m], contribution, factor, n);
    forall j | m < j <= m + n ensures whole[j] == tail[j - m] {
      BalanceRestart(initial, contribution, factor, m, j - m);
    }
    assert whole == head + tail[1..];
  }

  /** One year never lowers a non-negative balance when the factor is at least 1. */
  lemma MonotoneStep(prev: real, contribution: real, factor: real)
    requires prev >= 0.0 && contribution >= 0.0 && factor >= 1.0
    ensures prev <= prev * factor + contribution
  {
    assert prev * factor - prev == prev * (factor - 1.0) >= 0.0;
  }

  /** Non-negative amounts and a non-negative return give balances that are non-negative and never decrease. */
  lemma {:induction false} GrowthIsMonotone(initial: real, contribution: real, factor: real, k: nat)
    requires initial >= 0.0 && contribution >= 0.0 && factor >= 1.0
    ensures Balance(initial, contribution, factor, k) >= 0.0
    ensures k > 0 ==> Balance(initial, contribution, factor, k - 1) <= Balance(initial, contribution, factor, k)
  {
    if k > 0 {
      GrowthIsMonotone(initial, contribution, factor, k - 1);
      MonotoneStep(Balance(initial, contribution, factor, k - 1), contribution, factor);
    }
  }

  /** Yearly contributions of 100 on 1000 at zero return: 1000, 1100, 1200, 1300. */
  lemma ZeroReturnExample()
    ensures Trajectory(1000.0, 100.0, 1.0 + 0.0, 3) == [1000.0, 1100.0, 1200.0, 1300.0]
  {
    var t := Trajectory(1000.0, 100.0, 1.0, 3);
    forall k | 0 <= k <= 3 ensures t[k] == 1000.0 + (k as real) * 100.0 {
      ZeroReturnIsLinear(1000.0, 100.0, k);
    }
  }

  /** One year of 10% growth on 1000 without contribution: 1000, 1100. */
  lemma CompoundingExample()
    ensures Trajectory(1000.0, 0.0, 1.0 + 0.10, 1) == [1000.0, 1100.0]
  {
  }
}
