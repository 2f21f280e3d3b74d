/** The proportional share of a mining reward, in whole units of 1e-8, rounded down. */
module RewardShares {

  /** floor8 of a reward's share: whole units, never rounded up. */
  function Share(reward: nat, hashRate: real, total: real): int
    requires total > 0.0
  {
    if reward > 0 && hashRate > 0.0 then (reward as real * (hashRate / total)).Floor else 0
  }

  function SumOf(rates: seq<real>): real {
    if rates == [] then 0.0 else SumOf(rates[..|rates| - 1]) + rates[|rates| - 1]
  }

  function SumOfShares(reward: nat, rates: seq<real>, total: real): int
    requires total > 0.0
  {
    if rates == [] then 0
    else SumOfShares(reward, rates[..|rates| - 1], total) + Share(reward, rates[|rates| - 1], total)
  }

  /** A share is never negative, and nothing without a hash rate. */
  lemma ShareNonNegative(reward: nat, rate: real, total: real)
    requires total > 0.0
    ensures Share(reward, rate, total) >= 0 && (rate <= 0.0 ==> Share(reward, rate, total) == 0)
  {
    if reward > 0 && rate > 0.0 {
      assert rate / total > 0.0;
      assert reward as real * (rate / total) >= 0.0;
    }
  }

  lemma ShareBounds(reward: nat, rate: real, total: real)
    requires total > 0.0 && rate >= 0.0
    ensures Share(reward, rate, total) as real <= reward as real * (rate / total)
            < Share(reward, rate, total) as real + 1.0
  {
    if rate == 0.0 || reward == 0 {
      assert reward as real * (rate / total) == 0.0;
    }
  }

  lemma Distributes(reward: real, a: real, b: real, total: real)
    requires total > 0.0
    ensures reward * ((a + b) / total) == reward * (a / total) + reward * (b / total)
  {
    assert (a + b) / total == a / total + b / total;
  }

  lemma {:induction false} SharesBounds(reward: nat, rates: seq<real>, total: real)
    requires total > 0.0 && forall i :: 0 <= i < |rates| ==> rates[i] >= 0.0
    ensures var exact := reward as real * (SumOf(rates) / total);
            var shares := SumOfShares(reward, rates, total) as real;
            shares <= exact <= shares + |rates| as real && (rates != [] ==> exact < shares + |rates| as real)
  {
    if rates == [] {
    } else {
      var front, last := rates[..|rates| - 1], rates[|rates| - 1];
      SharesBounds(reward, front, total);
      ShareBounds(reward, last, total);
      Distributes(reward as real, SumOf(front), last, total);
    }
  }

  /** The floored shares of all miners never exceed the reward and miss it by less than one unit each. */
  lemma SharesFillReward(reward: nat, rates: seq<real>)
    requires rates != [] && SumOf(rates) > 0.0 && forall i :: 0 <= i < |rates| ==> rates[i] >= 0.0
    ensures SumOfShares(reward, rates, SumOf(rates)) <= reward
    ensures reward < SumOfShares(reward, rates, SumOf(rates)) + |rates|
  {
    SharesBounds(reward, rates, SumOf(rates));
    assert SumOf(rates) / SumOf(rates) == 1.0;
  }
}
