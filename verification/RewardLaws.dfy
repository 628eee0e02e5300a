/**
 What the reward split promises: it hands out the whole reward exactly when no share of value
 is overwritten (tools/stress/stress_token_economy_v2.py:196-230 and 378-386).
 */
module RewardLaws {
  import opened Totals
  import opened Common
  import opened ChainView
  import opened RewardSplit

  // ----- one pool

  /** The sum of `f` over the delegated amounts. */
  ghost function SumOver(f: real -> real, ds: seq<Delegator>): real
  {
    if ds == [] then 0.0 else SumOver(f, ds[..|ds| - 1]) + f(ds[|ds| - 1].amount as real)
  }

  /** What an amount earns the pool; the next two are how the commission divides that. */
  function Earned(n: nat, total: real): real -> real
    requires total != 0.0
  {
    amount => n as real * amount / total
  }

  function Commissioned(n: nat, commission: real, total: real): real -> real
    requires total != 0.0
  {
    amount => n as real * commission * amount / total
  }

  function Kept(n: nat, commission: real, total: real): real -> real
    requires total != 0.0
  {
    amount => n as real * (1.0 - commission) * amount / total
  }

  lemma QuotientsAdd(x: real, y: real, total: real)
    requires total != 0.0
    ensures x / total + y / total == (x + y) / total
  {
  }

  /** An amount earns in proportion; what the commission takes and what it leaves add up to that. */
  lemma EarningsSplit(n: nat, commission: real, total: real)
    requires total != 0.0
    ensures Additive(Earned(n, total))
    ensures forall x :: Commissioned(n, commission, total)(x) + Kept(n, commission, total)(x) == Earned(n, total)(x)
  {
    forall p, q {:trigger Plus(p, q)}
      ensures Earned(n, total)(Plus(p, q)) == Earned(n, total)(p) + Earned(n, total)(q)
    {
      QuotientsAdd(n as real * p, n as real * q, total);
    }
    forall x
      ensures Commissioned(n, commission, total)(x) + Kept(n, commission, total)(x) == Earned(n, total)(x)
    {
      QuotientsAdd(n as real * commission * x, n as real * (1.0 - commission) * x, total);
    }
  }

  lemma {:induction false} SumsSplit(f: real -> real, g: real -> real, h: real -> real, ds: seq<Delegator>)
    requires forall x :: f(x) + g(x) == h(x)
    requires Additive(h)
    ensures SumOver(f, ds) + SumOver(g, ds) == h(AmountSum(ds))
  {
    if ds != [] {
      var init := ds[..|ds| - 1];
      SumsSplit(f, g, h, init);
      assert Plus(AmountSum(init), ds[|ds| - 1].amount as real) == AmountSum(ds);
    }
  }

  lemma {:induction false} CommissionIsSum(n: nat, commission: real, ds: seq<Delegator>, total: real)
    requires total != 0.0
    ensures CommissionSum(n, commission, ds, total) == SumOver(Commissioned(n, commission, total), ds)
  {
    if ds != [] { CommissionIsSum(n, commission, ds[..|ds| - 1], total); }
  }

  lemma {:induction false} EntriesUpToSum(c: Address, n: nat, pool: Stake, total: real, k: nat)
    requires total != 0.0 && k <= |pool.delegators|
    ensures EntrySum(EntriesUpTo(c, n, pool, total, k))
            == CollatorShare(n, pool, total) + SumOver(Kept(n, CommissionOf(pool), total), pool.delegators[..k])
  {
    hide CollatorShare, CommissionOf, DelegatorShare, Kept;
    var es := EntriesUpTo(c, n, pool, total, k);
    if k == 0 {
      assert es[..0] == [];
    } else {
      EntriesUpToSum(c, n, pool, total, k - 1);
      assert es[..|es| - 1] == EntriesUpTo(c, n, pool, total, k - 1);
      assert pool.delegators[..k][..k - 1] == pool.delegators[..k - 1];
      ShareIsKept(n, CommissionOf(pool), pool.delegators[k - 1].amount, total);
    }
  }

  lemma ShareIsKept(n: nat, commission: real, amount: nat, total: real)
    requires total != 0.0
    ensures DelegatorShare(n, commission, amount, total) == Kept(n, commission, total)(amount as real)
  {
  }

  lemma PoolEntryParts(c: Address, n: nat, pool: Stake, total: real)
    requires total != 0.0
    ensures var earned := Earned(n, total);
            EntrySum(PoolEntries(c, n, pool, total)) == earned(pool.stake as real) + earned(AmountSum(pool.delegators))
  {
    var ds, commission := pool.delegators, CommissionOf(pool);
    assert CollatorShare(n, pool, total)
        == Earned(n, total)(pool.stake as real) + CommissionSum(n, commission, ds, total);
    hide Earned, Commissioned, Kept, CollatorShare, CommissionOf, SumOver, CommissionSum;
    EntriesUpToSum(c, n, pool, total, |ds|);
    assert ds[..|ds|] == ds;
    CommissionIsSum(n, commission, ds, total);
    EarningsSplit(n, commission, total);
    SumsSplit(Commissioned(n, commission, total), Kept(n, commission, total), Earned(n, total), ds);
  }

  /** The assignments for a pool add up to its part of the total weight, whatever its commission. */
  lemma PoolEntrySum(c: Address, n: nat, pool: Stake, total: real)
    requires total != 0.0
    ensures EntrySum(PoolEntries(c, n, pool, total)) == PoolWeight(n, pool.stake, pool.delegators) / total
  {
    hide PoolEntries, EntrySum, PoolWeight, AmountSum;
    var amounts := AmountSum(pool.delegators);
    PoolEntryParts(c, n, pool, total);
    PoolWeightMeaning(n, pool.stake, pool.delegators);
    QuotientsAdd(n as real * pool.stake as real, n as real * amounts, total);
    assert n as real * pool.stake as real + n as real * amounts == n as real * (pool.stake as real + amounts);
  }

  // ----- all pools

  ghost function Losses(staking: Snapshot, blocks: BlockCounts, total: real): map<Address, real>
    requires total != 0.0
  {
    map c | c in staking && c in blocks :: Overwritten(PoolEntries(c, blocks[c], staking[c], total))
  }

  lemma PartsOfAWhole(weights: map<Address, real>)
    requires Total(weights) != 0.0
    ensures Total(Scaled(weights, 1.0 / Total(weights))) == 1.0
  {
    TotalScaled(weights, 1.0 / Total(weights));
  }

  lemma QuotientIsPortion(a: real, b: real)
    requires b != 0.0
    ensures a / b == Portion(a, 1.0 / b)
  {
  }

  /** The shares of one pool are its part of the weight less what its own entries overwrite. */
  lemma PoolTotal(c: Address, n: nat, pool: Stake, total: real)
    requires total != 0.0
    ensures Total(PoolShares(c, n, pool, total))
            == PoolWeight(n, pool.stake, pool.delegators) / total - Overwritten(PoolEntries(c, n, pool, total))
  {
    PoolEntrySum(c, n, pool, total);
    FilledTotal(PoolEntries(c, n, pool, total));
  }

  /** Everything handed out is the whole, less everything overwritten. */
  lemma SharesPlusLosses(staking: Snapshot, blocks: BlockCounts)
    requires Total(Weights(staking, blocks)) != 0.0
    ensures var total := Total(Weights(staking, blocks));
            GrandTotal(AllShares(staking, blocks, total)) == 1.0 - Total(Losses(staking, blocks, total))
  {
    hide PoolShares, PoolEntries, Overwritten, PoolWeight;
    var weights := Weights(staking, blocks);
    var total := Total(weights);
    var shares, losses := AllShares(staking, blocks, total), Losses(staking, blocks, total);
    var parts := Scaled(weights, 1.0 / total);
    forall c | c in shares
      ensures PoolTotals(shares)[c] == parts[c] - losses[c]
    {
      PoolTotal(c, blocks[c], staking[c], total);
      QuotientIsPortion(weights[c], total);
    }
    TotalMinus(PoolTotals(shares), parts, losses);
    PartsOfAWhole(weights);
  }

  // ----- when nothing of value is overwritten

  /**
   What a caller can read off the snapshot: a collator that also delegates to itself has
   nothing of its own to lose, and a repeated delegator's earlier entries are worth nothing.
   */
  ghost predicate PoolKeepsShares(c: Address, n: nat, pool: Stake)
  {
    var ds := pool.delegators;
    n != 0 ==>
    && ((exists i :: 0 <= i < |ds| && ds[i].owner == c) ==>
          pool.stake == 0 && (pool.commission == 0 || forall i :: 0 <= i < |ds| ==> ds[i].amount == 0))
    && (forall i, j :: 0 <= i < j < |ds| && ds[i].owner == ds[j].owner ==>
          ds[i].amount == 0 || pool.commission == 1_000_000)
  }

  ghost predicate KeepsShares(staking: Snapshot, blocks: BlockCounts)
  {
    forall c :: c in staking && c in blocks ==> PoolKeepsShares(c, blocks[c], staking[c])
  }

  lemma ProductZeroIff(a: real, b: real)
    ensures a * b == 0.0 <==> a == 0.0 || b == 0.0
  {
    if a != 0.0 && a * b == 0.0 {
      assert b == a * b / a;
    }
  }

  lemma DelegatorShareZeroIff(n: nat, commission: Permill, amount: nat, total: real)
    requires total > 0.0
    ensures var share := DelegatorShare(n, commission as real / 1000000.0, amount, total);
            share >= 0.0 && (share == 0.0 <==> n == 0 || commission == 1_000_000 || amount == 0)
  {
    var keep := 1.0 - commission as real / 1000000.0;
    ProductZeroIff(n as real, keep);
    ProductZeroIff(n as real * keep, amount as real);
  }

  lemma CommissionEarns(n: nat, commission: real, total: real)
    requires total != 0.0
    ensures Additive(Commissioned(n, commission, total))
  {
    var f := Commissioned(n, commission, total);
    forall p, q {:trigger Plus(p, q)}
      ensures f(Plus(p, q)) == f(p) + f(q)
    {
      QuotientsAdd(n as real * commission * p, n as real * commission * q, total);
    }
  }

  lemma {:induction false} SumOfAdditive(f: real -> real, ds: seq<Delegator>)
    requires Additive(f)
    ensures SumOver(f, ds) == f(AmountSum(ds))
  {
    if ds != [] {
      var init := ds[..|ds| - 1];
      SumOfAdditive(f, init);
      assert Plus(AmountSum(init), ds[|ds| - 1].amount as real) == AmountSum(ds);
    }
  }

  /** The collator's share in closed form: its stake, and its commission on everything delegated. */
  lemma CollatorShareMeaning(n: nat, pool: Stake, total: real)
    requires total != 0.0
    ensures CollatorShare(n, pool, total)
            == n as real * (pool.stake as real + CommissionOf(pool) * AmountSum(pool.delegators)) / total
  {
    hide AmountSum, SumOver, CommissionOf, CommissionSum;
    var commission, amounts := CommissionOf(pool), AmountSum(pool.delegators);
    CommissionEarns(n, commission, total);
    SumOfAdditive(Commissioned(n, commission, total), pool.delegators);
    CommissionIsSum(n, commission, pool.delegators, total);
    QuotientsAdd(n as real * pool.stake as real, n as real * commission * amounts, total);
    assert n as real * pool.stake as real + n as real * commission * amounts
        == n as real * (pool.stake as real + commission * amounts);
  }

  lemma CollatorShareZeroIff(n: nat, pool: Stake, total: real)
    requires total > 0.0
    ensures CollatorShare(n, pool, total) >= 0.0
    ensures CollatorShare(n, pool, total) == 0.0 <==>
            n == 0 || (pool.stake == 0 && (pool.commission == 0 ||
              forall i :: 0 <= i < |pool.delegators| ==> pool.delegators[i].amount == 0))
  {
    var commission, amounts := CommissionOf(pool), AmountSum(pool.delegators);
    CollatorShareMeaning(n, pool, total);
    AmountSumIsZeroIff(pool.delegators);
    ProductZeroIff(commission, amounts);
    assert commission * amounts >= 0.0;
    ProductZeroIff(n as real, pool.stake as real + commission * amounts);
  }

  lemma PoolLosesNothingIff(c: Address, n: nat, pool: Stake, total: real)
    requires total > 0.0
    ensures Overwritten(PoolEntries(c, n, pool, total)) >= 0.0
    ensures Overwritten(PoolEntries(c, n, pool, total)) == 0.0 <==> PoolKeepsShares(c, n, pool)
  {
    var es, ds := PoolEntries(c, n, pool, total), pool.delegators;
    EntriesArePrefixes(c, n, pool, total, |ds|, 0);
    CollatorShareZeroIff(n, pool, total);
    forall i | 1 <= i < |es|
      ensures es[i].0 == ds[i - 1].owner && es[i].1 >= 0.0
      ensures es[i].1 == 0.0 <==> n == 0 || pool.commission == 1_000_000 || ds[i - 1].amount == 0
    {
      EntriesArePrefixes(c, n, pool, total, |ds|, i);
      DelegatorShareZeroIff(n, pool.commission, ds[i - 1].amount, total);
    }
    EntriesKeepIff(c, n, pool, es);
    OverwrittenZeroIff(es);
  }

  /** The condition on the snapshot is the condition on the entries. */
  lemma EntriesKeepIff(c: Address, n: nat, pool: Stake, es: seq<(Address, real)>)
    requires |es| == |pool.delegators| + 1 && es[0].0 == c
    requires forall i :: 1 <= i < |es| ==> es[i].0 == pool.delegators[i - 1].owner
    requires es[0].1 == 0.0 <==>
             n == 0 || (pool.stake == 0 && (pool.commission == 0 ||
               forall i :: 0 <= i < |pool.delegators| ==> pool.delegators[i].amount == 0))
    requires forall i :: 1 <= i < |es| ==>
               (es[i].1 == 0.0 <==> n == 0 || pool.commission == 1_000_000 || pool.delegators[i - 1].amount == 0)
    ensures PoolKeepsShares(c, n, pool) <==>
            forall i, j :: 0 <= i < j < |es| && es[i].0 == es[j].0 ==> es[i].1 == 0.0
  {
    var ds := pool.delegators;
    if forall i, j :: 0 <= i < j < |es| && es[i].0 == es[j].0 ==> es[i].1 == 0.0 {
      if i :| 0 <= i < |ds| && ds[i].owner == c {
        assert es[i + 1].0 == es[0].0;
      }
      forall i, j | 0 <= i < j < |ds| && ds[i].owner == ds[j].owner && n != 0
        ensures ds[i].amount == 0 || pool.commission == 1_000_000
      {
        assert es[i + 1].0 == es[j + 1].0;
      }
    }
    if PoolKeepsShares(c, n, pool) {
      forall i, j | 0 <= i < j < |es| && es[i].0 == es[j].0
        ensures es[i].1 == 0.0
      {
        assert es[j].0 == ds[j - 1].owner;
        if i > 0 {
          assert es[i].0 == ds[i - 1].owner;
        }
      }
    }
  }

  /**
   Conservation of shares: over all collators and delegators they sum to exactly 1 if and only
   if no pool overwrites a share of value.
   */
  lemma SharesSumToOneIff(staking: Snapshot, blocks: BlockCounts)
    requires Total(Weights(staking, blocks)) > 0.0
    ensures var sum := GrandTotal(AllShares(staking, blocks, Total(Weights(staking, blocks))));
            sum <= 1.0 && (sum == 1.0 <==> KeepsShares(staking, blocks))
  {
    var total := Total(Weights(staking, blocks));
    var losses := Losses(staking, blocks, total);
    SharesPlusLosses(staking, blocks);
    forall c | c in losses
      ensures losses[c] >= 0.0 && (losses[c] == 0.0 <==> PoolKeepsShares(c, blocks[c], staking[c]))
    {
      PoolLosesNothingIff(c, blocks[c], staking[c], total);
    }
    TotalZeroIff(losses);
    assert forall c :: c in losses <==> c in staking && c in blocks;
  }

  lemma PoolRewardTotal(pool: map<Address, real>, reward: real)
    ensures Total(Scaled(pool, reward)) == Portion(Total(pool), reward)
  {
    TotalScaled(pool, reward);
  }

  /** Scaling every share scales the grand total. */
  lemma RewardsScaleShares(shares: Shares, reward: real)
    ensures GrandTotal(Rewards(shares, reward)) == GrandTotal(shares) * reward
  {
    hide Total;
    var rewards := Rewards(shares, reward);
    assert PoolTotals(rewards) == Scaled(PoolTotals(shares), reward) by {
      forall c | c in shares
        ensures Total(rewards[c]) == Portion(Total(shares[c]), reward)
      {
        PoolRewardTotal(shares[c], reward);
        assert rewards[c] == Scaled(shares[c], reward);
      }
    }
    TotalScaled(PoolTotals(shares), reward);
  }

  lemma PortionOfReward(shares: Shares, reward: real, whole: bool)
    requires reward > 0.0
    requires GrandTotal(shares) <= 1.0 && (GrandTotal(shares) == 1.0 <==> whole)
    ensures GrandTotal(Rewards(shares, reward)) <= reward
    ensures GrandTotal(Rewards(shares, reward)) == reward <==> whole
  {
    var sum := GrandTotal(shares);
    RewardsScaleShares(shares, reward);
    ProductZeroIff(1.0 - sum, reward);
    assert (1.0 - sum) * reward == reward - sum * reward;
  }

  /** Conservation of reward: calculate_reward hands out exactly the session's reward. */
  lemma RewardIsConservedIff(staking: Snapshot, blocks: BlockCounts, reward: real)
    requires Total(Weights(staking, blocks)) > 0.0 && reward > 0.0
    ensures var sum := GrandTotal(Rewards(AllShares(staking, blocks, Total(Weights(staking, blocks))), reward));
            sum <= reward && (sum == reward <==> KeepsShares(staking, blocks))
  {
    SharesSumToOneIff(staking, blocks);
    PortionOfReward(AllShares(staking, blocks, Total(Weights(staking, blocks))), reward, KeepsShares(staking, blocks));
  }

  // ----- when there is nothing to divide by

  lemma PoolWeightZeroIff(n: nat, pool: Stake)
    ensures var weight := PoolWeight(n, pool.stake, pool.delegators);
            && weight >= 0.0
            && (weight == 0.0 <==>
                n == 0 || (pool.stake == 0 && forall i :: 0 <= i < |pool.delegators| ==>
                             pool.delegators[i].amount == 0))
  {
    PoolWeightMeaning(n, pool.stake, pool.delegators);
    AmountSumIsZeroIff(pool.delegators);
    ProductZeroIff(n as real, pool.stake as real + AmountSum(pool.delegators));
  }

  /**
   calculate_reward divides by zero exactly when somebody takes part, but nobody who does has both
   blocks and stake.  When nobody takes part it gives nothing to anybody, and no error.
   */
  lemma DivisionByZeroIff(reward: real, staking: Snapshot, blocks: BlockCounts)
    ensures Calculated(reward, staking, blocks).Err? <==>
            && (exists c :: c in staking && c in blocks)
            && forall c :: c in staking && c in blocks ==>
                 blocks[c] == 0 || (staking[c].stake == 0 && forall i :: 0 <= i < |staking[c].delegators| ==>
                                      staking[c].delegators[i].amount == 0)
    ensures (forall c :: c in staking ==> c !in blocks) ==> Calculated(reward, staking, blocks) == Ok(map[])
  {
    hide PoolWeight, Total, Rewards, AllShares;
    var weights := Weights(staking, blocks);
    forall c | c in weights
      ensures weights[c] >= 0.0
      ensures weights[c] == 0.0 <==>
              blocks[c] == 0 || (staking[c].stake == 0 && forall i :: 0 <= i < |staking[c].delegators| ==>
                                   staking[c].delegators[i].amount == 0)
    {
      PoolWeightZeroIff(blocks[c], staking[c]);
    }
    TotalZeroIff(weights);
    assert forall c :: c in weights <==> c in staking && c in blocks;
  }
}
