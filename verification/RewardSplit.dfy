/**
 The split of one session's reward over the collators that produced blocks and their
 delegators (tools/stress/stress_token_economy_v2.py:196-230 and 378-386).
 */
module RewardSplit {
  import opened Totals
  import opened Common
  import opened ChainView

  datatype SplitError = ZeroWeight

  // ----- weights

  ghost function AmountSum(ds: seq<Delegator>): real
  {
    if ds == [] then 0.0 else AmountSum(ds[..|ds| - 1]) + ds[|ds| - 1].amount as real
  }

  lemma {:induction false} AmountSumIsZeroIff(ds: seq<Delegator>)
    ensures AmountSum(ds) >= 0.0
    ensures AmountSum(ds) == 0.0 <==> forall i :: 0 <= i < |ds| ==> ds[i].amount == 0
  {
    if ds != [] {
      AmountSumIsZeroIff(ds[..|ds| - 1]);
      assert forall i :: 0 <= i < |ds| - 1 ==> ds[..|ds| - 1][i] == ds[i];
    }
  }

  /** The weight of one pool, added up as the loop does. */
  ghost function PoolWeight(n: nat, stake: nat, ds: seq<Delegator>): real
  {
    if ds == [] then n as real * stake as real
    else PoolWeight(n, stake, ds[..|ds| - 1]) + n as real * ds[|ds| - 1].amount as real
  }

  /** A pool weighs its blocks times everything staked in it. */
  lemma {:induction false} PoolWeightMeaning(n: nat, stake: nat, ds: seq<Delegator>)
    ensures PoolWeight(n, stake, ds) == n as real * (stake as real + AmountSum(ds))
  {
    if ds != [] {
      PoolWeightMeaning(n, stake, ds[..|ds| - 1]);
    }
  }

  /** Only collators that are in the snapshot and produced blocks take part. */
  ghost function Weights(staking: Snapshot, blocks: BlockCounts): map<Address, real>
  {
    map c | c in staking && c in blocks :: PoolWeight(blocks[c], staking[c].stake, staking[c].delegators)
  }

  // ----- shares

  function CommissionOf(pool: Stake): real
  {
    pool.commission as real / 1000000.0
  }

  /** What the commission takes from the delegated amounts, added up. */
  ghost function CommissionSum(n: nat, commission: real, ds: seq<Delegator>, total: real): real
    requires total != 0.0
  {
    if ds == [] then 0.0
    else CommissionSum(n, commission, ds[..|ds| - 1], total)
         + n as real * commission * ds[|ds| - 1].amount as real / total
  }

  ghost function CollatorShare(n: nat, pool: Stake, total: real): real
    requires total != 0.0
  {
    n as real * pool.stake as real / total + CommissionSum(n, CommissionOf(pool), pool.delegators, total)
  }

  function DelegatorShare(n: nat, commission: real, amount: nat, total: real): real
    requires total != 0.0
  {
    n as real * (1.0 - commission) * amount as real / total
  }

  /** The assignments made for one pool, in order: the collator, then its first `k` delegators. */
  ghost function EntriesUpTo(c: Address, n: nat, pool: Stake, total: real, k: nat): (es: seq<(Address, real)>)
    requires total != 0.0 && k <= |pool.delegators|
    ensures |es| == k + 1
  {
    if k == 0 then [(c, CollatorShare(n, pool, total))]
    else
      var d := pool.delegators[k - 1];
      EntriesUpTo(c, n, pool, total, k - 1) + [(d.owner, DelegatorShare(n, CommissionOf(pool), d.amount, total))]
  }

  ghost function PoolEntries(c: Address, n: nat, pool: Stake, total: real): seq<(Address, real)>
    requires total != 0.0
  {
    EntriesUpTo(c, n, pool, total, |pool.delegators|)
  }

  lemma {:induction false} EntriesArePrefixes(c: Address, n: nat, pool: Stake, total: real, k: nat, i: nat)
    requires total != 0.0 && i <= k <= |pool.delegators|
    ensures EntriesUpTo(c, n, pool, total, k)[..i + 1] == EntriesUpTo(c, n, pool, total, i)
    ensures EntriesUpTo(c, n, pool, total, k)[i] ==
            if i == 0 then (c, CollatorShare(n, pool, total))
            else
              var d := pool.delegators[i - 1];
              (d.owner, DelegatorShare(n, CommissionOf(pool), d.amount, total))
  {
    if i < k { EntriesArePrefixes(c, n, pool, total, k - 1, i); }
  }

  ghost function PoolShares(c: Address, n: nat, pool: Stake, total: real): map<Address, real>
    requires total != 0.0
  {
    Filled(PoolEntries(c, n, pool, total))
  }

  type Shares = map<Address, map<Address, real>>

  ghost function AllShares(staking: Snapshot, blocks: BlockCounts, total: real): Shares
    requires total != 0.0
  {
    map c | c in staking && c in blocks :: PoolShares(c, blocks[c], staking[c], total)
  }

  ghost function PoolTotals(shares: Shares): map<Address, real>
  {
    map c | c in shares :: Total(shares[c])
  }

  /** Everything handed out, over all pools. */
  ghost function GrandTotal(shares: Shares): real
  {
    Total(PoolTotals(shares))
  }

  ghost predicate NoneTakesPart(staking: Snapshot, blocks: BlockCounts)
  {
    forall c :: c in staking ==> c !in blocks
  }

  // ----- the loops

  /** The additions caculate_total_staking_num makes for one collator. */
  method AddPool(before: real, n: nat, stake: nat, ds: seq<Delegator>) returns (total: real)
    ensures total == before + PoolWeight(n, stake, ds)
  {
    total := before + n as real * stake as real;
    for i := 0 to |ds|
      invariant total == before + PoolWeight(n, stake, ds[..i])
    {
      assert ds[..i + 1][..i] == ds[..i];
      total := total + n as real * ds[i].amount as real;
    }
    assert ds[..|ds|] == ds;
  }

  /** caculate_total_staking_num */
  method TotalStakingNum(staking: Snapshot, blocks: BlockCounts) returns (total: real)
    ensures total == Total(Weights(staking, blocks))
  {
    hide PoolWeight;
    total := 0.0;
    var todo := staking.Keys;
    ghost var done: map<Address, real> := map[];
    while todo != {}
      invariant todo <= staking.Keys
      invariant done.Keys == (staking.Keys - todo) * blocks.Keys
      invariant forall c :: c in done ==> done[c] == Weights(staking, blocks)[c]
      invariant total == Total(done)
      decreases |todo|
    {
      var c :| c in todo;
      todo := todo - {c};
      if c in blocks {
        total := AddWeight(total, staking, blocks, c);
        TotalPut(done, c, Weights(staking, blocks)[c]);
        done := done[c := Weights(staking, blocks)[c]];
      }
    }
    assert done == Weights(staking, blocks);
  }

  method AddWeight(before: real, staking: Snapshot, blocks: BlockCounts, c: Address) returns (total: real)
    requires c in staking && c in blocks
    ensures total == before + Weights(staking, blocks)[c]
  {
    total := AddPool(before, blocks[c], staking[c].stake, staking[c].delegators);
  }

  /** The sum over the delegators inside the collator's own share. */
  method CommissionTotal(n: nat, commission: real, ds: seq<Delegator>, total: real) returns (sum: real)
    requires total != 0.0
    ensures sum == CommissionSum(n, commission, ds, total)
  {
    sum := 0.0;
    for i := 0 to |ds|
      invariant sum == CommissionSum(n, commission, ds[..i], total)
    {
      assert ds[..i + 1][..i] == ds[..i];
      sum := sum + n as real * commission * ds[i].amount as real / total;
    }
    assert ds[..|ds|] == ds;
  }

  /** The assignments of calculate_total_staking_ratio for one collator. */
  method OnePool(c: Address, n: nat, pool: Stake, total: real) returns (ratio: map<Address, real>)
    requires total != 0.0
    ensures ratio == PoolShares(c, n, pool, total)
  {
    var commission, ds := CommissionOf(pool), pool.delegators;
    var sum := CommissionTotal(n, commission, ds, total);
    var own := n as real * pool.stake as real / total + sum;
    assert own == CollatorShare(n, pool, total);
    hide CollatorShare, Filled;
    ratio := map[c := own];
    OneEntry(c, own);
    for i := 0 to |ds|
      invariant ratio == Filled(EntriesUpTo(c, n, pool, total, i))
    {
      FilledAppend(EntriesUpTo(c, n, pool, total, i), ds[i].owner, DelegatorShare(n, commission, ds[i].amount, total));
      ratio := ratio[ds[i].owner := DelegatorShare(n, commission, ds[i].amount, total)];
    }
  }

  /** calculate_total_staking_ratio: the division is reached only when some collator takes part. */
  method TotalStakingRatio(staking: Snapshot, blocks: BlockCounts) returns (r: Outcome<Shares, SplitError>)
    ensures var total := Total(Weights(staking, blocks));
            if NoneTakesPart(staking, blocks) then r == Ok(map[])
            else if total == 0.0 then r == Err(ZeroWeight)
            else r == Ok(AllShares(staking, blocks, total))
  {
    var total := TotalStakingNum(staking, blocks);
    r := SplitBy(staking, blocks, total);
  }

  method SplitBy(staking: Snapshot, blocks: BlockCounts, total: real) returns (r: Outcome<Shares, SplitError>)
    ensures if NoneTakesPart(staking, blocks) then r == Ok(map[])
            else if total == 0.0 then r == Err(ZeroWeight)
            else r == Ok(AllShares(staking, blocks, total))
  {
    hide PoolShares, Total;
    var shares: Shares := map[];
    var todo := staking.Keys;
    while todo != {}
      invariant todo <= staking.Keys
      invariant forall c :: c in shares <==> c in staking && c !in todo && c in blocks
      invariant total == 0.0 ==> shares == map[]
      invariant forall c :: c in shares ==> shares[c] == AllShares(staking, blocks, total)[c]
      decreases |todo|
    {
      var c :| c in todo;
      todo := todo - {c};
      if c in blocks {
        if total == 0.0 {
          return Err(ZeroWeight);
        }
        var ratio := RatioOf(staking, blocks, total, c);
        shares := shares[c := ratio];
      }
    }
    r := Ok(shares);
    if total != 0.0 {
      assert shares == AllShares(staking, blocks, total);
    }
  }

  method RatioOf(staking: Snapshot, blocks: BlockCounts, total: real, c: Address) returns (ratio: map<Address, real>)
    requires total != 0.0 && c in staking && c in blocks
    ensures ratio == AllShares(staking, blocks, total)[c]
  {
    ratio := OnePool(c, blocks[c], staking[c], total);
  }

  ghost function Rewards(shares: Shares, reward: real): Shares
  {
    map c | c in shares :: Scaled(shares[c], reward)
  }

  method ScaleAll(shares: map<Address, real>, reward: real) returns (info: map<Address, real>)
    ensures info == Scaled(shares, reward)
  {
    info := map[];
    var todo := shares.Keys;
    while todo != {}
      invariant todo <= shares.Keys
      invariant info.Keys == shares.Keys - todo
      invariant forall a :: a in info ==> info[a] == Portion(shares[a], reward)
      decreases |todo|
    {
      var a :| a in todo;
      todo := todo - {a};
      info := info[a := Portion(shares[a], reward)];
    }
    assert info == Scaled(shares, reward);
  }

  /** What calculate_reward returns: the division by zero is reached only if some collator takes part. */
  ghost function Calculated(reward: real, staking: Snapshot, blocks: BlockCounts): Outcome<Shares, SplitError>
  {
    var total := Total(Weights(staking, blocks));
    if NoneTakesPart(staking, blocks) then Ok(map[])
    else if total == 0.0 then Err(ZeroWeight)
    else Ok(Rewards(AllShares(staking, blocks, total), reward))
  }

  /** calculate_reward */
  method CalculateReward(reward: real, staking: Snapshot, blocks: BlockCounts) returns (r: Outcome<Shares, SplitError>)
    ensures r == Calculated(reward, staking, blocks)
  {
    hide AllShares, Weights;
    var ratio := TotalStakingRatio(staking, blocks);
    if ratio.Err? { return Err(ratio.error); }
    var rewards := ScaleShares(ratio.value, reward);
    r := Ok(rewards);
  }

  method ScaleShares(shares: Shares, reward: real) returns (out: Shares)
    ensures out == Rewards(shares, reward)
  {
    out := map[];
    var todo := shares.Keys;
    while todo != {}
      invariant todo <= shares.Keys
      invariant out.Keys == shares.Keys - todo
      invariant forall c :: c in out ==> out[c] == Scaled(shares[c], reward)
      decreases |todo|
    {
      var c :| c in todo;
      todo := todo - {c};
      var info := ScaleAll(shares[c], reward);
      out := out[c := info];
    }
    assert out == Rewards(shares, reward);
  }
}
