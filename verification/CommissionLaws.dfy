/**
 A commission only moves reward inside a pool (tools/stress/stress_token_economy_v2.py:200-216;
 the behaviour tests/delegator_issue_test.py:195-213 and 238-264 rely on).
 */
module CommissionLaws {
  import opened Totals
  import opened ChainView
  import opened RewardSplit
  import opened RewardLaws

  /** The collator and its delegators are all different accounts. */
  ghost predicate DistinctPayees(c: Address, pool: Stake)
  {
    && (forall i :: 0 <= i < |pool.delegators| ==> pool.delegators[i].owner != c)
    && (forall i, j :: 0 <= i < j < |pool.delegators| ==> pool.delegators[i].owner != pool.delegators[j].owner)
  }

  /** With distinct payees every assignment survives. */
  lemma DistinctPoolShares(c: Address, n: nat, pool: Stake, total: real)
    requires total != 0.0
    requires DistinctPayees(c, pool)
    ensures var shares := PoolShares(c, n, pool, total);
            && c in shares && shares[c] == CollatorShare(n, pool, total)
            && (forall i :: 0 <= i < |pool.delegators| ==>
                  && pool.delegators[i].owner in shares
                  && shares[pool.delegators[i].owner]
                     == DelegatorShare(n, CommissionOf(pool), pool.delegators[i].amount, total))
            && Overwritten(PoolEntries(c, n, pool, total)) == 0.0
  {
    hide CollatorShare, DelegatorShare, CommissionOf, Overwritten, Filled;
    var es, ds := PoolEntries(c, n, pool, total), pool.delegators;
    forall i | 1 <= i < |es|
      ensures es[i] == (ds[i - 1].owner, DelegatorShare(n, CommissionOf(pool), ds[i - 1].amount, total))
    {
      EntriesArePrefixes(c, n, pool, total, |ds|, i);
    }
    EntriesArePrefixes(c, n, pool, total, |ds|, 0);
    DistinctLosesNothing(es);
    forall i | 0 <= i < |ds|
      ensures ds[i].owner in Filled(es)
      ensures Filled(es)[ds[i].owner] == DelegatorShare(n, CommissionOf(pool), ds[i].amount, total)
    {
      assert es[i + 1].0 == ds[i].owner;
    }
  }

  lemma ProductMono(a: real, x: real, y: real)
    requires a >= 0.0 && x <= y
    ensures a * x <= a * y
  {
    assert a * (y - x) >= 0.0;
  }

  lemma QuotientMono(x: real, y: real, total: real)
    requires total > 0.0 && x <= y
    ensures x / total <= y / total
  {
    QuotientsAdd(x, y - x, total);
  }

  lemma CollatorShareMono(n: nat, pool: Stake, raised: Stake, total: real)
    requires total > 0.0
    requires raised.stake == pool.stake && raised.delegators == pool.delegators
    requires pool.commission <= raised.commission
    ensures CollatorShare(n, pool, total) <= CollatorShare(n, raised, total)
  {
    hide CollatorShare, AmountSum;
    var amounts, stake := AmountSum(pool.delegators), pool.stake as real;
    AmountSumIsZeroIff(pool.delegators);
    CollatorShareMeaning(n, pool, total);
    CollatorShareMeaning(n, raised, total);
    ProductMono(amounts, CommissionOf(pool), CommissionOf(raised));
    ProductMono(n as real, stake + CommissionOf(pool) * amounts, stake + CommissionOf(raised) * amounts);
    QuotientMono(n as real * (stake + CommissionOf(pool) * amounts),
                 n as real * (stake + CommissionOf(raised) * amounts), total);
  }

  lemma DelegatorShareMono(n: nat, low: real, high: real, amount: nat, total: real)
    requires total > 0.0 && low <= high
    ensures DelegatorShare(n, high, amount, total) <= DelegatorShare(n, low, amount, total)
  {
    ProductMono(n as real, 1.0 - high, 1.0 - low);
    ProductMono(amount as real, n as real * (1.0 - high), n as real * (1.0 - low));
    QuotientMono(n as real * (1.0 - high) * amount as real, n as real * (1.0 - low) * amount as real, total);
  }

  lemma PoolTotalIgnoresCommission(c: Address, n: nat, pool: Stake, total: real)
    requires total != 0.0
    requires DistinctPayees(c, pool)
    ensures Total(PoolShares(c, n, pool, total)) == PoolWeight(n, pool.stake, pool.delegators) / total
  {
    hide PoolShares, PoolEntries, Overwritten, PoolWeight;
    PoolTotal(c, n, pool, total);
    DistinctPoolShares(c, n, pool, total);
  }

  /** Raising the commission leaves the pool's total alone, never costs the collator and never pays a delegator. */
  lemma RaisingCommission(c: Address, n: nat, pool: Stake, raised: Stake, total: real)
    requires total > 0.0
    requires DistinctPayees(c, pool)
    requires raised.stake == pool.stake && raised.delegators == pool.delegators
    requires pool.commission <= raised.commission
    ensures var before, after := PoolShares(c, n, pool, total), PoolShares(c, n, raised, total);
            && Total(after) == Total(before)
            && c in before && c in after && before[c] <= after[c]
            && forall i :: 0 <= i < |pool.delegators| ==>
                 var d := pool.delegators[i].owner;
                 d in before && d in after && after[d] <= before[d]
  {
    hide PoolShares, CollatorShare, DelegatorShare, Total, PoolWeight, PoolEntries;
    PoolTotalIgnoresCommission(c, n, pool, total);
    PoolTotalIgnoresCommission(c, n, raised, total);
    DistinctPoolShares(c, n, pool, total);
    DistinctPoolShares(c, n, raised, total);
    CollatorShareMono(n, pool, raised, total);
    forall i | 0 <= i < |pool.delegators|
      ensures DelegatorShare(n, CommissionOf(raised), pool.delegators[i].amount, total)
           <= DelegatorShare(n, CommissionOf(pool), pool.delegators[i].amount, total)
    {
      DelegatorShareMono(n, CommissionOf(pool), CommissionOf(raised), pool.delegators[i].amount, total);
    }
  }

  // ----- payees that repeat

  /** The delegated amounts as assignments, and what is left of them: each account's last amount. */
  ghost function Delegated(ds: seq<Delegator>): seq<(Address, real)>
  {
    if ds == [] then []
    else
      var d := ds[|ds| - 1];
      Delegated(ds[..|ds| - 1]) + [(d.owner, d.amount as real)]
  }

  lemma KeptAdds(n: nat, commission: real, total: real, x: real, y: real)
    requires total != 0.0
    ensures var f := Kept(n, commission, total); f(0.0) == 0.0 && f(x + y) == f(x) + f(y)
  {
    QuotientsAdd(n as real * (1.0 - commission) * x, n as real * (1.0 - commission) * y, total);
  }

  /**
   The dictionary of a pool after its first `k` delegators: a delegator has what is kept of its
   last amount, and so has a collator that delegates to itself, its own share being overwritten.
   */
  ghost predicate SharesByAmount(c: Address, n: nat, pool: Stake, total: real, k: nat)
    requires total != 0.0 && k <= |pool.delegators|
  {
    var shares, amounts := Filled(EntriesUpTo(c, n, pool, total, k)), Filled(Delegated(pool.delegators[..k]));
    && shares.Keys == amounts.Keys + {c}
    && (forall a :: a in amounts ==> shares[a] == Kept(n, CommissionOf(pool), total)(amounts[a]))
    && (c !in amounts ==> shares[c] == CollatorShare(n, pool, total))
  }

  ghost function SelfLoss(c: Address, n: nat, pool: Stake, total: real, k: nat): real
    requires total != 0.0 && k <= |pool.delegators|
  {
    if c in Filled(Delegated(pool.delegators[..k])) then CollatorShare(n, pool, total) else 0.0
  }

  /** One more delegator: its assignment, and the same in amounts. */
  lemma OneDelegatorMore(c: Address, n: nat, pool: Stake, total: real, k: nat)
    requires total != 0.0 && 0 < k <= |pool.delegators|
    ensures var d, f := pool.delegators[k - 1], Kept(n, CommissionOf(pool), total);
            && EntriesUpTo(c, n, pool, total, k)
               == EntriesUpTo(c, n, pool, total, k - 1) + [(d.owner, f(d.amount as real))]
            && Delegated(pool.delegators[..k])
               == Delegated(pool.delegators[..k - 1]) + [(d.owner, d.amount as real)]
  {
    hide CommissionOf, Kept, DelegatorShare;
    assert pool.delegators[..k][..k - 1] == pool.delegators[..k - 1];
    ShareIsKept(n, CommissionOf(pool), pool.delegators[k - 1].amount, total);
  }

  lemma {:induction false} SharesAreByAmount(c: Address, n: nat, pool: Stake, total: real, k: nat)
    requires total != 0.0 && k <= |pool.delegators|
    ensures SharesByAmount(c, n, pool, total, k)
  {
    if k == 0 {
      OneEntry(c, CollatorShare(n, pool, total));
    } else {
      hide CollatorShare, CommissionOf, Kept, Filled, EntriesUpTo, Delegated;
      var d, f := pool.delegators[k - 1], Kept(n, CommissionOf(pool), total);
      SharesAreByAmount(c, n, pool, total, k - 1);
      OneDelegatorMore(c, n, pool, total, k);
      FilledAppend(EntriesUpTo(c, n, pool, total, k - 1), d.owner, f(d.amount as real));
      FilledAppend(Delegated(pool.delegators[..k - 1]), d.owner, d.amount as real);
    }
  }

  /** What one more delegator overwrites: what is kept of its amount before, or the collator's own share. */
  lemma OneLossMore(c: Address, n: nat, pool: Stake, total: real, k: nat)
    requires total != 0.0 && 0 < k <= |pool.delegators|
    ensures var owner, f := pool.delegators[k - 1].owner, Kept(n, CommissionOf(pool), total);
            var shares := Filled(EntriesUpTo(c, n, pool, total, k - 1));
            var amounts := Filled(Delegated(pool.delegators[..k - 1]));
            (if owner in shares then shares[owner] else 0.0)
            == SelfLoss(c, n, pool, total, k) - SelfLoss(c, n, pool, total, k - 1)
               + f(if owner in amounts then amounts[owner] else 0.0)
  {
    hide CollatorShare, CommissionOf, Kept, Filled, EntriesUpTo, Delegated;
    var d, amounts := pool.delegators[k - 1], Delegated(pool.delegators[..k - 1]);
    SharesAreByAmount(c, n, pool, total, k - 1);
    OneDelegatorMore(c, n, pool, total, k);
    FilledAppend(amounts, d.owner, d.amount as real);
    KeptAdds(n, CommissionOf(pool), total, 0.0, 0.0);
  }

  lemma NoLossYet(c: Address, n: nat, pool: Stake, total: real)
    requires total != 0.0
    ensures Overwritten(EntriesUpTo(c, n, pool, total, 0)) == 0.0 == Overwritten(Delegated(pool.delegators[..0]))
    ensures SelfLoss(c, n, pool, total, 0) == 0.0
  {
    hide CollatorShare;
    assert EntriesUpTo(c, n, pool, total, 0)[..0] == [];
    assert Filled(EntriesUpTo(c, n, pool, total, 0)[..0]) == map[];
  }

  lemma {:induction false} LossesByAmount(c: Address, n: nat, pool: Stake, total: real, k: nat)
    requires total != 0.0 && k <= |pool.delegators|
    ensures Overwritten(EntriesUpTo(c, n, pool, total, k))
            == SelfLoss(c, n, pool, total, k)
               + Kept(n, CommissionOf(pool), total)(Overwritten(Delegated(pool.delegators[..k])))
  {
    hide CollatorShare, CommissionOf, Kept, Filled, EntriesUpTo, Delegated, Overwritten, SelfLoss;
    if k == 0 {
      NoLossYet(c, n, pool, total);
      KeptAdds(n, CommissionOf(pool), total, 0.0, 0.0);
    } else {
      var d, f := pool.delegators[k - 1], Kept(n, CommissionOf(pool), total);
      var es, amounts := EntriesUpTo(c, n, pool, total, k - 1), Delegated(pool.delegators[..k - 1]);
      LossesByAmount(c, n, pool, total, k - 1);
      OneDelegatorMore(c, n, pool, total, k);
      OneLossMore(c, n, pool, total, k);
      OverwrittenAppend(es, d.owner, f(d.amount as real));
      OverwrittenAppend(amounts, d.owner, d.amount as real);
      KeptAdds(n, CommissionOf(pool), total, Overwritten(amounts),
               if d.owner in Filled(amounts) then Filled(amounts)[d.owner] else 0.0);
    }
  }

  // ----- the pool's total under another commission

  /** The amounts that a later delegation of the same account replaces. */
  ghost function Repeated(ds: seq<Delegator>): real
  {
    Overwritten(Delegated(ds))
  }

  ghost predicate DelegatesToItself(c: Address, ds: seq<Delegator>)
  {
    exists i :: 0 <= i < |ds| && ds[i].owner == c
  }

  ghost function SelfDelegated(c: Address, ds: seq<Delegator>): real
  {
    if DelegatesToItself(c, ds) then AmountSum(ds) else 0.0
  }

  lemma {:induction false} DelegatedMeaning(ds: seq<Delegator>)
    ensures |Delegated(ds)| == |ds|
    ensures forall i :: 0 <= i < |ds| ==> Delegated(ds)[i] == (ds[i].owner, ds[i].amount as real)
  {
    if ds != [] {
      var init := ds[..|ds| - 1];
      DelegatedMeaning(init);
      assert Delegated(ds)[..|ds| - 1] == Delegated(init);
      assert forall i :: 0 <= i < |init| ==> init[i] == ds[i];
    }
  }

  lemma {:induction false} DelegatedSum(ds: seq<Delegator>)
    ensures EntrySum(Delegated(ds)) == AmountSum(ds)
  {
    if ds != [] {
      DelegatedSum(ds[..|ds| - 1]);
      assert Delegated(ds)[..|Delegated(ds)| - 1] == Delegated(ds[..|ds| - 1]);
    }
  }

  lemma SelfLossMeaning(c: Address, n: nat, pool: Stake, total: real)
    requires total != 0.0
    ensures SelfLoss(c, n, pool, total, |pool.delegators|)
            == if DelegatesToItself(c, pool.delegators) then CollatorShare(n, pool, total) else 0.0
  {
    hide CollatorShare, Filled, Delegated;
    var ds := pool.delegators;
    assert ds[..|ds|] == ds;
    DelegatedMeaning(ds);
    FilledLookup(Delegated(ds));
    assert c in Filled(Delegated(ds)) <==> DelegatesToItself(c, ds) by {
      if i :| 0 <= i < |ds| && ds[i].owner == c {
        assert Delegated(ds)[i].0 == c;
      }
    }
  }

  /** What a pool is paid in all, payees repeating or not. */
  lemma PoolTotalMeaning(c: Address, n: nat, pool: Stake, total: real)
    requires total != 0.0
    ensures var ds := pool.delegators;
            Total(PoolShares(c, n, pool, total))
            == PoolWeight(n, pool.stake, ds) / total
               - (if DelegatesToItself(c, ds) then CollatorShare(n, pool, total) else 0.0)
               - Kept(n, CommissionOf(pool), total)(Repeated(ds))
  {
    hide PoolShares, CollatorShare, Overwritten, PoolWeight, Kept, CommissionOf, DelegatesToItself, Total, SelfLoss;
    var ds := pool.delegators;
    assert ds[..|ds|] == ds;
    PoolTotal(c, n, pool, total);
    LossesByAmount(c, n, pool, total, |ds|);
    SelfLossMeaning(c, n, pool, total);
  }

  /** What a difference of commissions moves of an amount. */
  function Moved(n: nat, difference: real, total: real): real -> real
    requires total != 0.0
  {
    amount => n as real * difference * amount / total
  }

  lemma KeptMoves(n: nat, low: real, high: real, total: real, x: real)
    requires total != 0.0
    ensures Kept(n, low, total)(x) - Kept(n, high, total)(x) == Moved(n, high - low, total)(x)
  {
    QuotientsAdd(n as real * (1.0 - high) * x, n as real * (high - low) * x, total);
  }

  lemma CollatorShareMoves(n: nat, pool: Stake, raised: Stake, total: real)
    requires total != 0.0
    requires raised.stake == pool.stake && raised.delegators == pool.delegators
    ensures CollatorShare(n, raised, total) - CollatorShare(n, pool, total)
            == Moved(n, CommissionOf(raised) - CommissionOf(pool), total)(AmountSum(pool.delegators))
  {
    hide CollatorShare, AmountSum, CommissionOf;
    var low, high := CommissionOf(pool), CommissionOf(raised);
    var stake, amounts := pool.stake as real, AmountSum(pool.delegators);
    CollatorShareMeaning(n, pool, total);
    CollatorShareMeaning(n, raised, total);
    QuotientsAdd(n as real * (stake + low * amounts), n as real * (high - low) * amounts, total);
    assert n as real * (stake + low * amounts) + n as real * (high - low) * amounts
        == n as real * (stake + high * amounts);
  }

  lemma MovedSubtracts(n: nat, difference: real, total: real, x: real, y: real)
    requires total != 0.0
    ensures var f := Moved(n, difference, total); f(0.0) == 0.0 && f(x) - f(y) == f(x - y)
  {
    QuotientsAdd(n as real * difference * (x - y), n as real * difference * y, total);
  }

  /**
   With payees that repeat, raising the commission moves the pool's total by what the difference
   takes of the repeated amounts, less what it takes of everything delegated if the collator is
   among its delegators and so loses its own share.
   */
  lemma RaisingMovesTotal(c: Address, n: nat, pool: Stake, raised: Stake, total: real)
    requires total != 0.0
    requires raised.stake == pool.stake && raised.delegators == pool.delegators
    ensures Total(PoolShares(c, n, raised, total)) - Total(PoolShares(c, n, pool, total))
            == Moved(n, CommissionOf(raised) - CommissionOf(pool), total)
                 (Repeated(pool.delegators) - SelfDelegated(c, pool.delegators))
  {
    hide PoolShares, CollatorShare, PoolWeight, Kept, CommissionOf, DelegatesToItself, Total, Moved, AmountSum,
         Repeated;
    var ds, low, high := pool.delegators, CommissionOf(pool), CommissionOf(raised);
    PoolTotalMeaning(c, n, pool, total);
    PoolTotalMeaning(c, n, raised, total);
    KeptMoves(n, low, high, total, Repeated(ds));
    CollatorShareMoves(n, pool, raised, total);
    MovedSubtracts(n, high - low, total, Repeated(ds), SelfDelegated(c, ds));
  }

  lemma MovedZeroIff(n: nat, difference: real, total: real, x: real)
    requires total != 0.0
    ensures Moved(n, difference, total)(x) == 0.0 <==> n == 0 || difference == 0.0 || x == 0.0
  {
    ProductZeroIff(n as real, difference);
    ProductZeroIff(n as real * difference, x);
    ProductZeroIff(n as real * difference * x, 1.0 / total);
    assert n as real * difference * x / total == n as real * difference * x * (1.0 / total);
  }

  /**
   What decides whether a pool's total depends on its commission: if the collator delegates to
   itself, an account whose last delegation is worth something; if not, a delegation of value that
   the same account's next one replaces.
   */
  ghost predicate CommissionShows(c: Address, ds: seq<Delegator>)
  {
    if DelegatesToItself(c, ds) then exists i :: LastOf(ds, i) && ds[i].amount > 0
    else exists i, j :: 0 <= i < j < |ds| && ds[i].owner == ds[j].owner && ds[i].amount > 0
  }

  ghost predicate LastOf(ds: seq<Delegator>, i: int)
  {
    0 <= i < |ds| && forall j :: i < j < |ds| ==> ds[j].owner != ds[i].owner
  }

  lemma CommissionShowsIff(c: Address, ds: seq<Delegator>)
    ensures Repeated(ds) == SelfDelegated(c, ds) <==> !CommissionShows(c, ds)
  {
    hide Overwritten, Filled, Total, AmountSum, EntrySum;
    var es := Delegated(ds);
    DelegatedMeaning(ds);
    DelegatedSum(ds);
    hide Delegated;
    OverwrittenZeroIff(es);
    FilledTotal(es);
    FilledLookup(es);
    HoldingsZeroIff(ds);
  }

  /** Every account's last delegation is worth nothing exactly when the amounts that stay add up to nothing. */
  lemma HoldingsZeroIff(ds: seq<Delegator>)
    ensures Total(Filled(Delegated(ds))) == 0.0 <==> forall i :: LastOf(ds, i) ==> ds[i].amount == 0
  {
    var es := Delegated(ds);
    DelegatedMeaning(ds);
    FilledLookup(es);
    hide Filled, Total, Delegated;
    var held := Filled(es);
    forall k | k in held
      ensures exists i :: LastOf(ds, i) && ds[i].owner == k && held[k] == ds[i].amount as real
    {
      var i :| LastFor(es, k, i) && es[i].1 == held[k];
      assert LastOf(ds, i);
    }
    TotalZeroIff(held);
    forall i | LastOf(ds, i)
      ensures es[i].0 in held && held[es[i].0] == ds[i].amount as real
    {
      var j :| LastOf(ds, j) && ds[j].owner == ds[i].owner && held[es[i].0] == ds[j].amount as real;
      assert i == j;
    }
  }

  /** Which pools keep their total when the commission changes. */
  lemma TotalKeptIff(c: Address, n: nat, pool: Stake, raised: Stake, total: real)
    requires total != 0.0
    requires raised.stake == pool.stake && raised.delegators == pool.delegators
    ensures Total(PoolShares(c, n, raised, total)) == Total(PoolShares(c, n, pool, total)) <==>
            n == 0 || raised.commission == pool.commission || !CommissionShows(c, pool.delegators)
  {
    assert CommissionOf(raised) - CommissionOf(pool) == 0.0 <==> raised.commission == pool.commission;
    hide PoolShares, Total, Moved, CommissionOf, Repeated, SelfDelegated, CommissionShows;
    RaisingMovesTotal(c, n, pool, raised, total);
    CommissionShowsIff(c, pool.delegators);
    MovedZeroIff(n, CommissionOf(raised) - CommissionOf(pool), total,
                 Repeated(pool.delegators) - SelfDelegated(c, pool.delegators));
  }

  /** At a commission of 100% no delegator earns anything. */
  lemma FullCommission(c: Address, n: nat, pool: Stake, total: real)
    requires total > 0.0
    requires DistinctPayees(c, pool) && pool.commission == 1_000_000
    ensures forall i :: 0 <= i < |pool.delegators| ==>
              var d := pool.delegators[i].owner;
              d in PoolShares(c, n, pool, total) && PoolShares(c, n, pool, total)[d] == 0.0
  {
    hide PoolShares, DelegatorShare, CollatorShare;
    DistinctPoolShares(c, n, pool, total);
    forall i | 0 <= i < |pool.delegators|
      ensures DelegatorShare(n, CommissionOf(pool), pool.delegators[i].amount, total) == 0.0
    {
      DelegatorShareZeroIff(n, pool.commission, pool.delegators[i].amount, total);
    }
  }

  /** At 50%, with two delegators that stake as much as the collator, the collator earns four times either. */
  lemma HalfCommission(c: Address, n: nat, pool: Stake, total: real)
    requires total > 0.0
    requires DistinctPayees(c, pool) && pool.commission == 500_000
    requires |pool.delegators| == 2
    requires pool.delegators[0].amount == pool.stake == pool.delegators[1].amount
    ensures var shares := PoolShares(c, n, pool, total);
            forall i :: 0 <= i < 2 ==>
              var d := pool.delegators[i].owner;
              c in shares && d in shares && shares[c] == 4.0 * shares[d]
  {
    var ds, stake := pool.delegators, pool.stake as real;
    assert AmountSum(ds) == 2.0 * stake by {
      assert ds[..1] == [ds[0]] && ds[..1][..0] == [];
      assert AmountSum(ds[..1]) == stake;
    }
    DistinctPoolShares(c, n, pool, total);
    hide PoolShares;
    HalfShares(n, pool, total);
  }

  lemma HalfShares(n: nat, pool: Stake, total: real)
    requires total > 0.0 && pool.commission == 500_000
    requires AmountSum(pool.delegators) == 2.0 * pool.stake as real
    ensures CollatorShare(n, pool, total) == 4.0 * DelegatorShare(n, CommissionOf(pool), pool.stake, total)
  {
    hide CollatorShare;
    var stake := pool.stake as real;
    CollatorShareMeaning(n, pool, total);
    assert stake + 0.5 * (2.0 * stake) == 2.0 * stake;
    assert n as real * (2.0 * stake) == 4.0 * (n as real * 0.5 * stake);
  }
}
