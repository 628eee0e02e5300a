/**
 The audit of one session, end to end
 (tools/stress/stress_token_economy_v2.py:409-443).
 */
module Audit {
  import opened Totals
  import opened Common
  import opened ChainView
  import opened RewardSplit
  import opened RewardLaws
  import opened Sessions
  import opened BlockTally
  import opened PotLedger
  import opened Payouts
  import opened RewardBounds

  datatype AuditError =
    | BlockCountOff
    | PayoutCountOff
    | NoWeight
    | RewardOff(error: RewardError)

  ghost function SnapshotOf(node: Node, s: Session): Snapshot
  {
    node.atStake(s.first, s.index)
  }

  ghost function SessionReward(node: Node, s: Session): real
  {
    DepositsOver(node, s.first, Later(s)) as real
  }

  ghost function SessionPayouts(node: Node, s: Session): map<int, Payout>
  {
    PayoutsFrom(node, Later(s), s.length)
  }

  ghost function SessionRewards(node: Node, s: Session): Outcome<Shares, SplitError>
  {
    Calculated(SessionReward(node, s), SnapshotOf(node, s), BlockInfo(node, s))
  }

  ghost predicate CountsAgree(node: Node, s: Session)
  {
    Total(AsReals(BlockInfo(node, s))) == s.length as real
  }

  ghost predicate OnePayoutEach(node: Node, s: Session)
  {
    |SessionPayouts(node, s)| == |BlockInfo(node, s)|
  }

  /** A session passes when its blocks are all counted, each contributor is paid in a block, and the rewards fit. */
  ghost predicate Accepted(node: Node, s: Session)
  {
    && CountsAgree(node, s)
    && OnePayoutEach(node, s)
    && SessionRewards(node, s).Ok?
    && RewardAccepted(SessionReward(node, s), SessionPayouts(node, s), SessionRewards(node, s).value)
  }

  /** Each error in its case: the checks before it passed, and its own did not. */
  ghost predicate ErrorFits(node: Node, s: Session, e: AuditError)
  {
    match e
    case BlockCountOff => !CountsAgree(node, s)
    case PayoutCountOff => CountsAgree(node, s) && !OnePayoutEach(node, s)
    case NoWeight => CountsAgree(node, s) && OnePayoutEach(node, s) && SessionRewards(node, s).Err?
    case RewardOff(error) =>
      && CountsAgree(node, s) && OnePayoutEach(node, s) && SessionRewards(node, s).Ok?
      && RewardErrorFits(SessionReward(node, s), SessionPayouts(node, s), SessionRewards(node, s).value, error)
  }

  /** check_single_session_distribution, with the checks in the order they are made. */
  method CheckSession(node: Node, s: Session) returns (r: Outcome<(), AuditError>)
    ensures r.Ok? <==> Accepted(node, s)
    ensures r == Err(BlockCountOff) <==> Total(AsReals(BlockInfo(node, s))) != s.length as real
    ensures r == Err(PayoutCountOff) <==>
              && Total(AsReals(BlockInfo(node, s))) == s.length as real
              && |SessionPayouts(node, s)| != |BlockInfo(node, s)|
    ensures r == Err(NoWeight) <==>
              && Total(AsReals(BlockInfo(node, s))) == s.length as real
              && |SessionPayouts(node, s)| == |BlockInfo(node, s)|
              && Calculated(SessionReward(node, s), SnapshotOf(node, s), BlockInfo(node, s)).Err?
    ensures r.Err? ==> ErrorFits(node, s, r.error)
  {
    hide Calculated, PayoutsFrom, BlockInfo, RewardAccepted, RewardErrorFits, Total, DepositsOver;
    var counts := CollatorBlockInfo(node, s);
    var sum := SumCounts(counts);
    if s.length != sum {
      return Err(BlockCountOff);
    }
    var snapshot := node.atStake(s.first, s.index);
    var deposits := TotalSessionRewards(node, s.first, s.length);
    var paid := GetRewardInfo(node, s.first + s.length, s.length);
    if |paid| != |counts| {
      return Err(PayoutCountOff);
    }
    var calculated := CalculateReward(deposits as real, snapshot, counts);
    if calculated.Err? {
      return Err(NoWeight);
    }
    var checked := CheckReward(deposits as real, paid, calculated.value);
    if checked.Err? {
      return Err(RewardOff(checked.error));
    }
    r := Ok(());
  }

  /** distribution_check: all sessions of the walk, newest first, up to the first that fails, with its error. */
  method DistributionCheck(node: Node, n: int)
    returns (r: Outcome<seq<Session>, WalkError>, failed: Option<(Session, AuditError)>)
    ensures r.Err? <==> node.round(node.head).first == 0
    ensures r.Ok? && RoundsAdvance(node) ==> Walked(node, n, r.value)
    ensures r.Ok? ==> (failed == None <==> forall i :: 0 <= i < |r.value| ==> Accepted(node, r.value[i]))
    ensures r.Ok? && failed.Some? ==>
              && (exists i: nat ::
                    && i < |r.value| && failed.value.0 == r.value[i] && !Accepted(node, r.value[i])
                    && forall j :: 0 <= j < i ==> Accepted(node, r.value[j]))
              && ErrorFits(node, failed.value.0, failed.value.1)
  {
    hide Accepted, ErrorFits, Walked, RoundsAdvance;
    r := PreviousSessions(node, n);
    failed := None;
    if r.Err? { return; }
    for i := 0 to |r.value|
      invariant failed == None
      invariant forall j :: 0 <= j < i ==> Accepted(node, r.value[j])
    {
      var one := CheckSession(node, r.value[i]);
      if one.Err? {
        failed := Some((r.value[i], one.error));
        return;
      }
    }
  }

  // ----- an honest session

  /** The block pays exactly the pool of `c`: the collator's event first, each payee once, each amount fair. */
  ghost predicate PaysPool(events: seq<Event>, c: Address, pool: map<Address, real>)
  {
    var es := RewardEntries(events);
    && es != [] && es[0].0 == c
    && DistinctKeys(es)
    && (forall i :: 0 <= i < |es| ==> es[i].0 in pool && FairAmount(es[i].1, pool[es[i].0]))
    && (forall a :: a in pool ==> exists i :: 0 <= i < |es| && es[i].0 == a)
  }

  /** The pools in `order` are paid one per block, from `start` on, and nothing is paid in the block after. */
  ghost predicate PaysInOrder(node: Node, start: int, length: int, order: seq<Address>, pools: Shares)
  {
    && (forall i, j :: 0 <= i < j < |order| ==> order[i] != order[j])
    && (forall c :: c in pools <==> c in order)
    && (forall i :: 0 <= i < |order| ==> PaysPool(node.events(start + i), order[i], pools[order[i]]))
    && (|order| < length ==> RewardEntries(node.events(start + |order|)) == [])
  }

  ghost predicate SharesAreFair(node: Node, s: Session)
  {
    var snapshot, blocks := SnapshotOf(node, s), BlockInfo(node, s);
    && blocks.Keys <= snapshot.Keys
    && KeepsShares(snapshot, blocks)
    && Total(Weights(snapshot, blocks)) > 0.0
  }

  /** What every pool is due. */
  ghost function DuePools(node: Node, s: Session): Shares
    requires SharesAreFair(node, s)
  {
    var snapshot, blocks := SnapshotOf(node, s), BlockInfo(node, s);
    Rewards(AllShares(snapshot, blocks, Total(Weights(snapshot, blocks))), SessionReward(node, s))
  }

  /**
   The chain counts blocks, took a snapshot that knows every contributor and keeps its shares, and pays every
   contributor's pool its shares, in whatever order of collators.
   */
  ghost predicate HonestSession(node: Node, s: Session, order: seq<Address>)
  {
    && s.length > 0
    && HonestCounters(node, s)
    && SharesAreFair(node, s)
    && PaysInOrder(node, Later(s), s.length, order, DuePools(node, s))
  }

  lemma {:induction false} OrderIsCounted(order: seq<Address>, pools: Shares)
    requires forall i, j :: 0 <= i < j < |order| ==> order[i] != order[j]
    requires forall c :: c in pools <==> c in order
    ensures |order| == |pools|
  {
    if order != [] {
      var n := |order| - 1;
      var init, last := order[..n], order[n];
      assert order == init + [last];
      assert last !in init;
      OrderIsCounted(init, pools - {last});
      assert (pools - {last}).Keys == pools.Keys - {last};
    } else {
      assert pools.Keys == {};
    }
  }

  /** What the audit reads back from a block that pays a pool. */
  lemma PayoutOfPool(events: seq<Event>, c: Address, pool: map<Address, real>)
    requires PaysPool(events, c, pool)
    requires forall a :: a in pool ==> pool[a] >= 0.0
    ensures PayoutIn(events).collator == c && FairPool(PayoutIn(events).reward, pool)
  {
    hide FairAmount, RewardEntries, Filled;
    var es := RewardEntries(events);
    FilledLookup(es);
    DistinctLosesNothing(es);
    assert forall a :: a in Filled(es) <==> a in pool;
  }

  /** One block per pool, in order, each paid fairly. */
  ghost predicate PaidInOrder(paid: map<int, Payout>, start: int, order: seq<Address>, pools: Shares)
  {
    && (forall c :: c in pools <==> c in order)
    && (forall h :: h in paid <==> start <= h < start + |order|)
    && (forall h :: h in paid ==> paid[h].collator == order[h - start])
    && (forall h :: h in paid ==> FairPool(paid[h].reward, pools[order[h - start]]))
  }

  lemma PaidAt(node: Node, start: int, length: int, order: seq<Address>, pools: Shares, h: int)
    requires PaysInOrder(node, start, length, order, pools)
    requires start <= h < start + |order|
    requires forall c, a :: c in pools && a in pools[c] ==> pools[c][a] >= 0.0
    ensures PaidThrough(node, start, h) && RewardEntries(node.events(h)) != []
    ensures PayoutIn(node.events(h)).collator == order[h - start]
    ensures FairPool(PayoutIn(node.events(h)).reward, pools[order[h - start]])
  {
    hide FairPool, RewardEntries, PaysPool;
    forall g | start <= g <= h
      ensures RewardEntries(node.events(g)) != []
    {
      PaysSomething(node.events(start + (g - start)), order[g - start], pools[order[g - start]]);
    }
    PayoutOfPool(node.events(start + (h - start)), order[h - start], pools[order[h - start]]);
  }

  /** The payouts the audit reads are the pools in order, one per height. */
  lemma PayoutsInOrder(node: Node, start: int, length: int, order: seq<Address>, pools: Shares)
    requires PaysInOrder(node, start, length, order, pools)
    requires |order| <= length
    requires forall c, a :: c in pools && a in pools[c] ==> pools[c][a] >= 0.0
    ensures PaidInOrder(PayoutsFrom(node, start, length), start, order, pools)
  {
    hide FairPool, RewardEntries, PaysPool, PaidThrough;
    var paid := PayoutsFrom(node, start, length);
    forall h | start <= h < start + |order|
      ensures h in paid && paid[h].collator == order[h - start] && FairPool(paid[h].reward, pools[order[h - start]])
    {
      PaidAt(node, start, length, order, pools, h);
    }
    forall h | h in paid
      ensures h < start + |order|
    {
      PaidThroughBack(node, start, start + |order|, h);
    }
  }

  lemma PaidThroughBack(node: Node, start: int, g: int, h: int)
    requires PaidThrough(node, start, h) && start <= g
    ensures g <= h ==> RewardEntries(node.events(g)) != []
  {
  }

  lemma PaysSomething(events: seq<Event>, c: Address, pool: map<Address, real>)
    requires PaysPool(events, c, pool)
    ensures RewardEntries(events) != []
  {
  }

  lemma {:induction false} HeightsCounted(paid: map<int, Payout>, start: int, n: nat)
    requires forall h :: h in paid <==> start <= h < start + n
    ensures |paid| == n
  {
    if n == 0 {
      if paid != map[] {
        var h := SomeHeight(paid);
        assert false;
      }
    } else {
      var last := start + n - 1;
      HeightsCounted(paid - {last}, start, n - 1);
      assert (paid - {last}).Keys == paid.Keys - {last};
    }
  }

  lemma PoolsCoverBlocks(snapshot: Snapshot, blocks: BlockCounts, total: real, reward: real)
    requires total != 0.0 && blocks.Keys <= snapshot.Keys
    ensures Rewards(AllShares(snapshot, blocks, total), reward).Keys == blocks.Keys
  {
    hide PoolShares;
  }

  lemma SharesAreNonNegative(c: Address, n: nat, pool: Stake, total: real)
    requires total > 0.0
    ensures forall a :: a in PoolShares(c, n, pool, total) ==> PoolShares(c, n, pool, total)[a] >= 0.0
  {
    hide CollatorShare, DelegatorShare, Filled;
    var es, ds := PoolEntries(c, n, pool, total), pool.delegators;
    FilledLookup(es);
    CollatorShareZeroIff(n, pool, total);
    forall i | 1 <= i < |es|
      ensures es[i].1 >= 0.0
    {
      EntriesArePrefixes(c, n, pool, total, |ds|, i);
      DelegatorShareZeroIff(n, pool.commission, ds[i - 1].amount, total);
    }
    EntriesArePrefixes(c, n, pool, total, |ds|, 0);
  }

  lemma PortionNonNegative(v: real, x: real)
    requires v >= 0.0 && x >= 0.0
    ensures Portion(v, x) >= 0.0
  {
  }

  lemma RewardsAreNonNegative(snapshot: Snapshot, blocks: BlockCounts, total: real, reward: real)
    requires total > 0.0 && reward >= 0.0
    ensures var pools := Rewards(AllShares(snapshot, blocks, total), reward);
            forall c, a :: c in pools && a in pools[c] ==> pools[c][a] >= 0.0
  {
    hide PoolShares, Portion;
    var pools := Rewards(AllShares(snapshot, blocks, total), reward);
    forall c, a | c in pools && a in pools[c]
      ensures pools[c][a] >= 0.0
    {
      SharesAreNonNegative(c, blocks[c], snapshot[c], total);
      PortionNonNegative(PoolShares(c, blocks[c], snapshot[c], total)[a], reward);
    }
  }

  lemma HonestRewardIsWhole(snapshot: Snapshot, blocks: BlockCounts, reward: real)
    requires Total(Weights(snapshot, blocks)) > 0.0
    requires KeepsShares(snapshot, blocks)
    ensures GrandTotal(Rewards(AllShares(snapshot, blocks, Total(Weights(snapshot, blocks))), reward)) == reward
  {
    hide AllShares, KeepsShares, Rewards, GrandTotal, Weights, Total;
    SharesSumToOneIff(snapshot, blocks);
    RewardsScaleShares(AllShares(snapshot, blocks, Total(Weights(snapshot, blocks))), reward);
  }

  lemma PaidInOrderPaysEveryEntryOnce(paid: map<int, Payout>, start: int, order: seq<Address>, pools: Shares)
    requires forall i, j :: 0 <= i < j < |order| ==> order[i] != order[j]
    requires PaidInOrder(paid, start, order, pools)
    ensures EveryEntryPaidOnce(paid, pools)
  {
    hide FairPool;
    forall g, h | g in paid && h in paid && paid[g].collator == paid[h].collator
      ensures g == h
    {
      assert order[g - start] == order[h - start];
    }
    forall h | h in paid
      ensures PaidOnce(paid, pools, h)
    {
      FairPoolKeys(paid[h].reward, pools[order[h - start]]);
    }
    forall c | c in pools
      ensures CollatorPaid(paid, c)
    {
      var i :| 0 <= i < |order| && order[i] == c;
      assert start + i in paid && paid[start + i].collator == c;
    }
  }

  lemma FairPoolKeys(reward: map<Address, real>, pool: map<Address, real>)
    requires FairPool(reward, pool)
    ensures reward.Keys == pool.Keys
  {
  }

  lemma PaidInOrderAccepted(paid: map<int, Payout>, start: int, order: seq<Address>, pools: Shares)
    requires forall i, j :: 0 <= i < j < |order| ==> order[i] != order[j]
    requires PaidInOrder(paid, start, order, pools)
    requires GrandTotal(pools) >= 0.0
    ensures |paid| == |pools|
    ensures RewardAccepted(GrandTotal(pools), paid, pools)
  {
    hide FairPool, GrandTotal, RewardAccepted, EveryEntryPaidOnce;
    OrderIsCounted(order, pools);
    HeightsCounted(paid, start, |order|);
    PaidInOrderPaysEveryEntryOnce(paid, start, order, pools);
    FairPayoutsAccepted(GrandTotal(pools), paid, pools);
  }

  lemma SomeoneTakesPart(snapshot: Snapshot, blocks: BlockCounts, c: Address)
    requires c in blocks && blocks.Keys <= snapshot.Keys
    ensures !NoneTakesPart(snapshot, blocks)
  {
  }

  lemma LastAuthorCounted(node: Node, s: Session)
    ensures node.author(Later(s)) in BlockInfo(node, s)
  {
  }

  /** What the audit calculates is what is due, and it is the whole reward. */
  lemma DuePoolsCalculated(node: Node, s: Session)
    requires SharesAreFair(node, s)
    ensures SessionRewards(node, s) == Ok(DuePools(node, s))
    ensures |DuePools(node, s)| == |BlockInfo(node, s)|
    ensures GrandTotal(DuePools(node, s)) == SessionReward(node, s)
    ensures forall c, a :: c in DuePools(node, s) && a in DuePools(node, s)[c] ==> DuePools(node, s)[c][a] >= 0.0
  {
    hide AllShares, Rewards, Weights, Total, BlockInfo, KeepsShares, DepositsOver, NoneTakesPart, GrandTotal;
    var snapshot, blocks, reward := SnapshotOf(node, s), BlockInfo(node, s), SessionReward(node, s);
    var total := Total(Weights(snapshot, blocks));
    LastAuthorCounted(node, s);
    SomeoneTakesPart(snapshot, blocks, node.author(Later(s)));
    PoolsCoverBlocks(snapshot, blocks, total, reward);
    HonestRewardIsWhole(snapshot, blocks, reward);
    RewardsAreNonNegative(snapshot, blocks, total, reward);
    assert |DuePools(node, s)| == |DuePools(node, s).Keys| == |blocks.Keys| == |blocks|;
  }

  lemma PoolsAddUpNonNegative(pools: Shares)
    requires forall c, a :: c in pools && a in pools[c] ==> pools[c][a] >= 0.0
    ensures GrandTotal(pools) >= 0.0
  {
    hide Total;
    forall c | c in pools
      ensures PoolTotals(pools)[c] >= 0.0
    {
      TotalZeroIff(pools[c]);
    }
    TotalZeroIff(PoolTotals(pools));
  }

  lemma DuePayoutsAccepted(node: Node, s: Session, order: seq<Address>, pools: Shares)
    requires PaysInOrder(node, Later(s), s.length, order, pools)
    requires |pools| <= s.length
    requires forall c, a :: c in pools && a in pools[c] ==> pools[c][a] >= 0.0
    ensures |SessionPayouts(node, s)| == |pools|
    ensures RewardAccepted(GrandTotal(pools), SessionPayouts(node, s), pools)
  {
    hide PayoutsFrom, GrandTotal, RewardAccepted, PaidInOrder, PaysPool, RewardEntries;
    OrderIsCounted(order, pools);
    PayoutsInOrder(node, Later(s), s.length, order, pools);
    PoolsAddUpNonNegative(pools);
    PaidInOrderAccepted(PayoutsFrom(node, Later(s), s.length), Later(s), order, pools);
  }

  /**
   What the count of blocks decides: a session that pays what is due, one pool a block, is accepted
   exactly when the counts it is paid by add up to its length.
   */
  lemma AcceptedIffCounted(node: Node, s: Session, order: seq<Address>)
    requires SharesAreFair(node, s)
    requires PaysInOrder(node, Later(s), s.length, order, DuePools(node, s)) && |order| <= s.length
    ensures Accepted(node, s) <==> Total(AsReals(BlockInfo(node, s))) == s.length as real
  {
    hide SharesAreFair, PaysInOrder, BlockInfo, SessionRewards, SessionReward, SessionPayouts, RewardAccepted, Total,
         GrandTotal;
    DuePoolsCalculated(node, s);
    PaidOrderCounted(node, s, order, DuePools(node, s));
    hide DuePools;
    DuePayoutsAccepted(node, s, order, DuePools(node, s));
  }

  lemma PaidOrderCounted(node: Node, s: Session, order: seq<Address>, pools: Shares)
    requires PaysInOrder(node, Later(s), s.length, order, pools)
    ensures |order| == |pools|
  {
    hide PaysPool, RewardEntries;
    OrderIsCounted(order, pools);
  }

  /** On a chain that counts blocks but for one author, whose counter is any other number, no session is accepted. */
  lemma WrongCountIsRejected(node: Node, wrong: Node, s: Session, a: Address, k: nat)
    requires HonestCounters(node, s) && s.length > 0
    requires wrong.author == node.author
    requires var before := node.collatorBlocks(s.first + s.length - 1, s.index);
             && wrong.collatorBlocks(s.first + s.length - 1, s.index) == before[a := k]
             && k != (if a in before then before[a] else 0)
    ensures !Accepted(wrong, s)
  {
    hide HonestCounters, BlockInfo, OnePayoutEach, SessionRewards, SessionReward, SessionPayouts, RewardAccepted, Total;
    WrongCounterDoesNotAddUp(node, wrong, s, a, k);
  }

  /**
   Completeness: the audit accepts every honest session, whatever the snapshot, the commissions,
   the authors and the order of payment.
   */
  lemma HonestSessionAccepted(node: Node, s: Session, order: seq<Address>)
    requires HonestSession(node, s, order)
    ensures Accepted(node, s)
  {
    hide HonestCounters, SharesAreFair, PaysInOrder, DuePools, BlockInfo, SessionRewards, SessionReward, SessionPayouts,
         RewardAccepted, Total, GrandTotal;
    BlocksAreConserved(node, s);
    DuePoolsCalculated(node, s);
    DuePayoutsAccepted(node, s, order, DuePools(node, s));
  }

  /**
   Completeness along a whole chain: with rounds that advance and blocks that are credited as
   they come, every session of the walk whose pools are paid what is due is accepted.
   */
  lemma HonestChainAccepted(node: Node, n: int, out: seq<Session>, orders: seq<seq<Address>>, i: nat)
    requires RoundsAdvance(node) && ChainCounts(node)
    requires Walked(node, n, out) && Adjacent(out, node.round(node.head).first)
    requires i < |out| == |orders|
    requires SharesAreFair(node, out[i])
    requires PaysInOrder(node, Later(out[i]), out[i].length, orders[i], DuePools(node, out[i]))
    ensures Accepted(node, out[i])
  {
    TraversalPasses(node, n, out, i);
    assert IsRound(node, out[i]);
    hide ChainCounts, RoundsAdvance, HonestCounters, SharesAreFair, PaysInOrder, DuePools, Accepted, CounterAgrees,
         Total, BlockInfo, Walked;
    HonestSessionAccepted(node, out[i], orders[i]);
  }

  lemma PaidBlocksAreNotEmpty(node: Node, start: int, length: int)
    ensures var paid := PayoutsFrom(node, start, length); forall h :: h in paid ==> paid[h].reward != map[]
  {
    hide RewardEntries, Filled;
    var paid := PayoutsFrom(node, start, length);
    forall h | h in paid
      ensures paid[h].reward != map[]
    {
      assert RewardEntries(node.events(h)) != [];
      FilledLookup(RewardEntries(node.events(h)));
      assert RewardEntries(node.events(h))[0].0 in paid[h].reward;
    }
  }

  // ----- what acceptance means

  /** The pools of an accepted session, as calculate_reward gives them. */
  ghost function CalculatedPools(node: Node, s: Session): Shares
    requires SessionRewards(node, s).Ok?
  {
    SessionRewards(node, s).value
  }

  lemma CalculatedKeys(reward: real, staking: Snapshot, blocks: BlockCounts)
    requires Calculated(reward, staking, blocks).Ok?
    ensures Calculated(reward, staking, blocks).value.Keys <= blocks.Keys * staking.Keys
  {
    hide Weights, Total, PoolShares;
  }

  /** In an accepted session there are as many payouts as contributors, each names one that is in the snapshot. */
  lemma AcceptedPayouts(node: Node, s: Session)
    requires Accepted(node, s)
    ensures var paid, pools := SessionPayouts(node, s), CalculatedPools(node, s);
            && RewardAccepted(SessionReward(node, s), paid, pools)
            && |paid| == |BlockInfo(node, s)| && paid != map[]
            && (forall h :: h in paid ==> paid[h].reward != map[])
            && (forall h :: h in paid ==> paid[h].collator in pools)
            && pools.Keys <= BlockInfo(node, s).Keys * SnapshotOf(node, s).Keys
  {
    PaidBlocksAreNotEmpty(node, Later(s), s.length);
    LastAuthorCounted(node, s);
    hide PayoutsFrom, BlockInfo, DepositsOver, PayoutAccepted, Calculated;
    PaidCollatorsAreCalculated(SessionPayouts(node, s), CalculatedPools(node, s));
    CalculatedKeys(SessionReward(node, s), SnapshotOf(node, s), BlockInfo(node, s));
  }

  /**
   Soundness, pool by pool: an accepted session pays every contributor exactly when it pays no
   collator in two blocks, and then every contributor is in the snapshot.
   */
  lemma EveryPoolPaidIff(node: Node, s: Session)
    requires Accepted(node, s)
    ensures DistinctCollators(SessionPayouts(node, s)) <==>
            forall c :: c in BlockInfo(node, s) ==> CollatorPaid(SessionPayouts(node, s), c)
    ensures DistinctCollators(SessionPayouts(node, s)) ==> BlockInfo(node, s).Keys <= SnapshotOf(node, s).Keys
  {
    AcceptedPayouts(node, s);
    hide PayoutsFrom, SessionRewards, DistinctCollators, RewardAccepted, Accepted, BlockInfo, SnapshotOf;
    var paid, blocks := SessionPayouts(node, s), BlockInfo(node, s);
    assert |blocks| == |blocks.Keys|;
    PaidTwiceIffOneUnpaid(paid, blocks.Keys);
    if DistinctCollators(paid) {
      forall c | c in blocks
        ensures c in SnapshotOf(node, s)
      {
        assert CollatorPaid(paid, c);
      }
    }
  }

  lemma WeightsNonNegative(snapshot: Snapshot, blocks: BlockCounts)
    ensures Total(Weights(snapshot, blocks)) >= 0.0
  {
    hide Total, PoolWeight;
    forall c | c in snapshot && c in blocks
      ensures PoolWeight(blocks[c], snapshot[c].stake, snapshot[c].delegators) >= 0.0
    {
      PoolWeightMeaning(blocks[c], snapshot[c].stake, snapshot[c].delegators);
      AmountSumIsZeroIff(snapshot[c].delegators);
    }
    TotalZeroIff(Weights(snapshot, blocks));
  }

  /** Somebody takes part in an accepted session, with a positive weight. */
  lemma AcceptedWeight(node: Node, s: Session)
    requires Accepted(node, s)
    ensures var snapshot, blocks := SnapshotOf(node, s), BlockInfo(node, s);
            var total := Total(Weights(snapshot, blocks));
            && total > 0.0
            && CalculatedPools(node, s) == Rewards(AllShares(snapshot, blocks, total), SessionReward(node, s))
  {
    AcceptedPayouts(node, s);
    assert SessionRewards(node, s).Ok?;
    hide PayoutsFrom, RewardAccepted, Accepted, BlockInfo, SessionReward, Weights, Total, AllShares, Rewards;
    var h := SomeHeight(SessionPayouts(node, s));
    assert SessionPayouts(node, s)[h].collator in CalculatedPools(node, s);
    WeightsNonNegative(SnapshotOf(node, s), BlockInfo(node, s));
  }

  lemma RewardsAtMostReward(snapshot: Snapshot, blocks: BlockCounts, reward: real)
    requires Total(Weights(snapshot, blocks)) > 0.0 && reward >= 0.0
    ensures var sum := GrandTotal(Rewards(AllShares(snapshot, blocks, Total(Weights(snapshot, blocks))), reward));
            sum <= reward && (KeepsShares(snapshot, blocks) ==> sum == reward)
            && (sum == reward && reward > 0.0 ==> KeepsShares(snapshot, blocks))
  {
    hide AllShares, KeepsShares, Rewards, GrandTotal, Weights, Total;
    var shares := AllShares(snapshot, blocks, Total(Weights(snapshot, blocks)));
    if reward > 0.0 {
      RewardIsConservedIff(snapshot, blocks, reward);
    } else {
      RewardsScaleShares(shares, reward);
    }
  }

  /** What of the session's reward is given to nobody. */
  ghost function Lost(node: Node, s: Session): real
    requires SessionRewards(node, s).Ok?
  {
    SessionReward(node, s) - GrandTotal(CalculatedPools(node, s))
  }

  /** It is nothing exactly when the snapshot overwrites no share of value. */
  lemma LostIsNothingIff(node: Node, s: Session)
    requires Accepted(node, s)
    ensures Lost(node, s) >= 0.0
    ensures SessionReward(node, s) > 0.0 ==>
              (Lost(node, s) == 0.0 <==> KeepsShares(SnapshotOf(node, s), BlockInfo(node, s)))
    ensures KeepsShares(SnapshotOf(node, s), BlockInfo(node, s)) ==> Lost(node, s) == 0.0
    ensures forall c, a :: c in CalculatedPools(node, s) && a in CalculatedPools(node, s)[c] ==>
              CalculatedPools(node, s)[c][a] >= 0.0
  {
    AcceptedWeight(node, s);
    var reward := SessionReward(node, s);
    assert reward >= 0.0;
    hide Accepted, BlockInfo, SnapshotOf, SessionReward, Weights, Total, AllShares, Rewards, GrandTotal, KeepsShares,
         SessionRewards;
    var snapshot, blocks := SnapshotOf(node, s), BlockInfo(node, s);
    RewardsAtMostReward(snapshot, blocks, reward);
    RewardsAreNonNegative(snapshot, blocks, Total(Weights(snapshot, blocks)), reward);
  }

  /**
   Soundness in amounts, whatever is paid twice: in an accepted session what accounts were due
   and no payout names, and what the snapshot makes the split lose, come to as much as is paid
   again, give or take little more than twice the tolerance of the session's reward.
   */
  lemma AcceptedSessionUnpaid(node: Node, s: Session)
    requires Accepted(node, s)
    ensures var paid, pools, reward := SessionPayouts(node, s), CalculatedPools(node, s), SessionReward(node, s);
            && (forall h :: h in paid ==> paid[h].collator in pools)
            && PaidAgain(paid, pools) >= 0.0
            && PaidAgain(paid, pools) - (2.0 + TOLERANCE) * TOLERANCE * reward
               <= Total(Unpaid(paid, pools)) + Lost(node, s) <= PaidAgain(paid, pools) + 2.0 * TOLERANCE * reward
  {
    AcceptedPayouts(node, s);
    LostIsNothingIff(node, s);
    hide PayoutsFrom, GrandTotal, Unpaid, PaidAgain, Total, RewardAccepted, Accepted, SessionRewards, DepositsOver;
    AcceptedUnpaidIsPaidAgain(SessionReward(node, s), SessionPayouts(node, s), CalculatedPools(node, s));
    PaidAgainIsNotNegative(SessionPayouts(node, s), CalculatedPools(node, s));
  }

  /** And in an accepted session that pays no collator twice they come to at most twice the tolerance. */
  lemma AcceptedSessionPaysNearlyAll(node: Node, s: Session)
    requires Accepted(node, s)
    requires DistinctCollators(SessionPayouts(node, s))
    ensures Total(Unpaid(SessionPayouts(node, s), CalculatedPools(node, s))) + Lost(node, s)
            <= 2.0 * TOLERANCE * SessionReward(node, s)
    ensures Lost(node, s) >= 0.0
  {
    AcceptedPayouts(node, s);
    LostIsNothingIff(node, s);
    hide PayoutsFrom, GrandTotal, Unpaid, Total, DistinctCollators, RewardAccepted, Accepted, SessionRewards,
         DepositsOver;
    AcceptedLeavesLittleUnpaid(SessionReward(node, s), SessionPayouts(node, s), CalculatedPools(node, s));
  }
}
