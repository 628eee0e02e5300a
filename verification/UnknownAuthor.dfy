/**
 A chain on which an author is missing from the snapshot.  The audit passes although one of three
 contributors is paid in all three blocks.
 */
module UnknownAuthor {
  import opened Common
  import opened Totals
  import opened ChainView
  import opened RewardSplit
  import opened Sessions
  import opened BlockTally
  import opened PotLedger
  import opened Payouts
  import opened RewardBounds
  import opened Audit

  const A: Address := "A"
  const B: Address := "B"
  const C: Address := "C"

  const POOL_A: Stake := Stake(10, 0, [])
  const POOL_B: Stake := Stake(20, 0, [])
  const STAKES: Snapshot := map[A := POOL_A, B := POOL_B]
  const COUNTS: BlockCounts := map[A := 1, B := 1, C := 1]

  /** The round before the current one: blocks 1 to 3, paid in blocks 4 to 6. */
  const SESSION: Session := Session(1, 3, 1)

  // ----- the chain

  function RoundAt(h: int): Round
  {
    if h < 1 then Round(0, 0) else if h < 4 then Round(1, 1) else Round(2, 4)
  }

  function AuthorAt(h: int): Address
  {
    if h == 3 then B else if h == 4 then C else A
  }

  function CountsAt(h: int, index: nat): BlockCounts
  {
    if index == 0 then (if h < 1 then map[] else map[A := 1])
    else if index == 1 then
      (if h < 2 then map[] else if h == 2 then map[A := 1] else if h == 3 then map[A := 1, B := 1] else COUNTS)
    else if index == 2 then (if h < 5 then map[] else map[A := (h - 4) as nat])
    else map[]
  }

  function EventsAt(h: int): seq<Event>
  {
    if h == 1 then [Deposit(COLLATOR_POT, 60000)] else if h >= 4 then [Rewarded(A, 20000)] else []
  }

  function Chain(): Node
  {
    Node(6, RoundAt, AuthorAt, EventsAt, CountsAt, (h, index) => STAKES, h => 0)
  }

  lemma RoundsOfChain()
    ensures RoundsAdvance(Chain())
    ensures Walked(Chain(), 1, [SESSION]) && Adjacent([SESSION], Chain().round(6).first)
  {
    assert IsRound(Chain(), SESSION);
  }

  lemma CountsOfChain()
    ensures ChainCounts(Chain())
    ensures BlockInfo(Chain(), SESSION) == COUNTS
    ensures SnapshotOf(Chain(), SESSION) == STAKES
  {
    forall h, index: nat | 1 <= h <= 6
      ensures Credited(Chain(), h, index)
    {
    }
  }

  // ----- what is calculated

  const POOLS: Shares := map[A := map[A := 20000.0], B := map[B := 40000.0]]

  lemma WeightsOfChain()
    ensures Total(Weights(STAKES, COUNTS)) == 30.0
  {
    var weights: map<Address, real> := map[A := 10.0, B := 20.0];
    assert Weights(STAKES, COUNTS) == weights;
    TotalOfTwo(weights, A, B);
  }

  lemma SharesOf(c: Address, pool: Stake)
    requires pool.delegators == []
    ensures PoolShares(c, 1, pool, 30.0) == map[c := pool.stake as real / 30.0]
  {
    assert EntriesUpTo(c, 1, pool, 30.0, 0) == [(c, pool.stake as real / 30.0)];
    OneEntry(c, pool.stake as real / 30.0);
  }

  lemma SharesOfChain()
    ensures AllShares(STAKES, COUNTS, 30.0) == map[A := map[A := 10.0 / 30.0], B := map[B := 20.0 / 30.0]]
  {
    hide PoolShares;
    SharesOf(A, POOL_A);
    SharesOf(B, POOL_B);
  }

  lemma PoolsOfChain()
    ensures Rewards(AllShares(STAKES, COUNTS, 30.0), 60000.0) == POOLS
  {
    hide AllShares;
    SharesOfChain();
    assert Scaled(map[A := 10.0 / 30.0], 60000.0) == POOLS[A];
    assert Scaled(map[B := 20.0 / 30.0], 60000.0) == POOLS[B];
  }

  lemma RewardOfChain()
    ensures SessionReward(Chain(), SESSION) == 60000.0
  {
    var node := Chain();
    assert node.events(1)[..0] == [];
    assert DepositsToPot(node.events(1)) == 60000;
    assert DepositsOver(node, 1, 1) == 0;
    assert DepositsOver(node, 1, 2) == 60000;
    assert DepositsOver(node, 1, 3) == 60000;
  }

  lemma CalculatedOfChain()
    ensures SessionRewards(Chain(), SESSION) == Ok(POOLS)
  {
    hide Weights, Total, BlockInfo, SnapshotOf, SessionReward, Rewards, AllShares;
    CountsOfChain();
    WeightsOfChain();
    RewardOfChain();
    PoolsOfChain();
    assert A in STAKES && A in COUNTS;
  }

  // ----- what is paid

  const PAID_A: Payout := Payout(A, map[A := 20000.0])

  const PAYS_A: seq<Event> := [Rewarded(A, 20000)]

  lemma PayoutOfA()
    ensures RewardEntries(PAYS_A) != [] && PayoutIn(PAYS_A) == PAID_A
  {
    assert PAYS_A[..0] == [];
    assert RewardEntries(PAYS_A) == [(A, 20000.0)];
    OneEntry(A, 20000.0);
  }

  lemma PayoutsOfChain()
    ensures SessionPayouts(Chain(), SESSION) == map[4 := PAID_A, 5 := PAID_A, 6 := PAID_A]
  {
    hide RewardEntries, PayoutIn;
    PayoutOfA();
    assert forall h :: 4 <= h ==> Chain().events(h) == PAYS_A;
  }

  lemma PaidInTotal(paid: map<int, Payout>)
    requires paid == map[4 := PAID_A, 5 := PAID_A, 6 := PAID_A]
    ensures Total(PaidTotals(paid)) == 60000.0
  {
    hide Total;
    var one := PAID_A.reward;
    TotalAt(one, A);
    assert one - {A} == map[];
    TotalZero(one - {A});
    TotalOfThree(PaidTotals(paid), 4, 5, 6);
  }

  lemma PayoutsFit(paid: map<int, Payout>)
    requires paid == map[4 := PAID_A, 5 := PAID_A, 6 := PAID_A]
    ensures RewardAccepted(60000.0, paid, POOLS)
    ensures |paid| == 3 && !CollatorPaid(paid, B) && !CollatorPaid(paid, C)
  {
    hide Total, PaidTotals;
    PaidInTotal(paid);
    assert EntryAccepted(POOLS, PAID_A, A);
    assert PayoutAccepted(POOLS, PAID_A);
  }

  /**
   Accepted with an unknown contributor: as many payouts as contributors and amounts that fit, yet
   neither the contributor that is not in the snapshot nor one that is gets anything.
   */
  lemma UnknownAuthorAccepted()
    ensures var node := Chain();
            && RoundsAdvance(node) && ChainCounts(node)
            && Walked(node, 1, [SESSION])
            && Accepted(node, SESSION)
            && C in BlockInfo(node, SESSION) && C !in SnapshotOf(node, SESSION)
            && B in CalculatedPools(node, SESSION)
            && !CollatorPaid(SessionPayouts(node, SESSION), B) && !CollatorPaid(SessionPayouts(node, SESSION), C)
  {
    hide RoundsAdvance, ChainCounts, Walked, HonestCounters, BlockInfo, SnapshotOf, PayoutsFrom, RewardAccepted,
         SessionRewards, SessionReward, CounterAgrees, Total;
    var node := Chain();
    RoundsOfChain();
    CountsOfChain();
    RewardOfChain();
    CalculatedOfChain();
    TraversalPasses(node, 1, [SESSION], 0);
    PayoutsOfChain();
    PayoutsFit(SessionPayouts(node, SESSION));
  }
}
