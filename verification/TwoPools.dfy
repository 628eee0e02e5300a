/**
 A chain of two rounds with two pools, one of them with a delegator.  Its audit passes both when
 each pool is paid its rounded share and when one pool is paid twice and the other never.
 */
module TwoPools {
  import opened Totals
  import opened ChainView
  import opened RewardSplit
  import opened Sessions
  import opened BlockTally
  import opened PotLedger
  import opened Payouts
  import opened RewardBounds
  import opened Audit

  const A: Address := "A"
  const B: Address := "B"
  const D: Address := "D"

  const POOL_A: Stake := Stake(10, 100_000, [Delegator(D, 10)])
  const POOL_B: Stake := Stake(20, 0, [])
  const STAKES: Snapshot := map[A := POOL_A, B := POOL_B]

  /** The round before the current one: blocks 1 and 2, paid in blocks 3 and 4. */
  const SESSION: Session := Session(1, 2, 1)

  const PAYS_A: seq<Event> := [Deposit(COLLATOR_POT, 700), Rewarded(A, 16500), Rewarded(D, 13500)]
  const PAYS_B: seq<Event> := [Rewarded(B, 30000)]

  // ----- the chain

  function RoundAt(h: int): Round
  {
    if h < 1 then Round(0, 0) else if h < 3 then Round(1, 1) else Round(2, 3)
  }

  function AuthorAt(h: int): Address
  {
    if h == 3 then B else A
  }

  function CountsAt(h: int, index: nat): BlockCounts
  {
    if index == 0 then (if h < 1 then map[] else map[A := 1])
    else if index == 1 then (if h < 2 then map[] else if h == 2 then map[A := 1] else map[A := 1, B := 1])
    else if index == 2 then (if h < 4 then map[] else map[A := 1])
    else map[]
  }

  function EventsAt(last: seq<Event>, h: int): seq<Event>
  {
    if h == 0 then [Deposit(COLLATOR_POT, 500)]
    else if h == 1 then [Deposit(COLLATOR_POT, 40000), Deposit(A, 900), OtherEvent]
    else if h == 2 then [Deposit(COLLATOR_POT, 20001)]
    else if h == 3 then PAYS_A
    else if h == 4 then last
    else []
  }

  function StakesAt(h: int, index: nat): Snapshot
  {
    if h == 1 && index == 1 then STAKES else map[]
  }

  /** The node, whose block 4 has the events `last`. */
  function Chain(last: seq<Event>): Node
  {
    Node(4, RoundAt, AuthorAt, h => EventsAt(last, h), CountsAt, StakesAt, h => 0)
  }

  lemma RoundsOfChain(last: seq<Event>)
    ensures RoundsAdvance(Chain(last))
    ensures Walked(Chain(last), 1, [SESSION]) && Adjacent([SESSION], Chain(last).round(4).first)
  {
    assert IsRound(Chain(last), SESSION);
  }

  lemma CountsOfChain(last: seq<Event>)
    ensures ChainCounts(Chain(last))
    ensures BlockInfo(Chain(last), SESSION) == map[A := 1, B := 1]
    ensures SnapshotOf(Chain(last), SESSION) == STAKES
  {
    forall h, index: nat | 1 <= h <= 4
      ensures Credited(Chain(last), h, index)
    {
    }
  }

  // ----- what is due

  lemma WeightsOfChain()
    ensures Weights(STAKES, map[A := 1, B := 1]) == map[A := 20.0, B := 20.0]
    ensures Total(Weights(STAKES, map[A := 1, B := 1])) == 40.0
  {
    PoolWeightMeaning(1, 10, POOL_A.delegators);
    assert POOL_A.delegators[..0] == [];
    assert AmountSum(POOL_A.delegators) == 10.0;
    var weights: map<Address, real> := map[A := 20.0, B := 20.0];
    assert Weights(STAKES, map[A := 1, B := 1]) == weights;
    TotalOfTwo(weights, A, B);
  }

  lemma SharesOfA()
    ensures PoolShares(A, 1, POOL_A, 40.0) == map[A := 0.275, D := 0.225]
  {
    var ds := POOL_A.delegators;
    assert ds[..0] == [];
    assert CommissionSum(1, CommissionOf(POOL_A), ds, 40.0) == 0.025;
    assert EntriesUpTo(A, 1, POOL_A, 40.0, 0) == [(A, 0.275)];
    OneEntry(A, 0.275);
    FilledAppend([(A, 0.275)], D, 0.225);
  }

  lemma SharesOfB()
    ensures PoolShares(B, 1, POOL_B, 40.0) == map[B := 0.5]
  {
    assert EntriesUpTo(B, 1, POOL_B, 40.0, 0) == [(B, 0.5)];
    OneEntry(B, 0.5);
  }

  lemma RewardOfChain(last: seq<Event>)
    ensures SessionReward(Chain(last), SESSION) == 60001.0
  {
    var node := Chain(last);
    assert node.events(1)[..2][..1][..0] == [];
    assert node.events(2)[..0] == [];
    assert node.events(1)[..2][..1] == [Deposit(COLLATOR_POT, 40000)];
    assert DepositsToPot(node.events(1)[..2][..1]) == 40000;
    assert DepositsToPot(node.events(1)[..2]) == 40000;
    assert DepositsToPot(node.events(1)) == 40000;
    assert DepositsToPot(node.events(2)) == 20001;
    assert DepositsOver(node, 1, 1) == 0;
    assert DepositsOver(node, 1, 2) == 40000;
  }

  const DUE: Shares := map[A := map[A := 16500.275, D := 13500.225], B := map[B := 30000.5]]

  lemma FairOfChain(last: seq<Event>)
    ensures SharesAreFair(Chain(last), SESSION)
  {
    hide Weights, Total, BlockInfo, SnapshotOf;
    CountsOfChain(last);
    WeightsOfChain();
  }

  lemma DueOfChain(last: seq<Event>)
    ensures SharesAreFair(Chain(last), SESSION)
    ensures DuePools(Chain(last), SESSION) == DUE
  {
    hide Weights, Total, BlockInfo, SnapshotOf, SharesAreFair, SessionReward, Rewards, AllShares;
    FairOfChain(last);
    CountsOfChain(last);
    WeightsOfChain();
    RewardOfChain(last);
    SharesToDue();
  }

  lemma SharesToDue()
    ensures Rewards(AllShares(STAKES, map[A := 1, B := 1], 40.0), 60001.0) == DUE
  {
    hide PoolShares;
    SharesOfA();
    SharesOfB();
    assert Scaled(map[A := 0.275, D := 0.225], 60001.0) == DUE[A];
    assert Scaled(map[B := 0.5], 60001.0) == DUE[B];
  }

  // ----- what is paid

  lemma EntriesOfA()
    ensures RewardEntries(PAYS_A) == [(A, 16500.0), (D, 13500.0)]
  {
    assert PAYS_A[..2][..1][..0] == [];
    assert RewardEntries(PAYS_A[..2][..1]) == [];
    assert RewardEntries(PAYS_A[..2]) == [(A, 16500.0)];
  }

  lemma EntriesOfB()
    ensures RewardEntries(PAYS_B) == [(B, 30000.0)]
  {
    assert PAYS_B[..0] == [];
  }

  lemma AmountsAreFair()
    ensures FairAmount(16500.0, DUE[A][A]) && FairAmount(13500.0, DUE[A][D]) && FairAmount(30000.0, DUE[B][B])
    ensures DUE[A].Keys == {A, D} && DUE[B].Keys == {B}
  {
    RoundingIsFair(16500.0, DUE[A][A]);
    RoundingIsFair(13500.0, DUE[A][D]);
    RoundingIsFair(30000.0, DUE[B][B]);
  }

  lemma PaysAFairly()
    ensures PaysPool(PAYS_A, A, DUE[A])
  {
    hide RewardEntries, FairAmount;
    EntriesOfA();
    AmountsAreFair();
    var es := RewardEntries(PAYS_A);
    assert es[0].0 == A && es[1].0 == D;
  }

  lemma PaysBFairly()
    ensures PaysPool(PAYS_B, B, DUE[B])
  {
    hide RewardEntries, FairAmount;
    EntriesOfB();
    AmountsAreFair();
    assert RewardEntries(PAYS_B)[0].0 == B;
  }

  lemma PaysInOrderInFull()
    ensures PaysInOrder(Chain(PAYS_B), 3, 2, [A, B], DUE)
  {
    hide PaysPool, RewardEntries;
    PaysAFairly();
    PaysBFairly();
    var order := [A, B];
    assert order[0] == A && order[1] == B;
  }

  lemma InFullIsHonest()
    ensures HonestSession(Chain(PAYS_B), SESSION, [A, B])
    ensures Accepted(Chain(PAYS_B), SESSION)
  {
    hide RoundsAdvance, ChainCounts, Walked, HonestCounters, SharesAreFair, DuePools, PaysInOrder, Accepted, BlockInfo,
         SnapshotOf;
    RoundsOfChain(PAYS_B);
    CountsOfChain(PAYS_B);
    DueOfChain(PAYS_B);
    PaysInOrderInFull();
    var out, orders := [SESSION], [[A, B]];
    TraversalPasses(Chain(PAYS_B), 1, out, 0);
    HonestChainAccepted(Chain(PAYS_B), 1, out, orders, 0);
  }

  lemma InFullPaysAll()
    ensures forall c :: c in DUE ==> CollatorPaid(SessionPayouts(Chain(PAYS_B), SESSION), c)
  {
    hide PayoutsFrom, FairPool, PaysInOrder, PaidInOrder;
    var paid, order := SessionPayouts(Chain(PAYS_B), SESSION), [A, B];
    PaysInOrderInFull();
    PayoutsInOrder(Chain(PAYS_B), 3, 2, order, DUE);
    PaidInOrderPaysEveryEntryOnce(paid, 3, order, DUE);
  }

  /**
   Paid in full: the hypotheses of completeness along a whole chain are met together, with a
   delegator, a commission and amounts rounded down, and every pool is paid.
   */
  lemma PaidInFull()
    ensures var node := Chain(PAYS_B);
            && RoundsAdvance(node) && ChainCounts(node)
            && Walked(node, 1, [SESSION]) && Adjacent([SESSION], node.round(node.head).first)
            && HonestSession(node, SESSION, [A, B])
            && Accepted(node, SESSION)
            && forall c :: c in DuePools(node, SESSION) ==> CollatorPaid(SessionPayouts(node, SESSION), c)
  {
    hide RoundsAdvance, ChainCounts, Walked, HonestSession, DuePools, Accepted, PayoutsFrom, SharesAreFair;
    RoundsOfChain(PAYS_B);
    CountsOfChain(PAYS_B);
    DueOfChain(PAYS_B);
    InFullIsHonest();
    InFullPaysAll();
  }

  // ----- one pool paid twice

  const PAID_A: Payout := Payout(A, map[A := 16500.0, D := 13500.0])

  lemma FilledForA()
    ensures PayoutIn(PAYS_A) == PAID_A
  {
    hide RewardEntries;
    EntriesOfA();
    OneEntry(A, 16500.0);
    FilledAppend([(A, 16500.0)], D, 13500.0);
    assert RewardEntries(PAYS_A) == [(A, 16500.0)] + [(D, 13500.0)];
    assert PAID_A.reward == map[A := 16500.0][D := 13500.0];
  }

  lemma TwicePayouts()
    ensures SessionPayouts(Chain(PAYS_A), SESSION) == map[3 := PAID_A, 4 := PAID_A]
  {
    hide RewardEntries;
    EntriesOfA();
    FilledForA();
    var node := Chain(PAYS_A);
    assert node.events(3) == node.events(4) == PAYS_A;
  }

  lemma TwiceFits(paid: map<int, Payout>)
    requires paid == map[3 := PAID_A, 4 := PAID_A]
    ensures RewardAccepted(60001.0, paid, DUE)
    ensures |paid| == 2 && !CollatorPaid(paid, B) && CollatorPaid(paid, A)
  {
    TotalOfTwo(PAID_A.reward, A, D);
    TotalOfTwo(PaidTotals(paid), 3, 4);
    assert paid[3].collator == A;
  }

  /** Paid twice: the audit accepts a session that pays one pool in both blocks and the other in none. */
  lemma PaidTwice()
    ensures var node := Chain(PAYS_A);
            && RoundsAdvance(node) && ChainCounts(node)
            && Walked(node, 1, [SESSION])
            && SharesAreFair(node, SESSION)
            && Accepted(node, SESSION)
            && B in DuePools(node, SESSION) && !CollatorPaid(SessionPayouts(node, SESSION), B)
  {
    hide RoundsAdvance, ChainCounts, Walked, HonestCounters, SharesAreFair, DuePools, BlockInfo, SnapshotOf,
         PayoutsFrom, RewardAccepted, SessionRewards, SessionReward, CounterAgrees, Total;
    var node := Chain(PAYS_A);
    RoundsOfChain(PAYS_A);
    CountsOfChain(PAYS_A);
    DueOfChain(PAYS_A);
    RewardOfChain(PAYS_A);
    TraversalPasses(node, 1, [SESSION], 0);
    DuePoolsCalculated(node, SESSION);
    TwicePayouts();
    TwiceFits(SessionPayouts(node, SESSION));
  }
}
