/**
 The staking pot: its deposits, its payouts and its balance
 (tools/stress/stress_token_economy_v2.py:124-161 and 306-340).
 */
module PotLedger {
  import opened Common
  import opened ChainView

  /** The exact value of the double 0.000001, which Decimal keeps. */
  const PRECISION: real := 4722366482869645.0 / 4722366482869645213696.0

  ghost function DepositsToPot(events: seq<Event>): nat
  {
    if events == [] then 0
    else
      var e := events[|events| - 1];
      DepositsToPot(events[..|events| - 1]) + if e.Deposit? && e.who == COLLATOR_POT then e.amount else 0
  }

  ghost function PaidOut(events: seq<Event>): nat
  {
    if events == [] then 0
    else
      var e := events[|events| - 1];
      PaidOut(events[..|events| - 1]) + if e.Rewarded? then e.amount else 0
  }

  /** Deposits of blocks lo .. hi - 1, and likewise payouts. */
  ghost function DepositsOver(node: Node, lo: int, hi: int): nat
    decreases hi - lo
  {
    if hi <= lo then 0 else DepositsOver(node, lo, hi - 1) + DepositsToPot(node.events(hi - 1))
  }

  ghost function PaidOver(node: Node, lo: int, hi: int): nat
    decreases hi - lo
  {
    if hi <= lo then 0 else PaidOver(node, lo, hi - 1) + PaidOut(node.events(hi - 1))
  }

  /** get_all_deposits_to_pot */
  method AllDepositsToPot(events: seq<Event>) returns (deposit: nat)
    ensures deposit == DepositsToPot(events)
  {
    deposit := 0;
    for i := 0 to |events|
      invariant deposit == DepositsToPot(events[..i])
    {
      assert events[..i + 1][..i] == events[..i];
      if !events[i].Deposit? { continue; }
      if events[i].who != COLLATOR_POT { continue; }
      deposit := deposit + events[i].amount;
    }
    assert events[..|events|] == events;
  }

  /** get_all_distribution_to_collator_delegator_in_block */
  method DistributionInBlock(events: seq<Event>) returns (distribution: nat)
    ensures distribution == PaidOut(events)
  {
    distribution := 0;
    for i := 0 to |events|
      invariant distribution == PaidOut(events[..i])
    {
      assert events[..i + 1][..i] == events[..i];
      if !events[i].Rewarded? { continue; }
      distribution := distribution + events[i].amount;
    }
    assert events[..|events|] == events;
  }

  /** get_total_session_rewards */
  method TotalSessionRewards(node: Node, first: int, length: int) returns (deposit: nat)
    ensures deposit == DepositsOver(node, first, first + length)
  {
    deposit := 0;
    var h := first;
    while h < first + length
      invariant first <= h && (h <= first + length || h == first)
      invariant deposit == DepositsOver(node, first, h)
    {
      var deposits := AllDepositsToPot(node.events(h));
      deposit := deposit + deposits;
      h := h + 1;
    }
  }

  /** calculate_pot_balance */
  method CalculatePotBalance(node: Node, h: int) returns (balance: int)
    ensures balance == node.potBalance(h) - node.potBalance(h - 1) + PaidOut(node.events(h))
  {
    var distribution := DistributionInBlock(node.events(h));
    balance := node.potBalance(h) - node.potBalance(h - 1) + distribution;
  }

  /** What left the pot in block `h` without a Rewarded event; negative when more came in than was deposited. */
  ghost function Leak(node: Node, h: int): int
  {
    node.potBalance(h - 1) + DepositsToPot(node.events(h)) - PaidOut(node.events(h)) - node.potBalance(h)
  }

  ghost predicate LeakTolerated(node: Node, h: int)
  {
    Leak(node, h) as real <= PRECISION * DepositsToPot(node.events(h)) as real
  }

  /** block_check: the error names the first block whose leak is too large. */
  method BlockCheck(node: Node, testNum: int) returns (r: Outcome<(), int>)
    ensures r.Ok? <==> forall h :: node.head - testNum <= h < node.head ==> LeakTolerated(node, h)
    ensures r.Err? ==> node.head - testNum <= r.error < node.head && !LeakTolerated(node, r.error)
    ensures r.Err? ==> forall h :: node.head - testNum <= h < r.error ==> LeakTolerated(node, h)
  {
    var h := node.head - testNum;
    while h < node.head
      invariant node.head - testNum <= h
      invariant forall g :: node.head - testNum <= g < h ==> LeakTolerated(node, g)
    {
      var blockReward := AllDepositsToPot(node.events(h));
      var potBalance := CalculatePotBalance(node, h);
      if (blockReward - potBalance) as real > PRECISION * blockReward as real {
        assert !LeakTolerated(node, h);
        return Err(h);
      }
      h := h + 1;
    }
    r := Ok(());
  }

  /** Only deposits to the pot's own address count, and every reward does, each once. */
  lemma {:induction false} EventsAdd(events: seq<Event>, more: seq<Event>)
    ensures DepositsToPot(events + more) == DepositsToPot(events) + DepositsToPot(more)
    ensures PaidOut(events + more) == PaidOut(events) + PaidOut(more)
    ensures |more| == 1 ==>
              && DepositsToPot(more)
                 == (match more[0]
                     case Deposit(who, amount) =>
                       if who == "5EYCAe5cKPAoFh2HnQQvpKqRYZGqBpaA87u4Zzw89qPE58is" then amount else 0
                     case _ => 0)
              && PaidOut(more) == (match more[0] case Rewarded(_, amount) => amount case _ => 0)
  {
    if more == [] {
      assert events + more == events;
    } else {
      var init := more[..|more| - 1];
      EventsAdd(events, init);
      assert (events + more)[..|events + more| - 1] == events + init;
    }
  }

  // ----- ledgers

  /** The balance the events of a block lead to: a deposit to the pot adds, a reward takes away. */
  ghost function BalanceAfter(before: int, events: seq<Event>): int
  {
    if events == [] then before
    else
      var e := events[|events| - 1];
      var sofar := BalanceAfter(before, events[..|events| - 1]);
      if e.Deposit? && e.who == COLLATOR_POT then sofar + e.amount
      else if e.Rewarded? then sofar - e.amount
      else sofar
  }

  /** The pot moves only by deposits to it and by rewards paid from it. */
  ghost predicate PotMoves(node: Node, h: int)
  {
    node.potBalance(h) == BalanceAfter(node.potBalance(h - 1), node.events(h))
  }

  lemma {:induction false} EventsMoveBalance(before: int, events: seq<Event>)
    ensures BalanceAfter(before, events) == before + DepositsToPot(events) - PaidOut(events)
  {
    if events != [] {
      EventsMoveBalance(before, events[..|events| - 1]);
    }
  }

  /** On such a ledger nothing leaks: the change of the balance, payouts added back, is the block's deposits. */
  lemma LedgerDoesNotLeak(node: Node, h: int)
    requires PotMoves(node, h)
    ensures Leak(node, h) == 0
    ensures node.potBalance(h) - node.potBalance(h - 1) + PaidOut(node.events(h)) == DepositsToPot(node.events(h))
  {
    EventsMoveBalance(node.potBalance(h - 1), node.events(h));
  }

  /** Over any session the deposits are the change of the balance plus everything paid out. */
  lemma {:induction false} LedgerTelescopes(node: Node, lo: int, hi: int)
    requires lo <= hi
    requires forall h :: lo <= h < hi ==> PotMoves(node, h)
    ensures DepositsOver(node, lo, hi) == node.potBalance(hi - 1) - node.potBalance(lo - 1) + PaidOver(node, lo, hi)
    decreases hi - lo
  {
    if lo < hi {
      LedgerTelescopes(node, lo, hi - 1);
      LedgerDoesNotLeak(node, hi - 1);
    }
  }

  /**
   A balance that is `extra` off what the events lead to is accepted exactly when it is not too
   low: the check looks one way, and any gain passes.
   */
  lemma DriftAcceptedIff(node: Node, h: int, extra: int)
    requires node.potBalance(h) == BalanceAfter(node.potBalance(h - 1), node.events(h)) + extra
    ensures var millionth := 4722366482869645.0 / 4722366482869645213696.0;
            LeakTolerated(node, h) <==> (-extra) as real <= millionth * DepositsToPot(node.events(h)) as real
    ensures extra >= 0 ==> LeakTolerated(node, h)
  {
    EventsMoveBalance(node.potBalance(h - 1), node.events(h));
    assert PRECISION * DepositsToPot(node.events(h)) as real >= 0.0;
  }

  /** A ledger that moves the pot by its events is accepted, however many blocks are looked at. */
  lemma LedgerAccepted(node: Node, testNum: int)
    requires forall h :: node.head - testNum <= h < node.head ==> PotMoves(node, h)
    ensures forall h :: node.head - testNum <= h < node.head ==> LeakTolerated(node, h)
  {
    forall h | node.head - testNum <= h < node.head
      ensures LeakTolerated(node, h)
    {
      assert PotMoves(node, h);
      DriftAcceptedIff(node, h, 0);
    }
  }

  /** Over any accepted run of blocks the pot has lost no more than that fraction of the deposits, payouts aside. */
  lemma {:induction false} AcceptedLeakIsBounded(node: Node, lo: int, hi: int)
    requires lo <= hi
    requires forall h :: lo <= h < hi ==> LeakTolerated(node, h)
    ensures var lost := node.potBalance(lo - 1) + DepositsOver(node, lo, hi) - PaidOver(node, lo, hi)
                        - node.potBalance(hi - 1);
            lost as real <= 4722366482869645.0 / 4722366482869645213696.0 * DepositsOver(node, lo, hi) as real
    decreases hi - lo
  {
    if lo < hi {
      AcceptedLeakIsBounded(node, lo, hi - 1);
      assert LeakTolerated(node, hi - 1);
      var before, now := DepositsOver(node, lo, hi - 1) as real, DepositsToPot(node.events(hi - 1)) as real;
      assert PRECISION * (before + now) == PRECISION * before + PRECISION * now;
    }
  }
}
