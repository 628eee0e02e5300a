/**
 Reading the payouts of a session and checking them
 (tools/stress/stress_token_economy_v2.py:355-375 and 389-406).
 */
module Payouts {
  import opened Totals
  import opened Common
  import opened ChainView
  import opened RewardSplit

  /** The exact value of the double 0.0001, which Decimal keeps. */
  const TOLERANCE: real := 7378697629483821.0 / 73786976294838206464.0

  datatype Payout = Payout(collator: Address, reward: map<Address, real>)

  datatype RewardError = TotalOff | EntryOff(height: int, payee: Address) | NoSuchEntry(height: int, payee: Address)

  // ----- reading

  /** The Rewarded events of a block, in order. */
  ghost function RewardEntries(events: seq<Event>): seq<(Address, real)>
  {
    if events == [] then []
    else
      var e := events[|events| - 1];
      RewardEntries(events[..|events| - 1]) + if e.Rewarded? then [(e.who, e.amount as real)] else []
  }

  /** The first event names the collator; a later event for the same payee replaces the earlier one. */
  ghost function PayoutIn(events: seq<Event>): Payout
    requires RewardEntries(events) != []
  {
    Payout(RewardEntries(events)[0].0, Filled(RewardEntries(events)))
  }

  ghost predicate PaidThrough(node: Node, start: int, h: int)
  {
    forall g :: start <= g <= h ==> RewardEntries(node.events(g)) != []
  }

  /** The payouts of a session: one per block, up to the first block without any. */
  ghost function PayoutsFrom(node: Node, start: int, length: int): map<int, Payout>
  {
    map h | start <= h < start + length && PaidThrough(node, start, h) :: PayoutIn(node.events(h))
  }

  method ReadBlock(events: seq<Event>) returns (collator: Option<Address>, reward: map<Address, real>)
    ensures reward == Filled(RewardEntries(events))
    ensures reward == map[] <==> RewardEntries(events) == []
    ensures collator == if RewardEntries(events) == [] then None else Some(RewardEntries(events)[0].0)
  {
    collator, reward := None, map[];
    for i := 0 to |events|
      invariant reward == Filled(RewardEntries(events[..i]))
      invariant collator == if RewardEntries(events[..i]) == [] then None else Some(RewardEntries(events[..i])[0].0)
    {
      assert events[..i + 1][..i] == events[..i];
      var e := events[i];
      if !e.Rewarded? {
        assert RewardEntries(events[..i + 1]) == RewardEntries(events[..i]);
        continue;
      }
      if collator == None {
        collator := Some(e.who);
      }
      ghost var es := RewardEntries(events[..i + 1]);
      assert es[..|es| - 1] == RewardEntries(events[..i]);
      reward := reward[e.who := e.amount as real];
    }
    assert events[..|events|] == events;
    FilledLookup(RewardEntries(events));
  }

  /** get_reward_info */
  method GetRewardInfo(node: Node, start: int, length: int) returns (info: map<int, Payout>)
    ensures info == PayoutsFrom(node, start, length)
  {
    hide Filled, RewardEntries;
    info := map[];
    var h := start;
    while h < start + length
      invariant start <= h
      invariant PaidThrough(node, start, h - 1)
      invariant forall g :: g in info <==> start <= g < h
      invariant h <= start + length || h == start
      invariant forall g :: g in info ==> info[g] == PayoutIn(node.events(g))
    {
      var collator, reward := ReadBlock(node.events(h));
      if reward == map[] {
        assert !PaidThrough(node, start, h);
        break;
      }
      info := info[h := Payout(collator.value, reward)];
      h := h + 1;
    }
    assert info == PayoutsFrom(node, start, length);
  }

  // ----- checking

  ghost function PaidTotals(paid: map<int, Payout>): map<int, real>
  {
    map h | h in paid :: Total(paid[h].reward)
  }

  function Abs(x: real): real
  {
    if x < 0.0 then -x else x
  }

  /** The difference is measured against the paid amount, not the calculated one. */
  predicate Close(paid: real, calculated: real)
  {
    Abs(paid - calculated) <= TOLERANCE * paid
  }

  ghost predicate TotalAccepted(reward: real, paid: map<int, Payout>)
  {
    Abs(Total(PaidTotals(paid)) - reward) <= TOLERANCE * reward
  }

  ghost predicate EntryAccepted(calculated: Shares, p: Payout, a: Address)
    requires a in p.reward
  {
    p.collator in calculated && a in calculated[p.collator] && Close(p.reward[a], calculated[p.collator][a])
  }

  ghost predicate PayoutAccepted(calculated: Shares, p: Payout)
  {
    forall a :: a in p.reward ==> EntryAccepted(calculated, p, a)
  }

  ghost predicate RewardAccepted(reward: real, paid: map<int, Payout>, calculated: Shares)
  {
    TotalAccepted(reward, paid) && forall h :: h in paid ==> PayoutAccepted(calculated, paid[h])
  }

  method SumRewards(reward: map<Address, real>) returns (sum: real)
    ensures sum == Total(reward)
  {
    sum := 0.0;
    var todo := reward.Keys;
    ghost var done: map<Address, real> := map[];
    while todo != {}
      invariant todo <= reward.Keys
      invariant done.Keys == reward.Keys - todo
      invariant forall a :: a in done ==> done[a] == reward[a]
      invariant sum == Total(done)
      decreases |todo|
    {
      var a :| a in todo;
      todo := todo - {a};
      sum := sum + reward[a];
      TotalPut(done, a, reward[a]);
      done := done[a := reward[a]];
    }
    assert done == reward;
  }

  method AnyItem(paid: map<int, Payout>) returns (h: int)
    requires paid != map[]
    ensures h in paid
  {
    assert paid.Keys != {};
    var item :| item in paid.Items;
    h := item.0;
  }

  /** The first loop of check_reward. */
  method SumPaid(paid: map<int, Payout>) returns (sum: real)
    ensures sum == Total(PaidTotals(paid))
  {
    sum := 0.0;
    var rest := paid;
    while rest != map[]
      invariant sum + Total(PaidTotals(rest)) == Total(PaidTotals(paid))
      decreases |rest.Keys|
    {
      var h := AnyItem(rest);
      var block := SumRewards(rest[h].reward);
      sum := sum + block;
      TotalAt(PaidTotals(rest), h);
      assert PaidTotals(rest - {h}) == PaidTotals(rest) - {h};
      rest := rest - {h};
    }
    assert PaidTotals(rest) == map[];
  }

  method CheckPayout(calculated: Shares, h: int, p: Payout) returns (r: Outcome<(), RewardError>)
    ensures r.Ok? <==> PayoutAccepted(calculated, p)
    ensures r.Err? ==> ErrorAt(calculated, h, p, r.error)
  {
    var todo := p.reward.Keys;
    while todo != {}
      invariant todo <= p.reward.Keys
      invariant forall a :: a in p.reward && a !in todo ==> EntryAccepted(calculated, p, a)
      decreases |todo|
    {
      var a :| a in todo;
      todo := todo - {a};
      if p.collator !in calculated || a !in calculated[p.collator] {
        assert !EntryAccepted(calculated, p, a);
        return Err(NoSuchEntry(h, a));
      }
      if Abs(p.reward[a] - calculated[p.collator][a]) > TOLERANCE * p.reward[a] {
        assert !EntryAccepted(calculated, p, a);
        return Err(EntryOff(h, a));
      }
    }
    r := Ok(());
  }

  ghost predicate ErrorAt(calculated: Shares, h: int, p: Payout, e: RewardError)
  {
    match e
    case TotalOff => false
    case NoSuchEntry(g, a) =>
      g == h && a in p.reward && (p.collator in calculated ==> a !in calculated[p.collator])
    case EntryOff(g, a) =>
      g == h && a in p.reward && p.collator in calculated && a in calculated[p.collator]
      && !Close(p.reward[a], calculated[p.collator][a])
  }

  /** The total is judged first; an entry error names an entry that is really off, or was never calculated. */
  ghost predicate RewardErrorFits(reward: real, paid: map<int, Payout>, calculated: Shares, e: RewardError)
  {
    if e.TotalOff? then !TotalAccepted(reward, paid)
    else TotalAccepted(reward, paid) && e.height in paid && ErrorAt(calculated, e.height, paid[e.height], e)
  }

  /** check_reward */
  method CheckReward(reward: real, paid: map<int, Payout>, calculated: Shares) returns (r: Outcome<(), RewardError>)
    ensures r.Ok? <==> RewardAccepted(reward, paid, calculated)
    ensures var total, tenThousandth := Total(PaidTotals(paid)), 7378697629483821.0 / 73786976294838206464.0;
            reward >= 0.0 ==>
              (r == Err(TotalOff) <==>
               total < reward - tenThousandth * reward || total > reward + tenThousandth * reward)
    ensures r.Err? ==> RewardErrorFits(reward, paid, calculated, r.error)
    ensures match r
            case Err(EntryOff(h, a)) =>
              && h in paid && a in paid[h].reward
              && paid[h].collator in calculated && a in calculated[paid[h].collator]
              && !Close(paid[h].reward[a], calculated[paid[h].collator][a])
            case Err(NoSuchEntry(h, a)) =>
              && h in paid && a in paid[h].reward
              && (paid[h].collator in calculated ==> a !in calculated[paid[h].collator])
            case _ => true
  {
    hide PayoutAccepted, Total, PaidTotals, Close;
    var distributed := SumPaid(paid);
    if Abs(distributed - reward) > TOLERANCE * reward {
      return Err(TotalOff);
    }
    var rest := paid;
    while rest != map[]
      invariant forall h :: h in rest ==> h in paid && rest[h] == paid[h]
      invariant forall h :: h in paid && h !in rest ==> PayoutAccepted(calculated, paid[h])
      decreases |rest.Keys|
    {
      var h := AnyItem(rest);
      var block := CheckPayout(calculated, h, rest[h]);
      if block.Err? {
        return block;
      }
      rest := rest - {h};
    }
    r := Ok(());
  }
}
