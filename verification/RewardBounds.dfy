/**
 What an accepted payout says about the fair split, and what a fair payout needs to be accepted
 (tools/stress/stress_token_economy_v2.py:389-406).
 */
module RewardBounds {
  import opened Totals
  import opened ChainView
  import opened RewardSplit
  import opened Payouts

  /** No collator is paid in two blocks. */
  ghost predicate DistinctCollators(paid: map<int, Payout>)
  {
    forall g, h :: g in paid && h in paid && paid[g].collator == paid[h].collator ==> g == h
  }

  /** The block that pays `c` pays exactly its pool. */
  ghost predicate PaidOnce(paid: map<int, Payout>, calculated: Shares, h: int)
    requires h in paid
  {
    paid[h].collator in calculated && paid[h].reward.Keys == calculated[paid[h].collator].Keys
  }

  ghost predicate CollatorPaid(paid: map<int, Payout>, c: Address)
  {
    exists h :: h in paid && paid[h].collator == c
  }

  /** Every calculated entry is paid, and paid once. */
  ghost predicate EveryEntryPaidOnce(paid: map<int, Payout>, calculated: Shares)
  {
    && DistinctCollators(paid)
    && (forall h :: h in paid ==> PaidOnce(paid, calculated, h))
    && (forall c :: c in calculated ==> CollatorPaid(paid, c))
  }

  ghost function Collators(paid: map<int, Payout>): map<int, Address>
  {
    map h | h in paid :: paid[h].collator
  }

  /** What the pools paid in each block were calculated to get. */
  ghost function CalculatedFor(paid: map<int, Payout>, calculated: Shares): map<int, real>
    requires forall h :: h in paid ==> paid[h].collator in calculated
  {
    map h | h in paid :: Total(calculated[paid[h].collator])
  }

  lemma CalculatedByBlock(paid: map<int, Payout>, calculated: Shares)
    requires EveryEntryPaidOnce(paid, calculated)
    ensures (forall h :: h in paid ==> paid[h].collator in calculated)
            && Total(CalculatedFor(paid, calculated)) == GrandTotal(calculated)
  {
    hide Total;
    forall h | h in paid
      ensures paid[h].collator in calculated
    {
      assert PaidOnce(paid, calculated, h);
    }
    var name := Collators(paid);
    forall c | c in PoolTotals(calculated)
      ensures exists h :: h in name && name[h] == c
    {
      assert CollatorPaid(paid, c);
      var h :| h in paid && paid[h].collator == c;
      assert name[h] == c;
    }
    TotalReindex(CalculatedFor(paid, calculated), name, PoolTotals(calculated));
  }

  /** Entry by entry, `calculated` lies between `low` and `high` times what was paid. */
  ghost predicate Between(reward: map<Address, real>, pool: map<Address, real>, low: real, high: real)
  {
    reward.Keys == pool.Keys
    && forall a :: a in reward ==> Portion(reward[a], low) <= pool[a] <= Portion(reward[a], high)
  }

  lemma PoolBetween(reward: map<Address, real>, pool: map<Address, real>, low: real, high: real)
    requires Between(reward, pool, low, high)
    ensures Portion(Total(reward), low) <= Total(pool) <= Portion(Total(reward), high)
  {
    hide Portion;
    TotalScaled(reward, low);
    TotalScaled(reward, high);
    TotalMono(Scaled(reward, low), pool);
    TotalMono(pool, Scaled(reward, high));
  }

  /** Bounds on every entry carry over to the totals. */
  lemma PaidTotalBetween(paid: map<int, Payout>, calculated: Shares, low: real, high: real)
    requires EveryEntryPaidOnce(paid, calculated)
    requires forall h :: h in paid ==>
               paid[h].collator in calculated && Between(paid[h].reward, calculated[paid[h].collator], low, high)
    ensures var total := Total(PaidTotals(paid));
            Portion(total, low) <= GrandTotal(calculated) <= Portion(total, high)
  {
    hide Portion, Total, EveryEntryPaidOnce;
    var totals, fair := PaidTotals(paid), CalculatedFor(paid, calculated);
    forall h | h in paid
      ensures Portion(totals[h], low) <= fair[h] <= Portion(totals[h], high)
    {
      PoolBetween(paid[h].reward, calculated[paid[h].collator], low, high);
    }
    TotalScaled(totals, low);
    TotalScaled(totals, high);
    TotalMono(Scaled(totals, low), fair);
    TotalMono(fair, Scaled(totals, high));
    CalculatedByBlock(paid, calculated);
  }

  /** The total is accepted within a ten-thousandth of the reward on either side; the constant is that of the double. */
  lemma TotalAcceptedIff(reward: real, paid: map<int, Payout>)
    requires reward >= 0.0
    ensures var total, tenThousandth := Total(PaidTotals(paid)), 7378697629483821.0 / 73786976294838206464.0;
            TotalAccepted(reward, paid) <==>
            Portion(reward, 1.0 - tenThousandth) <= total <= Portion(reward, 1.0 + tenThousandth)
  {
    hide Total;
    assert reward * (1.0 - TOLERANCE) == reward - TOLERANCE * reward;
    assert reward * (1.0 + TOLERANCE) == reward + TOLERANCE * reward;
  }

  /** An entry is accepted within a ten-thousandth of the amount paid, on either side. */
  lemma CloseIsBetween(r: real, c: real)
    ensures Close(r, c) <==> Portion(r, 1.0 - TOLERANCE) <= c <= Portion(r, 1.0 + TOLERANCE)
    ensures var tenThousandth := 7378697629483821.0 / 73786976294838206464.0;
            Close(r, c) <==> Portion(r, 1.0 - tenThousandth) <= c <= Portion(r, 1.0 + tenThousandth)
  {
    assert r * (1.0 - TOLERANCE) == r - TOLERANCE * r;
    assert r * (1.0 + TOLERANCE) == r + TOLERANCE * r;
  }

  /** If every calculated entry is paid once and accepted, the paid total is off by at most that fraction of itself. */
  lemma EntriesBoundTotal(paid: map<int, Payout>, calculated: Shares)
    requires EveryEntryPaidOnce(paid, calculated)
    requires forall h :: h in paid ==> PayoutAccepted(calculated, paid[h])
    ensures Close(Total(PaidTotals(paid)), GrandTotal(calculated))
  {
    hide Portion, Close, Total;
    forall h | h in paid
      ensures paid[h].collator in calculated
      ensures Between(paid[h].reward, calculated[paid[h].collator], 1.0 - TOLERANCE, 1.0 + TOLERANCE)
    {
      assert PaidOnce(paid, calculated, h);
      forall a | a in paid[h].reward
        ensures var r, c := paid[h].reward[a], calculated[paid[h].collator][a];
                Portion(r, 1.0 - TOLERANCE) <= c <= Portion(r, 1.0 + TOLERANCE)
      {
        assert EntryAccepted(calculated, paid[h], a);
        CloseIsBetween(paid[h].reward[a], calculated[paid[h].collator][a]);
      }
    }
    PaidTotalBetween(paid, calculated, 1.0 - TOLERANCE, 1.0 + TOLERANCE);
    CloseIsBetween(Total(PaidTotals(paid)), GrandTotal(calculated));
  }

  // ----- fair payouts

  /** An amount over or under what was calculated by no more than the tolerance of either. */
  predicate FairAmount(r: real, c: real)
  {
    Close(r, c) && Portion(c, 1.0 - TOLERANCE) <= r <= Portion(c, 1.0 + TOLERANCE)
  }

  /** What is calculated exactly is fair, and so is an amount of at least 10000 that is rounded, down or up. */
  lemma RoundingIsFair(r: real, c: real)
    requires r >= 0.0 && (r == c || (r >= 10000.0 && c >= 10000.0 && Abs(r - c) <= 1.0))
    ensures FairAmount(r, c)
  {
    assert r * TOLERANCE >= 0.0;
    if r != c {
      assert (r - 10000.0) * TOLERANCE >= 0.0 && (c - 10000.0) * TOLERANCE >= 0.0;
      assert r * TOLERANCE >= 1.0 && c * TOLERANCE >= 1.0;
    }
    assert c * (1.0 - TOLERANCE) == c - c * TOLERANCE;
    assert c * (1.0 + TOLERANCE) == c + c * TOLERANCE;
  }

  ghost predicate FairPool(reward: map<Address, real>, pool: map<Address, real>)
  {
    reward.Keys == pool.Keys && forall a :: a in reward ==> FairAmount(reward[a], pool[a])
  }

  /** Bounds on every payout carry over to the total paid. */
  lemma PaidTotalWithin(paid: map<int, Payout>, calculated: Shares, low: real, high: real)
    requires EveryEntryPaidOnce(paid, calculated)
    requires forall h :: h in paid ==>
               paid[h].collator in calculated && Between(calculated[paid[h].collator], paid[h].reward, low, high)
    ensures var total := Total(PaidTotals(paid));
            Portion(GrandTotal(calculated), low) <= total <= Portion(GrandTotal(calculated), high)
  {
    hide Portion, Total, EveryEntryPaidOnce;
    var totals, fair := PaidTotals(paid), CalculatedFor(paid, calculated);
    forall h | h in paid
      ensures Portion(fair[h], low) <= totals[h] <= Portion(fair[h], high)
    {
      PoolBetween(calculated[paid[h].collator], paid[h].reward, low, high);
    }
    TotalScaled(fair, low);
    TotalScaled(fair, high);
    TotalMono(Scaled(fair, low), totals);
    TotalMono(totals, Scaled(fair, high));
    CalculatedByBlock(paid, calculated);
  }

  /** Fair payouts of a reward that is all shared out, over as well as under, pass every comparison. */
  lemma FairPayoutsAccepted(reward: real, paid: map<int, Payout>, calculated: Shares)
    requires reward >= 0.0 && GrandTotal(calculated) == reward
    requires EveryEntryPaidOnce(paid, calculated)
    requires forall h :: h in paid ==>
               paid[h].collator in calculated && FairPool(paid[h].reward, calculated[paid[h].collator])
    ensures RewardAccepted(reward, paid, calculated)
  {
    hide Portion, Total, Close, TotalAccepted;
    forall h | h in paid
      ensures Between(calculated[paid[h].collator], paid[h].reward, 1.0 - TOLERANCE, 1.0 + TOLERANCE)
      ensures PayoutAccepted(calculated, paid[h])
    {
      var pool := calculated[paid[h].collator];
      forall a | a in paid[h].reward
        ensures EntryAccepted(calculated, paid[h], a)
      {
        assert FairAmount(paid[h].reward[a], pool[a]);
      }
      assert forall a :: a in pool ==> FairAmount(paid[h].reward[a], pool[a]);
    }
    PaidTotalWithin(paid, calculated, 1.0 - TOLERANCE, 1.0 + TOLERANCE);
    TotalAcceptedIff(reward, paid);
  }

  // ----- what acceptance leaves open

  /** The part of a pool's calculated shares that block `h` pays. */
  ghost function PaidPart(p: Payout, calculated: Shares): map<Address, real>
    requires p.collator in calculated
  {
    Among(calculated[p.collator], p.reward.Keys)
  }

  ghost function PaidTo(paid: map<int, Payout>, c: Address): set<Address>
  {
    set h, a | h in paid && paid[h].collator == c && a in paid[h].reward :: a
  }

  /** What accounts were calculated to get in pools whose payouts never name them. */
  ghost function Unpaid(paid: map<int, Payout>, calculated: Shares): map<Address, real>
  {
    map c | c in calculated :: Total(calculated[c] - PaidTo(paid, c))
  }

  ghost function PaidShares(paid: map<int, Payout>, calculated: Shares): map<Address, real>
  {
    map c | c in calculated :: Total(Among(calculated[c], PaidTo(paid, c)))
  }

  lemma UnpaidIsTheRest(paid: map<int, Payout>, calculated: Shares)
    ensures Total(Unpaid(paid, calculated)) == GrandTotal(calculated) - Total(PaidShares(paid, calculated))
  {
    hide Total, PaidTo;
    forall c | c in calculated
      ensures Unpaid(paid, calculated)[c] == PoolTotals(calculated)[c] - PaidShares(paid, calculated)[c]
    {
      TotalSplit(calculated[c], PaidTo(paid, c));
    }
    TotalMinus(Unpaid(paid, calculated), PoolTotals(calculated), PaidShares(paid, calculated));
  }

  ghost function PaidPartTotals(paid: map<int, Payout>, calculated: Shares): map<int, real>
    requires forall h :: h in paid ==> paid[h].collator in calculated
  {
    map h | h in paid :: Total(PaidPart(paid[h], calculated))
  }

  lemma PaidSharesByBlock(paid: map<int, Payout>, calculated: Shares)
    requires DistinctCollators(paid)
    requires forall h :: h in paid ==> paid[h].collator in calculated
    ensures Total(PaidPartTotals(paid, calculated)) == Total(PaidShares(paid, calculated))
  {
    hide Total;
    var name, parts, shares := Collators(paid), PaidPartTotals(paid, calculated), PaidShares(paid, calculated);
    forall h | h in paid
      ensures shares[name[h]] == parts[h]
    {
      var c := paid[h].collator;
      assert PaidTo(paid, c) == paid[h].reward.Keys;
    }
    forall c | c in shares && shares[c] != 0.0
      ensures exists h :: h in name && name[h] == c
    {
      if !CollatorPaid(paid, c) {
        assert PaidTo(paid, c) == {};
        TotalZero(Among(calculated[c], {}));
        assert false;
      }
      var h :| h in paid && paid[h].collator == c;
      assert name[h] == c;
    }
    TotalReindex(parts, name, shares);
  }

  lemma AcceptedPoolBound(calculated: Shares, p: Payout)
    requires PayoutAccepted(calculated, p) && p.collator in calculated
    ensures var part := Total(PaidPart(p, calculated));
            Portion(Total(p.reward), 1.0 - TOLERANCE) <= part <= Portion(Total(p.reward), 1.0 + TOLERANCE)
  {
    hide Portion, Total, Close;
    var part := PaidPart(p, calculated);
    forall a | a in p.reward
      ensures a in part
      ensures Portion(p.reward[a], 1.0 - TOLERANCE) <= part[a] <= Portion(p.reward[a], 1.0 + TOLERANCE)
    {
      assert EntryAccepted(calculated, p, a);
      CloseIsBetween(p.reward[a], calculated[p.collator][a]);
    }
    assert part.Keys == p.reward.Keys;
    PoolBetween(p.reward, part, 1.0 - TOLERANCE, 1.0 + TOLERANCE);
  }

  lemma AcceptedPartsBound(paid: map<int, Payout>, calculated: Shares)
    requires forall h :: h in paid ==> PayoutAccepted(calculated, paid[h]) && paid[h].collator in calculated
    ensures var total, parts := Total(PaidTotals(paid)), Total(PaidPartTotals(paid, calculated));
            Portion(total, 1.0 - TOLERANCE) <= parts <= Portion(total, 1.0 + TOLERANCE)
  {
    hide Portion, Total, PayoutAccepted;
    var totals, parts := PaidTotals(paid), PaidPartTotals(paid, calculated);
    forall h | h in paid
      ensures Portion(totals[h], 1.0 - TOLERANCE) <= parts[h] <= Portion(totals[h], 1.0 + TOLERANCE)
    {
      AcceptedPoolBound(calculated, paid[h]);
    }
    TotalScaled(totals, 1.0 - TOLERANCE);
    TotalScaled(totals, 1.0 + TOLERANCE);
    TotalMono(Scaled(totals, 1.0 - TOLERANCE), parts);
    TotalMono(parts, Scaled(totals, 1.0 + TOLERANCE));
  }

  // ----- what is paid again

  /** What the entries that payouts name are due, counted for each block that names them, less counted once. */
  ghost function PaidAgain(paid: map<int, Payout>, calculated: Shares): real
    requires forall h :: h in paid ==> paid[h].collator in calculated
  {
    Total(PaidPartTotals(paid, calculated)) - Total(PaidShares(paid, calculated))
  }

  lemma AmongUnion(m: map<Address, real>, ks: set<Address>, ls: set<Address>)
    requires forall a :: a in m ==> m[a] >= 0.0
    ensures Total(Among(m, ks + ls)) <= Total(Among(m, ks)) + Total(Among(m, ls))
  {
    hide Total;
    var both, right := Among(m, ks + ls), Among(m, ls);
    TotalSplit(both, ks);
    TotalSplit(right, ks);
    assert Among(both, ks) == Among(m, ks);
    assert both - ks == right - ks;
    TotalZeroIff(Among(right, ks));
  }

  lemma SomeHeight(paid: map<int, Payout>) returns (h: int)
    requires paid != map[]
    ensures h in paid
  {
    assert paid.Keys != {};
    var item :| item in paid.Items;
    h := item.0;
  }

  lemma PaidToLess(paid: map<int, Payout>, h: int, c: Address)
    requires h in paid
    ensures PaidTo(paid, c)
            == if c == paid[h].collator then PaidTo(paid - {h}, c) + paid[h].reward.Keys else PaidTo(paid - {h}, c)
  {
    var rest := paid - {h};
    forall a
      ensures a in PaidTo(paid, c) <==>
              a in PaidTo(rest, c) || (c == paid[h].collator && a in paid[h].reward)
    {
      if a in PaidTo(paid, c) {
        var g :| g in paid && paid[g].collator == c && a in paid[g].reward;
        if g != h { assert g in rest && rest[g] == paid[g]; }
      }
      if a in PaidTo(rest, c) {
        var g :| g in rest && rest[g].collator == c && a in rest[g].reward;
        assert g in paid && paid[g] == rest[g];
      }
    }
  }

  /** One more payout adds at most its own part to what is paid. */
  lemma OnePayoutMore(paid: map<int, Payout>, calculated: Shares, h: int)
    requires h in paid && paid[h].collator in calculated
    requires forall c, a :: c in calculated && a in calculated[c] ==> calculated[c][a] >= 0.0
    ensures Total(PaidShares(paid, calculated))
            <= Total(PaidShares(paid - {h}, calculated)) + Total(PaidPart(paid[h], calculated))
  {
    hide Total, Among;
    var rest, own, part := paid - {h}, paid[h].collator, Total(PaidPart(paid[h], calculated));
    var before := PaidShares(rest, calculated);
    forall c | c in calculated
      ensures PaidShares(paid, calculated)[c] <= before[own := before[own] + part][c]
    {
      PaidToLess(paid, h, c);
      if c == own {
        AmongUnion(calculated[c], PaidTo(rest, c), paid[h].reward.Keys);
      }
    }
    TotalMono(PaidShares(paid, calculated), before[own := before[own] + part]);
    TotalPut(before, own, before[own] + part);
  }

  /** Paying again never counts for less than nothing, and for nothing when no collator is paid in two blocks. */
  lemma {:induction false} PaidAgainIsNotNegative(paid: map<int, Payout>, calculated: Shares)
    requires forall h :: h in paid ==> paid[h].collator in calculated
    requires forall c, a :: c in calculated && a in calculated[c] ==> calculated[c][a] >= 0.0
    ensures PaidAgain(paid, calculated) >= 0.0
    ensures DistinctCollators(paid) ==> PaidAgain(paid, calculated) == 0.0
    decreases |paid|
  {
    hide Total, DistinctCollators, PaidPart, PaidShares;
    if paid == map[] {
      assert PaidPartTotals(paid, calculated) == map[];
      NothingPaid(paid, calculated);
    } else {
      var h := SomeHeight(paid);
      assert (paid - {h}).Keys == paid.Keys - {h};
      PaidAgainIsNotNegative(paid - {h}, calculated);
      OnePayoutMore(paid, calculated, h);
      TotalAt(PaidPartTotals(paid, calculated), h);
      assert PaidPartTotals(paid, calculated) - {h} == PaidPartTotals(paid - {h}, calculated);
    }
    if DistinctCollators(paid) { PaidSharesByBlock(paid, calculated); }
  }

  lemma NothingPaid(paid: map<int, Payout>, calculated: Shares)
    requires paid == map[]
    ensures Total(PaidPartTotals(paid, calculated)) == Total(PaidShares(paid, calculated)) == 0.0
  {
    hide Total;
    TotalZero(PaidPartTotals(paid, calculated));
    forall c | c in calculated
      ensures PaidShares(paid, calculated)[c] == 0.0
    {
      assert PaidTo(paid, c) == {};
      TotalZero(Among(calculated[c], {}));
    }
    TotalZero(PaidShares(paid, calculated));
  }

  lemma PaidCollatorsAreCalculated(paid: map<int, Payout>, calculated: Shares)
    requires forall h :: h in paid ==> PayoutAccepted(calculated, paid[h])
    requires forall h :: h in paid ==> paid[h].reward != map[]
    ensures forall h :: h in paid ==> paid[h].collator in calculated
  {
    hide Close;
    forall h | h in paid
      ensures paid[h].collator in calculated
    {
      assert paid[h].reward.Keys != {};
      var a :| a in paid[h].reward;
      assert EntryAccepted(calculated, paid[h], a);
    }
  }

  /**
   Soundness, whatever is paid twice and whatever part of the reward is not shared out: what is
   not shared out and what the accounts that no payout names were due come, together, to what is
   paid again, give or take little more than twice the tolerance of the reward.
   */
  lemma AcceptedUnpaidIsPaidAgain(reward: real, paid: map<int, Payout>, calculated: Shares)
    requires reward >= 0.0 && RewardAccepted(reward, paid, calculated)
    requires forall h :: h in paid ==> paid[h].reward != map[]
    ensures forall h :: h in paid ==> paid[h].collator in calculated
    ensures var missing := Total(Unpaid(paid, calculated)) + (reward - GrandTotal(calculated));
            PaidAgain(paid, calculated) - (2.0 + TOLERANCE) * TOLERANCE * reward
            <= missing <= PaidAgain(paid, calculated) + 2.0 * TOLERANCE * reward
  {
    hide Total, PayoutAccepted;
    PaidCollatorsAreCalculated(paid, calculated);
    UnpaidIsTheRest(paid, calculated);
    AcceptedPartsBound(paid, calculated);
    UnpaidArithmetic(reward, Total(PaidTotals(paid)), Total(PaidPartTotals(paid, calculated)));
  }

  /** When moreover no collator is paid in two blocks, that is at most twice the tolerance of the reward. */
  lemma AcceptedLeavesLittleUnpaid(reward: real, paid: map<int, Payout>, calculated: Shares)
    requires reward >= 0.0 && RewardAccepted(reward, paid, calculated)
    requires DistinctCollators(paid)
    requires forall h :: h in paid ==> paid[h].reward != map[]
    ensures Total(Unpaid(paid, calculated)) + (reward - GrandTotal(calculated)) <= 2.0 * TOLERANCE * reward
  {
    hide Total, DistinctCollators, RewardAccepted;
    AcceptedUnpaidIsPaidAgain(reward, paid, calculated);
    PaidSharesByBlock(paid, calculated);
  }

  lemma UnpaidArithmetic(reward: real, total: real, part: real)
    requires reward >= 0.0
    requires Abs(total - reward) <= TOLERANCE * reward
    requires Portion(total, 1.0 - TOLERANCE) <= part <= Portion(total, 1.0 + TOLERANCE)
    ensures -(2.0 + TOLERANCE) * TOLERANCE * reward <= reward - part <= 2.0 * TOLERANCE * reward
  {
    var e := TOLERANCE * reward;
    var below, above := total - (reward - e), reward + e - total;
    assert below * (1.0 - TOLERANCE) >= 0.0 && above * (1.0 + TOLERANCE) >= 0.0;
    assert total * (1.0 - TOLERANCE) >= (reward - e) * (1.0 - TOLERANCE);
    assert total * (1.0 + TOLERANCE) <= (reward + e) * (1.0 + TOLERANCE);
    assert (reward - e) * (1.0 - TOLERANCE) == reward - 2.0 * e + TOLERANCE * e;
    assert (reward + e) * (1.0 + TOLERANCE) == reward + 2.0 * e + TOLERANCE * e;
    assert TOLERANCE * e >= 0.0;
  }

  // ----- who is paid twice

  ghost function NamedBy(name: map<int, Address>): set<Address>
  {
    set k | k in name :: name[k]
  }

  ghost predicate OneToOne(name: map<int, Address>)
  {
    forall j, k :: j in name && k in name && name[j] == name[k] ==> j == k
  }

  /** As many names as heights exactly when no two heights share a name. */
  lemma {:induction false} NamesCounted(name: map<int, Address>)
    ensures |NamedBy(name)| <= |name|
    ensures |NamedBy(name)| == |name| <==> OneToOne(name)
    decreases |name|
  {
    hide NamedBy, OneToOne;
    if name == map[] {
      NoNames(name);
    } else {
      assert name.Keys != {};
      var item :| item in name.Items;
      var k := item.0;
      assert (name - {k}).Keys == name.Keys - {k};
      NamesCounted(name - {k});
      NamedByLess(name, k);
      OneToOneLess(name, k);
    }
  }

  lemma NoNames(name: map<int, Address>)
    requires name == map[]
    ensures NamedBy(name) == {} && OneToOne(name)
  {
  }

  lemma OneToOneLess(name: map<int, Address>, k: int)
    requires k in name
    ensures OneToOne(name) <==> OneToOne(name - {k}) && name[k] !in NamedBy(name - {k})
  {
    var rest := name - {k};
    if OneToOne(rest) && name[k] !in NamedBy(rest) {
      forall i, j | i in name && j in name && name[i] == name[j]
        ensures i == j
      {
        assert i != k ==> i in rest && rest[i] in NamedBy(rest);
        assert j != k ==> j in rest && rest[j] in NamedBy(rest);
      }
    }
  }

  lemma NamedByLess(name: map<int, Address>, k: int)
    requires k in name
    ensures NamedBy(name) == NamedBy(name - {k}) + {name[k]}
  {
    var rest := name - {k};
    forall c
      ensures c in NamedBy(name) <==> c in NamedBy(rest) || c == name[k]
    {
      if c in NamedBy(name) && c != name[k] {
        var j :| j in name && name[j] == c;
        assert j in rest && rest[j] == c;
      }
    }
  }

  /**
   With as many payouts as contributors, each naming a contributor, no collator is paid in two
   blocks exactly when every contributor is paid.
   */
  lemma PaidTwiceIffOneUnpaid(paid: map<int, Payout>, contributors: set<Address>)
    requires |paid| == |contributors|
    requires forall h :: h in paid ==> paid[h].collator in contributors
    ensures DistinctCollators(paid) <==> forall c :: c in contributors ==> CollatorPaid(paid, c)
  {
    var name := Collators(paid);
    NamesCounted(name);
    assert name.Keys == paid.Keys;
    assert |name| == |paid|;
    assert NamedBy(name) <= contributors;
    assert forall c :: c in NamedBy(name) <==> CollatorPaid(paid, c);
    var missing := contributors - NamedBy(name);
    assert |missing| == |contributors| - |NamedBy(name)|;
    if |missing| == 0 {
      forall c | c in contributors
        ensures CollatorPaid(paid, c)
      {
        assert c !in missing;
        assert c in NamedBy(name);
      }
    } else {
      var c :| c in missing;
      assert !CollatorPaid(paid, c);
    }
  }
}
