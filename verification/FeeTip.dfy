/**
 Splitting what Ethereum extrinsics paid into fees and tips
 (tools/fetch_evm_tx_fee.py:9-84).
 */
module FeeTip {
  import opened Common

  datatype Kind = Withdraw(amount: nat) | DepositTo(amount: nat) | Unrelated

  /** An event may belong to no extrinsic. */
  datatype TxEvent = TxEvent(hasExtrinsic: bool, extrinsic: nat, kind: Kind)

  /** The call modules of a block's extrinsics, and the block's events. */
  datatype TxBlock = TxBlock(modules: seq<string>, events: seq<TxEvent>)

  datatype FeeError = NoEvents(idx: nat) | NotWithdraw(idx: nat) | NegativeTip(idx: nat) | CountMismatch

  datatype Amount = Amount(total: int, count: nat)

  datatype FeeAndTip = FeeAndTip(fee: int, tip: int, count: nat)

  ghost function Related(events: seq<TxEvent>, idx: nat): seq<Kind>
  {
    if events == [] then []
    else
      var e := events[|events| - 1];
      Related(events[..|events| - 1], idx) + if e.hasExtrinsic && e.extrinsic == idx then [e.kind] else []
  }

  ghost function DepositSum(kinds: seq<Kind>): nat
  {
    if kinds == [] then 0
    else
      var k := kinds[|kinds| - 1];
      DepositSum(kinds[..|kinds| - 1]) + if k.DepositTo? then k.amount else 0
  }

  /** The extrinsics looked at: Ethereum calls, past the two inherents. */
  predicate Counted(b: TxBlock, idx: nat)
  {
    2 <= idx < |b.modules| && b.modules[idx] == "Ethereum"
  }

  ghost predicate Readable(b: TxBlock, idx: nat)
  {
    var kinds := Related(b.events, idx);
    kinds != [] && kinds[0].Withdraw?
  }

  ghost function Paid(b: TxBlock, idx: nat): nat
    requires Readable(b, idx)
  {
    Related(b.events, idx)[0].amount
  }

  ghost function FeeOf(b: TxBlock, idx: nat): nat
    requires Readable(b, idx)
  {
    DepositSum(Related(b.events, idx)[1..])
  }

  /** What the first `n` extrinsics paid up front, and what of it was deposited back out as fee. */
  ghost function PaidUpTo(b: TxBlock, n: nat): nat
    requires forall idx: nat :: idx < n && Counted(b, idx) ==> Readable(b, idx)
  {
    if n == 0 then 0 else PaidUpTo(b, n - 1) + if Counted(b, n - 1) then Paid(b, n - 1) else 0
  }

  ghost function FeeUpTo(b: TxBlock, n: nat): nat
    requires forall idx: nat :: idx < n && Counted(b, idx) ==> Readable(b, idx)
  {
    if n == 0 then 0 else FeeUpTo(b, n - 1) + if Counted(b, n - 1) then FeeOf(b, n - 1) else 0
  }

  ghost function CountUpTo(b: TxBlock, n: nat): nat
  {
    if n == 0 then 0 else CountUpTo(b, n - 1) + if Counted(b, n - 1) then 1 else 0
  }

  ghost predicate AllReadable(b: TxBlock)
  {
    forall idx: nat :: idx < |b.modules| && Counted(b, idx) ==> Readable(b, idx)
  }

  /** No extrinsic deposits more than it withdrew. */
  ghost predicate FeesCovered(b: TxBlock)
    requires AllReadable(b)
  {
    forall idx: nat :: idx < |b.modules| && Counted(b, idx) ==> FeeOf(b, idx) <= Paid(b, idx)
  }

  ghost predicate ErrorFits(b: TxBlock, e: FeeError)
  {
    match e
    case NoEvents(idx) => Counted(b, idx) && Related(b.events, idx) == []
    case NotWithdraw(idx) => Counted(b, idx) && Related(b.events, idx) != [] && !Readable(b, idx)
    case NegativeTip(idx) => Counted(b, idx) && Readable(b, idx) && FeeOf(b, idx) > Paid(b, idx)
    case CountMismatch => false
  }

  /** Every Ethereum call past the second starts with a withdrawal. */
  lemma AllReadableIff(b: TxBlock)
    ensures AllReadable(b) <==> forall idx: nat :: 2 <= idx < |b.modules| && b.modules[idx] == "Ethereum" ==>
              var kinds := Related(b.events, idx); kinds != [] && kinds[0].Withdraw?
  {
    if AllReadable(b) {
      forall idx: nat | 2 <= idx < |b.modules| && b.modules[idx] == "Ethereum"
        ensures var kinds := Related(b.events, idx); kinds != [] && kinds[0].Withdraw?
      {
        assert Counted(b, idx) && Readable(b, idx);
      }
    }
    if forall idx: nat :: 2 <= idx < |b.modules| && b.modules[idx] == "Ethereum" ==>
         var kinds := Related(b.events, idx); kinds != [] && kinds[0].Withdraw? {
      forall idx: nat | idx < |b.modules| && Counted(b, idx)
        ensures Readable(b, idx)
      {
      }
    }
  }

  /** And no such call deposits more than that. */
  lemma FeesCoveredIff(b: TxBlock)
    requires AllReadable(b)
    ensures FeesCovered(b) <==> forall idx: nat :: 2 <= idx < |b.modules| && b.modules[idx] == "Ethereum" ==>
              var kinds := Related(b.events, idx);
              kinds != [] && kinds[0].Withdraw? && DepositSum(kinds[1..]) <= kinds[0].amount
  {
    forall idx: nat | 2 <= idx < |b.modules| && b.modules[idx] == "Ethereum"
      ensures Counted(b, idx) && Readable(b, idx)
    {
      assert Counted(b, idx);
    }
    if FeesCovered(b) {
      forall idx: nat | 2 <= idx < |b.modules| && b.modules[idx] == "Ethereum"
        ensures DepositSum(Related(b.events, idx)[1..]) <= Related(b.events, idx)[0].amount
      {
        assert FeeOf(b, idx) <= Paid(b, idx);
      }
    }
  }

  method RelatedEvents(events: seq<TxEvent>, idx: nat) returns (kinds: seq<Kind>)
    ensures kinds == Related(events, idx)
  {
    kinds := [];
    for i := 0 to |events|
      invariant kinds == Related(events[..i], idx)
    {
      assert events[..i + 1][..i] == events[..i];
      if events[i].hasExtrinsic && events[i].extrinsic == idx {
        kinds := kinds + [events[i].kind];
      }
    }
    assert events[..|events|] == events;
  }

  /** What is deposited back out after the first event. */
  method FeeIn(kinds: seq<Kind>) returns (fee: nat)
    requires kinds != []
    ensures fee == DepositSum(kinds[1..])
  {
    fee := 0;
    for i := 1 to |kinds|
      invariant fee == DepositSum(kinds[1..i])
    {
      assert kinds[1..i + 1][..i - 1] == kinds[1..i];
      if !kinds[i].DepositTo? { continue; }
      fee := fee + kinds[i].amount;
    }
    assert kinds[1..|kinds|] == kinds[1..];
  }

  /** What the first withdrawal leaves after those deposits. */
  method TipIn(kinds: seq<Kind>) returns (tip: int)
    requires kinds != [] && kinds[0].Withdraw?
    ensures tip == kinds[0].amount - DepositSum(kinds[1..])
  {
    tip := kinds[0].amount;
    for i := 1 to |kinds|
      invariant tip == kinds[0].amount - DepositSum(kinds[1..i])
    {
      assert kinds[1..i + 1][..i - 1] == kinds[1..i];
      if !kinds[i].DepositTo? { continue; }
      tip := tip - kinds[i].amount;
    }
    assert kinds[1..|kinds|] == kinds[1..];
  }

  /** get_all_evm_tx_fee_in_block */
  method AllFees(b: TxBlock) returns (r: Outcome<Amount, FeeError>)
    ensures r.Ok? <==> AllReadable(b)
    ensures r.Ok? <==> forall idx: nat :: 2 <= idx < |b.modules| && b.modules[idx] == "Ethereum" ==>
              var kinds := Related(b.events, idx); kinds != [] && kinds[0].Withdraw?
    ensures r.Ok? ==> r.value == Amount(FeeUpTo(b, |b.modules|), CountUpTo(b, |b.modules|))
    ensures r.Err? ==> !r.error.NegativeTip? && ErrorFits(b, r.error)
  {
    AllReadableIff(b);
    var total, count := 0, 0;
    for n := 0 to |b.modules|
      invariant forall idx: nat :: idx < n && Counted(b, idx) ==> Readable(b, idx)
      invariant total == FeeUpTo(b, n) && count == CountUpTo(b, n)
    {
      if n < 2 { continue; }
      if b.modules[n] != "Ethereum" { continue; }
      var kinds := RelatedEvents(b.events, n);
      if kinds == [] {
        assert ErrorFits(b, NoEvents(n));
        return Err(NoEvents(n));
      }
      if !kinds[0].Withdraw? {
        assert ErrorFits(b, NotWithdraw(n));
        return Err(NotWithdraw(n));
      }
      var fee := FeeIn(kinds);
      total := total + fee;
      count := count + 1;
    }
    r := Ok(Amount(total, count));
  }

  /** get_all_evm_tip_in_block */
  method AllTips(b: TxBlock) returns (r: Outcome<Amount, FeeError>)
    ensures r.Ok? <==> AllReadable(b) && FeesCovered(b)
    ensures r.Ok? ==> r.value == Amount(PaidUpTo(b, |b.modules|) - FeeUpTo(b, |b.modules|), CountUpTo(b, |b.modules|))
    ensures r.Err? ==> ErrorFits(b, r.error)
  {
    var total, count := 0, 0;
    for n := 0 to |b.modules|
      invariant forall idx: nat :: idx < n && Counted(b, idx) ==> Readable(b, idx) && FeeOf(b, idx) <= Paid(b, idx)
      invariant total == PaidUpTo(b, n) - FeeUpTo(b, n) && count == CountUpTo(b, n)
    {
      if n < 2 { continue; }
      if b.modules[n] != "Ethereum" { continue; }
      var kinds := RelatedEvents(b.events, n);
      if kinds == [] {
        assert ErrorFits(b, NoEvents(n));
        return Err(NoEvents(n));
      }
      if !kinds[0].Withdraw? {
        assert ErrorFits(b, NotWithdraw(n));
        return Err(NotWithdraw(n));
      }
      var tip := TipIn(kinds);
      if tip < 0 {
        assert ErrorFits(b, NegativeTip(n));
        return Err(NegativeTip(n));
      }
      total := total + tip;
      count := count + 1;
    }
    r := Ok(Amount(total, count));
  }

  lemma {:induction false} CoveredFeesBelowPaid(b: TxBlock, n: nat)
    requires n <= |b.modules| && AllReadable(b) && FeesCovered(b)
    ensures FeeUpTo(b, n) <= PaidUpTo(b, n)
  {
    if n > 0 { CoveredFeesBelowPaid(b, n - 1); }
  }

  /**
   get_all_evm_fee_tip_in_block: the two passes always count the same extrinsics, and between
   them they account for everything withdrawn.
   */
  method FeesAndTips(b: TxBlock) returns (r: Outcome<FeeAndTip, FeeError>)
    ensures r.Ok? <==> AllReadable(b) && FeesCovered(b)
    ensures r.Ok? <==> forall idx: nat :: 2 <= idx < |b.modules| && b.modules[idx] == "Ethereum" ==>
              var kinds := Related(b.events, idx);
              kinds != [] && kinds[0].Withdraw? && DepositSum(kinds[1..]) <= kinds[0].amount
    ensures r.Ok? ==> r.value.fee + r.value.tip == PaidUpTo(b, |b.modules|)
    ensures r.Ok? ==> r.value.fee == FeeUpTo(b, |b.modules|) && r.value.tip >= 0
    ensures r.Ok? ==> r.value.count == CountUpTo(b, |b.modules|)
    ensures r.Err? ==> ErrorFits(b, r.error)
    ensures match r
            case Err(NoEvents(idx)) =>
              2 <= idx < |b.modules| && b.modules[idx] == "Ethereum" && Related(b.events, idx) == []
            case Err(NotWithdraw(idx)) =>
              && 2 <= idx < |b.modules| && b.modules[idx] == "Ethereum"
              && var kinds := Related(b.events, idx); kinds != [] && !kinds[0].Withdraw?
            case Err(NegativeTip(idx)) =>
              && 2 <= idx < |b.modules| && b.modules[idx] == "Ethereum"
              && var kinds := Related(b.events, idx);
                 kinds != [] && kinds[0].Withdraw? && DepositSum(kinds[1..]) > kinds[0].amount
            case Err(CountMismatch) => false
            case Ok(_) => true
  {
    AllReadableIff(b);
    if AllReadable(b) { FeesCoveredIff(b); }
    var fee := AllFees(b);
    if fee.Err? { return Err(fee.error); }
    var tip := AllTips(b);
    if tip.Err? { return Err(tip.error); }
    if fee.value.count != tip.value.count {
      return Err(CountMismatch);
    }
    CoveredFeesBelowPaid(b, |b.modules|);
    r := Ok(FeeAndTip(fee.value.total, tip.value.total, fee.value.count));
  }

  // ----- what the sums are made of

  /** An extrinsic adds its first withdrawal, its later deposits and 1, if it is an Ethereum call past the second. */
  lemma ExtrinsicAdds(b: TxBlock, n: nat)
    requires AllReadable(b) && n < |b.modules|
    ensures var counts, kinds := n >= 2 && b.modules[n] == "Ethereum", Related(b.events, n);
            && (counts ==> kinds != [] && kinds[0].Withdraw?)
            && PaidUpTo(b, n + 1) == PaidUpTo(b, n) + (if counts then kinds[0].amount else 0)
            && FeeUpTo(b, n + 1) == FeeUpTo(b, n) + (if counts then DepositSum(kinds[1..]) else 0)
            && CountUpTo(b, n + 1) == CountUpTo(b, n) + (if counts then 1 else 0)
    ensures PaidUpTo(b, 0) == FeeUpTo(b, 0) == CountUpTo(b, 0) == 0
  {
    assert Counted(b, n) ==> Readable(b, n);
  }

  /** The events of an extrinsic are those that carry its index, in order; those of others, and of none, are not. */
  lemma {:induction false} RelatedAdds(events: seq<TxEvent>, more: seq<TxEvent>, idx: nat)
    ensures Related(events + more, idx) == Related(events, idx) + Related(more, idx)
    ensures |more| == 1 ==>
              Related(more, idx) == if more[0].hasExtrinsic && more[0].extrinsic == idx then [more[0].kind] else []
  {
    if more == [] {
      assert events + more == events;
    } else {
      var init := more[..|more| - 1];
      RelatedAdds(events, init, idx);
      assert (events + more)[..|events + more| - 1] == events + init;
      if |more| == 1 { assert init == []; }
    }
  }

  lemma {:induction false} DepositsAdd(kinds: seq<Kind>, more: seq<Kind>)
    ensures DepositSum(kinds + more) == DepositSum(kinds) + DepositSum(more)
    ensures |more| == 1 ==> DepositSum(more) == if more[0].DepositTo? then more[0].amount else 0
  {
    if more == [] {
      assert kinds + more == kinds;
    } else {
      var init := more[..|more| - 1];
      DepositsAdd(kinds, init);
      assert (kinds + more)[..|kinds + more| - 1] == kinds + init;
    }
  }
}
