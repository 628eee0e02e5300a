/**
 Recording fees and weights by the printed name of a call, and summarising them
 (tests/substrate_utils.py:29-80 and 103-112).
 */
module FeeBuckets {
  import opened Common
  import opened CallNames

  /** The weight is missing when no event of the extrinsic reports one. */
  datatype Record = Record(fee: nat, tip: nat, weight: Option<nat>)

  datatype Extrinsic = Extrinsic(hash: string, call: Call)

  datatype RecordError = NotInBlock | BadCall | NoFee

  /** One recording: the call that was found, the name it was printed under, what was recorded. */
  datatype Entry = Entry(call: Call, name: string, record: Record)

  datatype Summary = Summary(fee: real, weight: real, tip: real, len: nat)

  /** What an event says: the fee and tip of a paid transaction, the weight of a dispatch, or neither. */
  datatype EventBody = FeePaid(fee: nat, tip: nat) | Dispatched(weight: nat) | OtherBody

  /** An event of a block, with the extrinsic it belongs to if any, and whether it came of applying it. */
  datatype ChainEvent = ChainEvent(extrinsic: Option<nat>, applying: bool, body: EventBody)

  // ----- fee and weight of an extrinsic

  predicate PaysFee(e: ChainEvent, index: nat)
  {
    e.extrinsic == Some(index) && e.body.FeePaid?
  }

  /** The kind of event is not looked at: a failed dispatch reports its weight as well. */
  predicate Weighs(e: ChainEvent, index: nat)
  {
    e.extrinsic == Some(index) && e.applying && e.body.Dispatched?
  }

  /** The i-th is the first event that pays the fee of the extrinsic. */
  ghost predicate FirstFee(events: seq<ChainEvent>, index: nat, i: nat)
  {
    i < |events| && PaysFee(events[i], index) && forall j :: 0 <= j < i ==> !PaysFee(events[j], index)
  }

  ghost predicate FirstWeight(events: seq<ChainEvent>, index: nat, i: nat)
  {
    i < |events| && Weighs(events[i], index) && forall j :: 0 <= j < i ==> !Weighs(events[j], index)
  }

  ghost predicate IsFee(events: seq<ChainEvent>, index: nat, fee: Option<(nat, nat)>)
  {
    match fee
    case None => forall j :: 0 <= j < |events| ==> !PaysFee(events[j], index)
    case Some(paid) =>
      exists i: nat :: FirstFee(events, index, i) && paid == (events[i].body.fee, events[i].body.tip)
  }

  ghost predicate IsWeight(events: seq<ChainEvent>, index: nat, weight: Option<nat>)
  {
    match weight
    case None => forall j :: 0 <= j < |events| ==> !Weighs(events[j], index)
    case Some(w) => exists i: nat :: FirstWeight(events, index, i) && w == events[i].body.weight
  }

  /** get_transaction_fee */
  method TransactionFee(events: seq<ChainEvent>, index: nat) returns (fee: Option<(nat, nat)>)
    ensures IsFee(events, index, fee)
    ensures match fee
            case None => forall j :: 0 <= j < |events| ==>
              events[j].extrinsic != Some(index) || !events[j].body.FeePaid?
            case Some(paid) => exists i ::
              && 0 <= i < |events| && events[i].extrinsic == Some(index) && events[i].body == FeePaid(paid.0, paid.1)
              && forall j :: 0 <= j < i ==> events[j].extrinsic != Some(index) || !events[j].body.FeePaid?
  {
    for i := 0 to |events|
      invariant forall j :: 0 <= j < i ==> !PaysFee(events[j], index)
    {
      if events[i].extrinsic != Some(index) { continue; }
      if !events[i].body.FeePaid? { continue; }
      assert FirstFee(events, index, i);
      return Some((events[i].body.fee, events[i].body.tip));
    }
    fee := None;
  }

  /** get_transaction_weight */
  method TransactionWeight(events: seq<ChainEvent>, index: nat) returns (weight: Option<nat>)
    ensures IsWeight(events, index, weight)
    ensures match weight
            case None => forall j :: 0 <= j < |events| ==>
              events[j].extrinsic != Some(index) || !events[j].applying || !events[j].body.Dispatched?
            case Some(w) => exists i ::
              && 0 <= i < |events| && events[i] == ChainEvent(Some(index), true, Dispatched(w))
              && forall j :: 0 <= j < i ==>
                   events[j].extrinsic != Some(index) || !events[j].applying || !events[j].body.Dispatched?
  {
    for i := 0 to |events|
      invariant forall j :: 0 <= j < i ==> !Weighs(events[j], index)
    {
      if events[i].extrinsic != Some(index) { continue; }
      if !events[i].applying || !events[i].body.Dispatched? { continue; }
      assert FirstWeight(events, index, i);
      return Some(events[i].body.weight);
    }
    weight := None;
  }

  /** The events that belong to an extrinsic, in order. */
  ghost function Own(events: seq<ChainEvent>, index: nat): seq<ChainEvent>
  {
    if events == [] then []
    else
      var last := events[|events| - 1];
      Own(events[..|events| - 1], index) + if last.extrinsic == Some(index) then [last] else []
  }

  lemma FeeSoFar(events: seq<ChainEvent>, last: ChainEvent, index: nat, fee: Option<(nat, nat)>)
    ensures fee.Some? ==> (IsFee(events, index, fee) ==> IsFee(events + [last], index, fee))
    ensures IsFee(events, index, None) && PaysFee(last, index) ==>
              IsFee(events + [last], index, Some((last.body.fee, last.body.tip)))
    ensures IsFee(events, index, None) && !PaysFee(last, index) ==> IsFee(events + [last], index, None)
  {
    var more := events + [last];
    if fee.Some? && IsFee(events, index, fee) {
      var i: nat :| FirstFee(events, index, i) && fee.value == (events[i].body.fee, events[i].body.tip);
      assert FirstFee(more, index, i);
    }
    if IsFee(events, index, None) && PaysFee(last, index) {
      assert FirstFee(more, index, |events|);
    }
  }

  lemma WeightSoFar(events: seq<ChainEvent>, last: ChainEvent, index: nat, weight: Option<nat>)
    ensures weight.Some? ==> (IsWeight(events, index, weight) ==> IsWeight(events + [last], index, weight))
    ensures IsWeight(events, index, None) && Weighs(last, index) ==>
              IsWeight(events + [last], index, Some(last.body.weight))
    ensures IsWeight(events, index, None) && !Weighs(last, index) ==> IsWeight(events + [last], index, None)
  {
    var more := events + [last];
    if weight.Some? && IsWeight(events, index, weight) {
      var i: nat :| FirstWeight(events, index, i) && weight.value == events[i].body.weight;
      assert FirstWeight(more, index, i);
    }
    if IsWeight(events, index, None) && Weighs(last, index) {
      assert FirstWeight(more, index, |events|);
    }
  }

  lemma FeeIsUnique(events: seq<ChainEvent>, index: nat, fee: Option<(nat, nat)>, other: Option<(nat, nat)>)
    requires IsFee(events, index, fee) && IsFee(events, index, other)
    ensures fee == other
  {
    if fee.Some? && other.Some? {
      var i: nat :| FirstFee(events, index, i) && fee.value == (events[i].body.fee, events[i].body.tip);
      var j: nat :| FirstFee(events, index, j) && other.value == (events[j].body.fee, events[j].body.tip);
      assert i == j;
    }
  }

  lemma WeightIsUnique(events: seq<ChainEvent>, index: nat, weight: Option<nat>, other: Option<nat>)
    requires IsWeight(events, index, weight) && IsWeight(events, index, other)
    ensures weight == other
  {
    if weight.Some? && other.Some? {
      var i: nat :| FirstWeight(events, index, i) && weight.value == events[i].body.weight;
      var j: nat :| FirstWeight(events, index, j) && other.value == events[j].body.weight;
      assert i == j;
    }
  }

  /** The fee and the weight of all events are those of the extrinsic's own. */
  lemma {:induction false} OwnEventsDecide(events: seq<ChainEvent>, index: nat)
    returns (fee: Option<(nat, nat)>, weight: Option<nat>)
    ensures IsFee(events, index, fee) && IsFee(Own(events, index), index, fee)
    ensures IsWeight(events, index, weight) && IsWeight(Own(events, index), index, weight)
  {
    if events == [] {
      fee, weight := None, None;
    } else {
      var init, last := events[..|events| - 1], events[|events| - 1];
      assert events == init + [last];
      if last.extrinsic == Some(index) {
        assert Own(events, index) == Own(init, index) + [last];
      } else {
        assert Own(events, index) == Own(init, index);
      }
      fee, weight := OwnEventsDecide(init, index);
      FeeSoFar(init, last, index, fee);
      FeeSoFar(Own(init, index), last, index, fee);
      WeightSoFar(init, last, index, weight);
      WeightSoFar(Own(init, index), last, index, weight);
      if fee.None? && PaysFee(last, index) {
        fee := Some((last.body.fee, last.body.tip));
      }
      if weight.None? && Weighs(last, index) {
        weight := Some(last.body.weight);
      }
    }
  }

  /** What other extrinsics paid and weighed does not matter: their events can be added, removed and altered. */
  lemma OthersDoNotMatter(
      events: seq<ChainEvent>, others: seq<ChainEvent>, index: nat, fee: Option<(nat, nat)>, weight: Option<nat>)
    requires Own(events, index) == Own(others, index)
    ensures IsFee(events, index, fee) <==> IsFee(others, index, fee)
    ensures IsWeight(events, index, weight) <==> IsWeight(others, index, weight)
  {
    hide IsFee, IsWeight, Own;
    var f, w := OwnEventsDecide(events, index);
    var g, v := OwnEventsDecide(others, index);
    FeeIsUnique(Own(events, index), index, f, g);
    WeightIsUnique(Own(events, index), index, w, v);
    if IsFee(events, index, fee) { FeeIsUnique(events, index, fee, f); }
    if IsFee(others, index, fee) { FeeIsUnique(others, index, fee, g); }
    if IsWeight(events, index, weight) { WeightIsUnique(events, index, weight, w); }
    if IsWeight(others, index, weight) { WeightIsUnique(others, index, weight, v); }
  }

  // ----- buckets as a function of everything recorded

  /** The records made under one name, in order. */
  ghost function RecordsNamed(history: seq<Entry>, name: string): seq<Record>
  {
    if history == [] then []
    else
      var last := history[|history| - 1];
      RecordsNamed(history[..|history| - 1], name) + if last.name == name then [last.record] else []
  }

  /** The records made of calls of one shape, in order. */
  ghost function RecordsOf(history: seq<Entry>, s: Shape): seq<Record>
    requires forall i :: 0 <= i < |history| ==> Shaped(history[i].call)
  {
    if history == [] then []
    else
      var last := history[|history| - 1];
      RecordsOf(history[..|history| - 1], s) + if ShapeOf(last.call) == s then [last.record] else []
  }

  lemma RecordsStep(history: seq<Entry>, e: Entry, name: string)
    ensures RecordsNamed(history + [e], name)
            == RecordsNamed(history, name) + if e.name == name then [e.record] else []
  {
    assert (history + [e])[..|history|] == history;
  }

  /** The first extrinsic of a block with the hash. */
  ghost predicate FoundFirst(block: seq<Extrinsic>, hash: string, i: nat)
  {
    i < |block| && block[i].hash == hash && forall j :: 0 <= j < i ==> block[j].hash != hash
  }

  ghost predicate NotThere(block: seq<Extrinsic>, hash: string)
  {
    forall j :: 0 <= j < |block| ==> block[j].hash != hash
  }

  class FeeRecorder {
    /** The dictionary of buckets. */
    var data: map<string, seq<Record>>
    ghost var history: seq<Entry>

    /** Every bucket holds exactly the records made under its name, and none is empty. */
    ghost predicate Valid()
      reads this
    {
      && (forall i :: 0 <= i < |history| ==> Compose(history[i].call) == Ok(history[i].name))
      && (forall name :: Bucket(name) == RecordsNamed(history, name))
      && (forall name :: name in data ==> data[name] != [])
    }

    ghost function Bucket(name: string): seq<Record>
      reads this
    {
      if name in data then data[name] else []
    }

    constructor ()
      ensures Valid() && data == map[] && history == []
    {
      data, history := map[], [];
    }

    method Append(name: string, r: Record)
      modifies this`data
      ensures data == old(data)[name := old(Bucket(name)) + [r]]
    {
      if name !in data {
        data := data[name := []];
      }
      data := data[name := data[name] + [r]];
    }

    /**
     The recording loop of monkey_submit_extrinsic_for_fee_weight; the receipt gives the hash and
     the index.  An error leaves everything as it was.
     */
    method RecordExtrinsic(block: seq<Extrinsic>, hash: string, events: seq<ChainEvent>, index: nat)
      returns (r: Outcome<string, RecordError>)
      requires Valid()
      modifies this
      ensures Valid()
      ensures r == Err(NotInBlock) <==> NotThere(block, hash)
      ensures r.Err? ==> data == old(data) && history == old(history)
      ensures r == Err(BadCall) ==> exists i: nat :: FoundFirst(block, hash, i) && !Shaped(block[i].call)
      ensures r == Err(NoFee) ==>
                IsFee(events, index, None) && exists i: nat :: FoundFirst(block, hash, i) && Shaped(block[i].call)
      ensures r.Ok? ==>
                exists i: nat, fee: nat, tip: nat, weight: Option<nat>
                    {:trigger FoundFirst(block, hash, i), Record(fee, tip, weight)} ::
                  && FoundFirst(block, hash, i) && Compose(block[i].call) == Ok(r.value)
                  && IsFee(events, index, Some((fee, tip))) && IsWeight(events, index, weight)
                  && block[i].hash == hash && (forall j :: 0 <= j < i ==> block[j].hash != hash)
                  && history == old(history) + [Entry(block[i].call, r.value, Record(fee, tip, weight))]
                  && data == old(data)[r.value := old(Bucket(r.value)) + [Record(fee, tip, weight)]]
    {
      hide IsFee, IsWeight;
      for i := 0 to |block|
        invariant forall j :: 0 <= j < i ==> block[j].hash != hash
        invariant data == old(data) && history == old(history)
      {
        if block[i].hash != hash { continue; }
        assert FoundFirst(block, hash, i);
        ComposePrintsShape(block[i].call);
        var name := Compose(block[i].call);
        if name.Err? { return Err(BadCall); }
        var fee := TransactionFee(events, index);
        if fee.None? { return Err(NoFee); }
        var weight := TransactionWeight(events, index);
        var record := Record(fee.value.0, fee.value.1, weight);
        Note(block[i].call, name.value, record);
        return Ok(name.value);
      }
      return Err(NotInBlock);
    }

    method Note(call: Call, name: string, record: Record)
      requires Valid() && Compose(call) == Ok(name)
      modifies this
      ensures Valid()
      ensures history == old(history) + [Entry(call, name, record)]
      ensures data == old(data)[name := old(Bucket(name)) + [record]]
    {
      Append(name, record);
      history := history + [Entry(call, name, record)];
      forall other
        ensures Bucket(other) == RecordsNamed(history, other)
      {
        RecordsStep(old(history), Entry(call, name, record), other);
      }
    }

    /** process_weight_fee_data: the means of every bucket, if every record has a weight. */
    method Summarise() returns (r: Option<map<string, Summary>>)
      requires Valid()
      ensures r.None? <==> exists name :: name in data && !AllWeighed(data[name])
      ensures r.Some? ==>
                && r.value.Keys == data.Keys
                && forall name :: name in data ==> AllWeighed(data[name]) && Summarises(r.value[name], data[name])
    {
      assert forall name :: name in data ==> data[name] != [];
      hide Valid;
      r := SummariseAll(data);
    }
  }

  // ----- summaries

  ghost function FeeSum(records: seq<Record>): nat
  {
    if records == [] then 0 else FeeSum(records[..|records| - 1]) + records[|records| - 1].fee
  }

  ghost function TipSum(records: seq<Record>): nat
  {
    if records == [] then 0 else TipSum(records[..|records| - 1]) + records[|records| - 1].tip
  }

  ghost predicate AllWeighed(records: seq<Record>)
  {
    forall i :: 0 <= i < |records| ==> records[i].weight.Some?
  }

  ghost function WeightSum(records: seq<Record>): nat
    requires AllWeighed(records)
  {
    if records == [] then 0 else WeightSum(records[..|records| - 1]) + records[|records| - 1].weight.value
  }

  function Mean(sum: nat, n: nat): real
    requires n > 0
  {
    sum as real / n as real
  }

  ghost predicate Summarises(s: Summary, records: seq<Record>)
    requires AllWeighed(records)
  {
    && s.len == |records| > 0
    && s.fee == Mean(FeeSum(records), s.len)
    && s.tip == Mean(TipSum(records), s.len)
    && s.weight == Mean(WeightSum(records), s.len)
  }

  /** The sums are those of a bucket's records, each counted once. */
  lemma {:induction false} SumsAdd(records: seq<Record>, more: seq<Record>)
    requires AllWeighed(records) && AllWeighed(more)
    ensures AllWeighed(records + more)
    ensures FeeSum(records + more) == FeeSum(records) + FeeSum(more)
    ensures TipSum(records + more) == TipSum(records) + TipSum(more)
    ensures WeightSum(records + more) == WeightSum(records) + WeightSum(more)
    ensures |more| == 1 ==>
              FeeSum(more) == more[0].fee && TipSum(more) == more[0].tip && WeightSum(more) == more[0].weight.value
  {
    if more == [] {
      assert records + more == records;
    } else {
      var init := more[..|more| - 1];
      assert AllWeighed(init);
      SumsAdd(records, init);
      assert (records + more)[..|records + more| - 1] == records + init;
    }
  }

  lemma MeanTimesCount(sum: nat, n: nat)
    requires n > 0
    ensures Mean(sum, n) * n as real == sum as real
  {
  }

  /** The loop of process_weight_fee_data. */
  method SummariseAll(data: map<string, seq<Record>>) returns (r: Option<map<string, Summary>>)
    requires forall name :: name in data ==> data[name] != []
    ensures r.None? <==> exists name :: name in data && !AllWeighed(data[name])
    ensures r.Some? ==>
              r.value.Keys == data.Keys
              && forall name :: name in data ==> AllWeighed(data[name]) && Summarises(r.value[name], data[name])
  {
    hide Summarises, AllWeighed;
    var out: map<string, Summary> := map[];
    var todo := data.Keys;
    while todo != {}
      invariant todo <= data.Keys && out.Keys == data.Keys - todo
      invariant forall name :: name in out ==> AllWeighed(data[name]) && Summarises(out[name], data[name])
      decreases |todo|
    {
      var name :| name in todo;
      todo := todo - {name};
      var one := SummariseBucket(data[name]);
      if one.None? {
        return None;
      }
      out := out[name := one.value];
    }
    r := Some(out);
  }

  /** The sums of one bucket; a record without a weight cannot be added. */
  method SumBucket(records: seq<Record>) returns (sums: Option<(nat, nat, nat)>)
    ensures sums.None? <==> !AllWeighed(records)
    ensures sums.Some? ==> sums.value == (FeeSum(records), TipSum(records), WeightSum(records))
  {
    var fee, tip, weight := 0, 0, 0;
    for i := 0 to |records|
      invariant AllWeighed(records[..i])
      invariant fee == FeeSum(records[..i]) && tip == TipSum(records[..i]) && weight == WeightSum(records[..i])
    {
      assert records[..i + 1][..i] == records[..i];
      if records[i].weight.None? {
        return None;
      }
      assert AllWeighed(records[..i + 1]);
      fee, tip, weight := fee + records[i].fee, tip + records[i].tip, weight + records[i].weight.value;
    }
    assert records[..|records|] == records;
    sums := Some((fee, tip, weight));
  }

  /** The entry for one bucket: means with their fractions, so that times their number they give back the sums. */
  method SummariseBucket(records: seq<Record>) returns (r: Option<Summary>)
    requires records != []
    ensures r.None? <==> !AllWeighed(records)
    ensures r.Some? ==> Summarises(r.value, records)
    ensures r.Some? ==>
              && r.value.len == |records|
              && r.value.fee * |records| as real == FeeSum(records) as real
              && r.value.tip * |records| as real == TipSum(records) as real
              && r.value.weight * |records| as real == WeightSum(records) as real
  {
    hide Mean, AllWeighed, FeeSum, TipSum, WeightSum;
    var sums := SumBucket(records);
    if sums.None? {
      return None;
    }
    var n := |records|;
    MeanTimesCount(sums.value.0, n);
    MeanTimesCount(sums.value.1, n);
    MeanTimesCount(sums.value.2, n);
    r := Some(Summary(Mean(sums.value.0, n), Mean(sums.value.2, n), Mean(sums.value.1, n), n));
  }

  // ----- what the buckets mean

  ghost predicate CleanHistory(history: seq<Entry>)
  {
    forall i :: 0 <= i < |history| ==>
      CleanCall(history[i].call) && Shaped(history[i].call) && Compose(history[i].call) == Ok(history[i].name)
  }

  /**
   The bucket of a call holds exactly what was recorded for calls of its shape: nothing of
   another shape ever lands in it, and nothing of its own shape lands elsewhere.
   */
  lemma {:induction false} BucketIsShape(history: seq<Entry>, c: Call)
    requires CleanHistory(history)
    requires CleanCall(c) && Shaped(c)
    ensures RecordsNamed(history, Print(ShapeOf(c))) == RecordsOf(history, ShapeOf(c))
  {
    if history != [] {
      var n := |history| - 1;
      BucketIsShape(history[..n], c);
      ComposePrintsShape(c);
      SameNameIffSameShape(history[n].call, c);
    }
  }
}
