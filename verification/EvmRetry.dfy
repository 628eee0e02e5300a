/**
 Sending an EVM transaction, and sending it again with a longer payload
 (tools/peaq_eth_utils.py:133-177).
 */
module EvmRetry {
  import opened Common
  import opened Schedule

  const ATTEMPTS: nat := 3
  const POLLS: nat := 3

  /** What is signed: the hash of a transaction stands for these two fields. */
  datatype Payload = Payload(nonce: nat, data: string)

  /** The transaction that holds each nonce of the signer on the best chain, and its height. */
  datatype Executed = Executed(payload: Payload, height: nat)

  datatype EvmChain = EvmChain(executed: map<nat, Executed>, finalized: nat)

  type Run = nat -> EvmChain

  /** A nonce executes a transaction with that nonce, and a final execution stays. */
  ghost predicate Step(c: EvmChain, d: EvmChain)
  {
    && c.finalized <= d.finalized
    && (forall n :: n in d.executed ==> d.executed[n].payload.nonce == n)
    && forall n :: n in c.executed && c.executed[n].height <= c.finalized ==>
         n in d.executed && d.executed[n] == c.executed[n]
  }

  ghost predicate StepAt(run: Run, t: nat)
  {
    Step(run(t), run(t + 1))
  }

  ghost predicate ValidRun(run: Run)
  {
    && (forall n :: n in run(0).executed ==> run(0).executed[n].payload.nonce == n)
    && forall t :: StepAt(run, t)
  }

  predicate Executes(c: EvmChain, p: Payload)
  {
    p.nonce in c.executed && c.executed[p.nonce].payload == p
  }

  predicate Final(c: EvmChain, p: Payload)
  {
    Executes(c, p) && c.executed[p.nonce].height <= c.finalized
  }

  lemma {:induction false} FinalStays(run: Run, p: Payload, t: nat, u: nat)
    requires ValidRun(run) && t <= u && Final(run(t), p)
    ensures Final(run(u), p)
    decreases u - t
  {
    if t < u {
      assert StepAt(run, t);
      FinalStays(run, p, t + 1, u);
    }
  }

  // ----- what the node answers

  datatype SendAnswer = Sent | AlreadyKnown | Rejected

  /** `Unfinished` is a wait for finality that the client gave up. */
  datatype Failure = SendError | WaitError | Unfinished | PollError | GaveUp

  datatype Result = Receipt(payload: Payload, height: nat) | Raised(failure: Failure)

  // ----- what the requests see

  /** The chain request `k` sees. */
  function View(run: Run, pauses: nat -> nat, k: nat): EvmChain
  {
    run(TimeOf(pauses, k))
  }

  predicate Sees(run: Run, pauses: nat -> nat, k: nat, p: Payload)
  {
    Executes(View(run, pauses, k), p)
  }

  function HeightAt(run: Run, pauses: nat -> nat, k: nat, p: Payload): nat
    requires Sees(run, pauses, k, p)
  {
    View(run, pauses, k).executed[p.nonce].height
  }

  /** Request `k` is the first of as many looks from `start` on to see the payload executed. */
  ghost predicate FirstSeen(run: Run, pauses: nat -> nat, start: nat, looks: nat, k: nat, p: Payload)
  {
    && start <= k < start + looks && Sees(run, pauses, k, p)
    && forall j :: start <= j < k ==> !Sees(run, pauses, j, p)
  }

  ghost predicate NeverSeen(run: Run, pauses: nat -> nat, start: nat, looks: nat, p: Payload)
  {
    forall j :: start <= j < start + looks ==> !Sees(run, pauses, j, p)
  }

  predicate SeesFinal(run: Run, pauses: nat -> nat, k: nat, height: nat)
  {
    height <= View(run, pauses, k).finalized
  }

  ghost predicate FirstFinal(run: Run, pauses: nat -> nat, start: nat, looks: nat, k: nat, height: nat)
  {
    && start <= k < start + looks && SeesFinal(run, pauses, k, height)
    && forall j :: start <= j < k ==> !SeesFinal(run, pauses, j, height)
  }

  lemma FinalMeaning(run: Run, pauses: nat -> nat, start: nat, looks: nat, k: nat, height: nat)
    requires FirstFinal(run, pauses, start, looks, k, height)
    ensures height <= View(run, pauses, k).finalized
    ensures forall j: nat :: start <= j < k ==> View(run, pauses, j).finalized < height
  {
    hide TimeOf;
    forall j: nat | start <= j < k
      ensures View(run, pauses, j).finalized < height
    {
      assert !SeesFinal(run, pauses, j, height);
    }
  }

  ghost predicate NeverFinal(run: Run, pauses: nat -> nat, start: nat, looks: nat, height: nat)
  {
    forall j :: start <= j < start + looks ==> !SeesFinal(run, pauses, j, height)
  }

  /** When the source's wait for finality, which has no end of its own, is given up here. */
  type Patience = (nat, nat) -> nat

  /** A chain whose finality reaches every height, as far as the client's requests can tell. */
  ghost predicate Finalising(run: Run, pauses: nat -> nat)
  {
    forall start, height :: ReachesFinal(run, pauses, start, height)
  }

  ghost predicate ReachesFinal(run: Run, pauses: nat -> nat, start: nat, height: nat)
  {
    exists k :: start <= k && SeesFinal(run, pauses, k, height)
  }

  ghost predicate Patient(run: Run, pauses: nat -> nat, patience: Patience)
  {
    forall start, height :: !NeverFinal(run, pauses, start, patience(start, height), height)
  }

  ghost function Enough(run: Run, pauses: nat -> nat, start: nat, height: nat): nat
    requires ReachesFinal(run, pauses, start, height)
  {
    var k :| start <= k && SeesFinal(run, pauses, k, height);
    k + 1
  }

  /** A client can be patient enough for every wait for finality exactly when finality reaches every height. */
  lemma PatienceIff(run: Run, pauses: nat -> nat)
    ensures (exists patience :: Patient(run, pauses, patience)) <==> Finalising(run, pauses)
  {
    hide TimeOf, SeesFinal;
    if Finalising(run, pauses) {
      var patience: Patience := (start: nat, height: nat) =>
        if ReachesFinal(run, pauses, start, height) then Enough(run, pauses, start, height) else 0;
      forall start: nat, height: nat
        ensures !NeverFinal(run, pauses, start, patience(start, height), height)
      {
        assert ReachesFinal(run, pauses, start, height);
      }
      assert Patient(run, pauses, patience);
    }
    if patience :| Patient(run, pauses, patience) {
      forall start: nat, height: nat
        ensures ReachesFinal(run, pauses, start, height)
      {
        assert !NeverFinal(run, pauses, start, patience(start, height), height);
      }
    }
  }

  // ----- waits

  /** How the wait for a payload ended: out of time, or with a receipt whose height was later seen final. */
  datatype Waited = TimedOut | SeenFinal(receipt: nat, final: nat)

  /** What a wait that began with request `start` saw. */
  ghost predicate WaitGround(
      run: Run, pauses: nat -> nat, timeout: nat -> nat, patience: Patience, start: nat, p: Payload, w: Waited)
  {
    match w
    case TimedOut => NeverSeen(run, pauses, start, timeout(start), p)
    case SeenFinal(receipt, final) =>
      && FirstSeen(run, pauses, start, timeout(start), receipt, p)
      && var height := HeightAt(run, pauses, receipt, p);
         FirstFinal(run, pauses, receipt + 1, patience(receipt + 1, height), final, height)
  }

  /** A wait that saw the payload executed and then gave up on its finality. */
  ghost predicate Unsettled(
      run: Run, pauses: nat -> nat, timeout: nat -> nat, patience: Patience, start: nat, p: Payload)
  {
    exists receipt: nat ::
      && FirstSeen(run, pauses, start, timeout(start), receipt, p)
      && var height := HeightAt(run, pauses, receipt, p);
         NeverFinal(run, pauses, receipt + 1, patience(receipt + 1, height), height)
  }

  lemma PatientSettles(
      run: Run, pauses: nat -> nat, timeout: nat -> nat, patience: Patience, start: nat, p: Payload)
    requires Unsettled(run, pauses, timeout, patience, start, p)
    ensures !Patient(run, pauses, patience)
  {
  }

  /** The first request after a wait. */
  function WaitEnd(timeout: nat -> nat, start: nat, w: Waited): nat
  {
    match w
    case TimedOut => start + timeout(start)
    case SeenFinal(_, final) => final + 1
  }

  /** One payload sent and waited for: the request the wait began with, and how it ended. */
  datatype Try = Try(start: nat, waited: Waited)

  function PollFrom(timeout: nat -> nat, t: Try): nat
  {
    WaitEnd(timeout, t.start, t.waited)
  }

  /** The waits and looks of the payloads follow each other, the first wait beginning with request `start`. */
  ghost predicate TriesFollow(
      run: Run, pauses: nat -> nat, timeout: nat -> nat, patience: Patience, start: nat, sent: seq<Payload>,
      tries: seq<Try>)
  {
    && |tries| <= |sent|
    && (tries != [] ==> tries[0].start == start)
    && (forall k :: 0 <= k < |tries| ==>
          WaitGround(run, pauses, timeout, patience, tries[k].start, sent[k], tries[k].waited))
    && forall k :: 0 <= k < |tries| - 1 ==> tries[k + 1].start == PollFrom(timeout, tries[k]) + POLLS
  }

  /** The request the next wait begins with. */
  function NextStart(timeout: nat -> nat, start: nat, tries: seq<Try>): nat
  {
    if tries == [] then start else PollFrom(timeout, tries[|tries| - 1]) + POLLS
  }

  // ----- the payloads

  function Zeros(k: nat): (z: string)
    ensures |z| == 2 * k && forall i :: 0 <= i < |z| ==> z[i] == '0'
  {
    if k == 0 then "" else Zeros(k - 1) + "00"
  }

  function Padded(nonce: nat, data: string, k: nat): Payload
  {
    Payload(nonce, data + Zeros(k))
  }

  /** The first `n` payloads of a submission. */
  ghost function Paddings(nonce: nat, data: string, n: nat): seq<Payload>
  {
    seq(n, k requires 0 <= k < n => Padded(nonce, data, k))
  }

  /** The transaction dictionary; the payload is lengthened in place. */
  class Transaction {
    const nonce: nat
    var data: string

    constructor (nonce: nat, data: string)
      ensures this.nonce == nonce && this.data == data
    {
      this.nonce, this.data := nonce, data;
    }
  }

  ghost predicate SomePollBreaks(pollBreaks: (nat, nat) -> bool, attempt: nat)
  {
    exists j: nat :: j < POLLS && pollBreaks(attempt, j)
  }

  class EvmClient {
    const run: Run
    const pauses: nat -> nat
    const timeout: nat -> nat
    const patience: Patience
    const sendAnswers: nat -> SendAnswer
    const waitBreaks: nat -> bool
    const pollBreaks: (nat, nat) -> bool
    /** How many requests for the chain have been answered. */
    var asked: nat
    ghost var sent: seq<Payload>

    constructor (
        run: Run, pauses: nat -> nat, timeout: nat -> nat, patience: Patience, sendAnswers: nat -> SendAnswer,
        waitBreaks: nat -> bool, pollBreaks: (nat, nat) -> bool)
      ensures this.run == run && this.pauses == pauses && this.timeout == timeout && this.patience == patience
      ensures this.sendAnswers == sendAnswers && this.waitBreaks == waitBreaks && this.pollBreaks == pollBreaks
      ensures asked == 0 && sent == []
    {
      this.run, this.pauses, this.timeout, this.patience := run, pauses, timeout, patience;
      this.sendAnswers, this.waitBreaks, this.pollBreaks := sendAnswers, waitBreaks, pollBreaks;
      asked, sent := 0, [];
    }

    /** One request for the chain as it is when the request is answered. */
    method Ask() returns (chain: EvmChain)
      modifies this`asked
      ensures chain == View(run, pauses, old(asked)) && asked == old(asked) + 1
    {
      chain := View(run, pauses, asked);
      asked := asked + 1;
    }

    /** send_raw_tx: a payload the node already knows counts as sent, under the hash computed here. */
    method SendRaw(attempt: nat, p: Payload) returns (hash: Outcome<Payload, Failure>)
      modifies this`sent
      ensures sent == old(sent) + [p]
      ensures hash == if sendAnswers(attempt) == Rejected then Err(SendError) else Ok(p)
    {
      sent := sent + [p];
      match sendAnswers(attempt) {
        case Sent => hash := Ok(p);
        case AlreadyKnown => hash := Ok(p);
        case Rejected => hash := Err(SendError);
      }
    }

    /** The wait of the library: as many looks as there is time for. */
    method WaitForReceipt(p: Payload) returns (height: Option<nat>)
      modifies this`asked
      ensures match height
              case None =>
                && NeverSeen(run, pauses, old(asked), timeout(old(asked)), p)
                && asked == old(asked) + timeout(old(asked))
              case Some(h) =>
                && asked > 0 && FirstSeen(run, pauses, old(asked), timeout(old(asked)), asked - 1, p)
                && h == HeightAt(run, pauses, asked - 1, p)
    {
      hide TimeOf;
      var looks := timeout(asked);
      for i := 0 to looks
        invariant asked == old(asked) + i && NeverSeen(run, pauses, old(asked), i, p)
      {
        var chain := Ask();
        if Executes(chain, p) {
          return Some(chain.executed[p.nonce].height);
        }
      }
      height := None;
    }

    /** The loop for finality of wait_w3_tx, as long as the client's patience lasts. */
    method WaitForFinality(height: nat) returns (done: bool)
      modifies this`asked
      ensures if done then
                && asked > 0
                && FirstFinal(run, pauses, old(asked), patience(old(asked), height), asked - 1, height)
              else NeverFinal(run, pauses, old(asked), patience(old(asked), height), height)
    {
      hide TimeOf;
      var looks := patience(asked, height);
      for i := 0 to looks
        invariant asked == old(asked) + i && NeverFinal(run, pauses, old(asked), i, height)
      {
        var chain := Ask();
        if chain.finalized >= height {
          return true;
        }
      }
      done := false;
    }

    /** wait_w3_tx: running out of time is not an error. */
    method WaitForTx(attempt: nat, p: Payload) returns (done: Outcome<Waited, Failure>)
      modifies this`asked
      ensures done == Err(WaitError) <==> waitBreaks(attempt)
      ensures match done
              case Ok(w) =>
                && WaitGround(run, pauses, timeout, patience, old(asked), p, w)
                && asked == WaitEnd(timeout, old(asked), w)
                && (w.SeenFinal? ==>
                      && Sees(run, pauses, w.receipt, p)
                      && var height := View(run, pauses, w.receipt).executed[p.nonce].height;
                         && height <= View(run, pauses, w.final).finalized
                         && forall j: nat :: w.receipt < j < w.final ==> View(run, pauses, j).finalized < height)
              case Err(f) =>
                f == WaitError || (f == Unfinished && Unsettled(run, pauses, timeout, patience, old(asked), p))
    {
      hide TimeOf, NeverSeen, FirstFinal, NeverFinal;
      if waitBreaks(attempt) {
        return Err(WaitError);
      }
      var height := WaitForReceipt(p);
      if height.None? {
        return Ok(TimedOut);
      }
      var receipt := asked - 1;
      var final := WaitForFinality(height.value);
      if !final {
        return Err(Unfinished);
      }
      FinalMeaning(run, pauses, receipt + 1, patience(receipt + 1, height.value), asked - 1, height.value);
      done := Ok(SeenFinal(receipt, asked - 1));
    }

    /**
     The looks for a receipt: each but the last finds nothing, and none of the three finding
     anything is the only way to go on.
     */
    method PollReceipt(attempt: nat, p: Payload) returns (r: Option<Result>)
      modifies this`asked
      ensures old(asked) < asked <= old(asked) + POLLS
      ensures forall j: nat :: j < asked - old(asked) - 1 ==>
                !pollBreaks(attempt, j) && !Sees(run, pauses, old(asked) + j, p)
      ensures var last := asked - old(asked) - 1;
              match r
              case None => asked == old(asked) + POLLS && NeverSeen(run, pauses, old(asked), POLLS, p)
              case Some(Receipt(q, h)) =>
                && !pollBreaks(attempt, last) && q == p
                && FirstSeen(run, pauses, old(asked), POLLS, asked - 1, p)
                && h == HeightAt(run, pauses, asked - 1, p)
              case Some(Raised(f)) => f == PollError && pollBreaks(attempt, last)
    {
      hide TimeOf;
      for j := 0 to POLLS
        invariant asked == old(asked) + j
        invariant forall i: nat :: i < j ==> !pollBreaks(attempt, i) && !Sees(run, pauses, old(asked) + i, p)
        invariant NeverSeen(run, pauses, old(asked), j, p)
      {
        var chain := Ask();
        if pollBreaks(attempt, j) {
          return Some(Raised(PollError));
        }
        if Executes(chain, p) {
          return Some(Receipt(p, chain.executed[p.nonce].height));
        }
      }
      r := None;
    }

    /** One turn of the loop of sign_and_submit_evm_transaction: send, wait, look; `None` goes on to the next. */
    method SendAndLook(attempt: nat, p: Payload) returns (r: Option<Result>, ghost waited: Option<Waited>)
      modifies this`asked, this`sent
      ensures sent == old(sent) + [p]
      ensures r == Some(Raised(SendError)) <==> sendAnswers(attempt) == Rejected
      ensures waited.None? ==>
                match r
                case Some(Raised(SendError)) => true
                case Some(Raised(WaitError)) => waitBreaks(attempt)
                case Some(Raised(Unfinished)) => Unsettled(run, pauses, timeout, patience, old(asked), p)
                case _ => false
      ensures waited.Some? ==>
                && WaitGround(run, pauses, timeout, patience, old(asked), p, waited.value)
                && var from := WaitEnd(timeout, old(asked), waited.value);
                   match r
                   case None => NeverSeen(run, pauses, from, POLLS, p) && asked == from + POLLS
                   case Some(Receipt(q, h)) =>
                     && q == p && asked > 0 && FirstSeen(run, pauses, from, POLLS, asked - 1, p)
                     && h == HeightAt(run, pauses, asked - 1, p)
                   case Some(Raised(f)) => f == PollError && SomePollBreaks(pollBreaks, attempt)
    {
      hide TimeOf, FirstSeen, NeverSeen, WaitGround, Unsettled;
      waited := None;
      var hash := SendRaw(attempt, p);
      if hash.Err? {
        return Some(Raised(hash.error)), waited;
      }
      var wait := WaitForTx(attempt, hash.value);
      if wait.Err? {
        return Some(Raised(wait.error)), waited;
      }
      waited := Some(wait.value);
      r := PollReceipt(attempt, hash.value);
    }

    /**
     sign_and_submit_evm_transaction.  A payload is followed by a longer one only when three looks
     did not find it on the best chain; `seen` is the request that found the payload of a receipt.
     */
    method SignAndSubmit(tx: Transaction) returns (r: Result, ghost seen: nat, ghost tries: seq<Try>)
      requires sent == []
      modifies this`asked, this`sent, tx
      ensures 1 <= |sent| <= 3
      ensures sent == Paddings(tx.nonce, old(tx.data), |sent|)
      ensures tx.data == old(tx.data) + Zeros(if r == Raised(GaveUp) then |sent| else |sent| - 1)
      ensures |sent| - 1 <= |tries| && TriesFollow(run, pauses, timeout, patience, old(asked), sent, tries)
      ensures forall k :: 0 <= k < |tries| && (k < |sent| - 1 || r == Raised(GaveUp)) ==>
                NeverSeen(run, pauses, PollFrom(timeout, tries[k]), 3, sent[k])
      ensures r == Raised(SendError) <==> sendAnswers(|sent| - 1) == Rejected
      ensures match r
              case Receipt(p, h) =>
                && |tries| == |sent| && p == sent[|sent| - 1]
                && FirstSeen(run, pauses, PollFrom(timeout, tries[|tries| - 1]), 3, seen, p)
                && h == HeightAt(run, pauses, seen, p)
              case Raised(GaveUp) => |sent| == |tries| == 3
              case Raised(WaitError) => waitBreaks(|sent| - 1)
              case Raised(PollError) => SomePollBreaks(pollBreaks, |sent| - 1)
              case Raised(Unfinished) =>
                && |tries| == |sent| - 1
                && Unsettled(run, pauses, timeout, patience, NextStart(timeout, old(asked), tries), sent[|sent| - 1])
              case Raised(SendError) => |tries| == |sent| - 1
    {
      hide TimeOf, FirstSeen, NeverSeen, Sees, WaitGround, Unsettled, WaitEnd, TriesFollow, Paddings, Zeros;
      NothingSent(run, pauses, timeout, patience, asked, tx.nonce, tx.data);
      seen, tries := 0, [];
      ghost var data := tx.data;
      for i := 0 to ATTEMPTS
        invariant |sent| == i && sent == Paddings(tx.nonce, data, i)
        invariant tx.data == data + Zeros(i)
        invariant i > 0 ==> sendAnswers(i - 1) != Rejected
        invariant |tries| == i && asked == NextStart(timeout, old(asked), tries)
        invariant TriesFollow(run, pauses, timeout, patience, old(asked), sent, tries)
        invariant forall k :: 0 <= k < i ==> NeverSeen(run, pauses, PollFrom(timeout, tries[k]), POLLS, sent[k])
      {
        ghost var before, start := sent, asked;
        var answer, waited := SendAndLook(i, Payload(tx.nonce, tx.data));
        OnePaddingMore(tx.nonce, data, i);
        SentMore(run, pauses, timeout, patience, old(asked), before, sent, tries, waited);
        if waited.Some? {
          tries := tries + [Try(start, waited.value)];
        }
        if answer.Some? {
          seen := if answer.value.Receipt? then asked - 1 else 0;
          return answer.value, seen, tries;
        }
        tx.data := tx.data + "00";
      }
      return Raised(GaveUp), seen, tries;
    }
  }

  lemma NothingSent(
      run: Run, pauses: nat -> nat, timeout: nat -> nat, patience: Patience, start: nat, nonce: nat, data: string)
    ensures TriesFollow(run, pauses, timeout, patience, start, [], [])
    ensures Paddings(nonce, data, 0) == [] && Zeros(0) == ""
  {
  }

  lemma OnePaddingMore(nonce: nat, data: string, i: nat)
    ensures Paddings(nonce, data, i + 1) == Paddings(nonce, data, i) + [Payload(nonce, data + Zeros(i))]
    ensures data + Zeros(i + 1) == data + Zeros(i) + "00"
  {
    assert data + Zeros(i + 1) == data + (Zeros(i) + "00");
  }

  /** One payload more, and the wait for it if that has ended. */
  lemma SentMore(
      run: Run, pauses: nat -> nat, timeout: nat -> nat, patience: Patience, start: nat, before: seq<Payload>,
      sent: seq<Payload>, tries: seq<Try>, waited: Option<Waited>)
    requires TriesFollow(run, pauses, timeout, patience, start, before, tries) && |tries| == |before|
    requires |sent| == |before| + 1 && sent[..|before|] == before
    requires waited.Some? ==>
               WaitGround(run, pauses, timeout, patience, NextStart(timeout, start, tries), sent[|before|],
                          waited.value)
    ensures var after := if waited.Some? then tries + [Try(NextStart(timeout, start, tries), waited.value)] else tries;
            TriesFollow(run, pauses, timeout, patience, start, sent, after)
  {
    hide WaitGround, WaitEnd;
    assert forall k :: 0 <= k < |before| ==> sent[k] == sent[..|before|][k];
  }

  // ----- what every run keeps

  /** The k-th payload is the data with `k` times "00" behind it. */
  lemma PaddingMeaning(nonce: nat, data: string, n: nat, k: nat)
    requires k < n
    ensures var p := Paddings(nonce, data, n)[k];
            && p.nonce == nonce && |p.data| == |data| + 2 * k && p.data[..|data|] == data
            && forall i :: |data| <= i < |p.data| ==> p.data[i] == '0'
  {
    var z := Zeros(k);
    assert forall i :: |data| <= i < |data| + |z| ==> (data + z)[i] == z[i - |data|];
  }

  /** The payloads sent are pairwise different transactions with one nonce. */
  lemma PaddingsDiffer(nonce: nat, data: string, n: nat, i: nat, j: nat)
    requires i < j < n
    ensures Paddings(nonce, data, n)[i] != Paddings(nonce, data, n)[j]
    ensures Paddings(nonce, data, n)[i].nonce == nonce == Paddings(nonce, data, n)[j].nonce
  {
    assert |data + Zeros(i)| != |data + Zeros(j)|;
  }

  /** A nonce holds one transaction, so at one instant at most one of the payloads has executed. */
  lemma OneExecutesAtATime(c: EvmChain, nonce: nat, data: string, n: nat, i: nat, j: nat)
    requires i < n && j < n
    requires Executes(c, Paddings(nonce, data, n)[i]) && Executes(c, Paddings(nonce, data, n)[j])
    ensures i == j
  {
    if i < j {
      PaddingsDiffer(nonce, data, n, i, j);
    } else if j < i {
      PaddingsDiffer(nonce, data, n, j, i);
    }
  }

  /** Over the whole run at most one of the payloads is ever final, whatever instants are compared. */
  lemma AtMostOneIsEverFinal(run: Run, nonce: nat, data: string, n: nat, i: nat, j: nat, t: nat, u: nat)
    requires ValidRun(run) && i < n && j < n
    requires Final(run(t), Paddings(nonce, data, n)[i]) && Final(run(u), Paddings(nonce, data, n)[j])
    ensures i == j
  {
    hide ValidRun;
    if t <= u {
      FinalStays(run, Paddings(nonce, data, n)[i], t, u);
      OneExecutesAtATime(run(u), nonce, data, n, i, j);
    } else {
      FinalStays(run, Paddings(nonce, data, n)[j], u, t);
      OneExecutesAtATime(run(t), nonce, data, n, i, j);
    }
  }

  /**
   Once any of the payloads is final it stays, and none of the others ever executes.  A receipt
   is that of the last payload, so a receipt at or below the finalised height settles the nonce.
   */
  lemma FinalPayloadIsTheOnly(run: Run, nonce: nat, data: string, n: nat, i: nat, t: nat, u: nat)
    requires ValidRun(run) && i < n && t <= u
    requires Final(run(t), Paddings(nonce, data, n)[i])
    ensures Executes(run(u), Paddings(nonce, data, n)[i])
    ensures forall j :: 0 <= j < n && j != i ==> !Executes(run(u), Paddings(nonce, data, n)[j])
  {
    FinalStays(run, Paddings(nonce, data, n)[i], t, u);
    forall j | 0 <= j < n && j != i
      ensures !Executes(run(u), Paddings(nonce, data, n)[j])
    {
      if Executes(run(u), Paddings(nonce, data, n)[j]) {
        OneExecutesAtATime(run(u), nonce, data, n, i, j);
      }
    }
  }

  /** The execution at the payload's nonce is the same at every instant from `t` to `u`. */
  ghost predicate NotReplaced(run: Run, nonce: nat, t: nat, u: nat)
  {
    forall v :: t <= v <= u ==>
      nonce in run(t).executed && nonce in run(v).executed && run(v).executed[nonce] == run(t).executed[nonce]
  }

  /** Between the sight of a wait's receipt and the sight of its finality the execution was not replaced. */
  ghost predicate Undisturbed(run: Run, pauses: nat -> nat, nonce: nat, w: Waited)
  {
    w.SeenFinal? && NotReplaced(run, nonce, TimeOf(pauses, w.receipt), TimeOf(pauses, w.final))
  }

  lemma UndisturbedIsFinal(
      run: Run, pauses: nat -> nat, timeout: nat -> nat, patience: Patience, start: nat, p: Payload, w: Waited, u: nat)
    requires ValidRun(run) && WaitGround(run, pauses, timeout, patience, start, p, w)
    requires Undisturbed(run, pauses, p.nonce, w) && TimeOf(pauses, w.final) <= u
    ensures Final(run(u), p)
  {
    hide TimeOf, ValidRun;
    TimesGrow(pauses, w.receipt, w.final);
    var t := TimeOf(pauses, w.final);
    assert run(t).executed[p.nonce] == run(TimeOf(pauses, w.receipt)).executed[p.nonce];
    FinalStays(run, p, t, u);
  }

  /**
   Safety: if the wait saw finality and the execution was not replaced while it waited, the last
   payload is settled: it stays, and no other payload of the submission ever executes.
   */
  lemma WaitSettles(
      run: Run, pauses: nat -> nat, timeout: nat -> nat, patience: Patience, start: nat, nonce: nat, data: string,
      n: nat, w: Waited, u: nat)
    requires ValidRun(run) && n > 0
    requires WaitGround(run, pauses, timeout, patience, start, Paddings(nonce, data, n)[n - 1], w)
    requires Undisturbed(run, pauses, nonce, w) && TimeOf(pauses, w.final) <= u
    ensures Final(run(u), Paddings(nonce, data, n)[n - 1])
    ensures forall j :: 0 <= j < n - 1 ==> !Executes(run(u), Paddings(nonce, data, n)[j])
  {
    hide TimeOf, ValidRun, WaitGround, NotReplaced;
    UndisturbedIsFinal(run, pauses, timeout, patience, start, Paddings(nonce, data, n)[n - 1], w, u);
    FinalPayloadIsTheOnly(run, nonce, data, n, n - 1, u, u);
  }

  // ----- when a receipt is final

  /** Another run that is the same up to the instant `t`. */
  ghost predicate Continues(run: Run, other: Run, t: nat)
  {
    ValidRun(other) && forall v: nat :: v <= t ==> other(v) == run(v)
  }

  function Without(c: EvmChain, nonce: nat): EvmChain
  {
    c.(executed := map n | n in c.executed && n != nonce :: c.executed[n])
  }

  /** An execution above the finalised height can be lost at once. */
  lemma CanBeLost(run: Run, t: nat, p: Payload) returns (other: Run)
    requires ValidRun(run) && Executes(run(t), p) && !Final(run(t), p)
    ensures Continues(run, other, t) && !Executes(other(t + 1), p)
  {
    other := (v: nat) => if v <= t then run(v) else Without(run(t), p.nonce);
    forall v: nat
      ensures StepAt(other, v)
    {
      assert StepAt(run, v);
      if v >= t { NoncesFit(run, t); }
    }
    assert other(t + 1) == Without(run(t), p.nonce);
  }

  lemma {:induction false} NoncesFit(run: Run, t: nat)
    requires ValidRun(run)
    ensures forall n :: n in run(t).executed ==> run(t).executed[n].payload.nonce == n
  {
    if t > 0 { assert StepAt(run, t - 1); }
  }

  /** Whatever the chain does after `t`, the payload stays executed. */
  ghost predicate Stays(run: Run, t: nat, p: Payload)
  {
    forall other: Run, u: nat {:trigger Continues(run, other, t), Executes(other(u), p)} ::
      Continues(run, other, t) && t <= u ==> Executes(other(u), p)
  }

  /**
   A receipt, looked up at `t`, is of an execution that stays whatever the chain does next exactly
   when its height is at or below the finalised one at that instant.
   */
  lemma ReceiptStaysIff(run: Run, t: nat, p: Payload)
    requires ValidRun(run) && Executes(run(t), p)
    ensures Stays(run, t, p) <==> run(t).executed[p.nonce].height <= run(t).finalized
  {
    if Final(run(t), p) {
      forall other: Run, u: nat | Continues(run, other, t) && t <= u
        ensures Executes(other(u), p)
      {
        FinalStays(other, p, t, u);
      }
    } else {
      var other := CanBeLost(run, t, p);
      assert !Executes(other(t + 1), p);
    }
  }

  /** After a wait that saw finality, with the execution not replaced meanwhile, a receipt is final. */
  lemma UndisturbedReceiptStays(
      run: Run, pauses: nat -> nat, timeout: nat -> nat, patience: Patience, p: Payload, t: Try, seen: nat)
    requires ValidRun(run) && WaitGround(run, pauses, timeout, patience, t.start, p, t.waited)
    requires Undisturbed(run, pauses, p.nonce, t.waited)
    requires FirstSeen(run, pauses, PollFrom(timeout, t), 3, seen, p)
    ensures Stays(run, TimeOf(pauses, seen), p)
  {
    hide TimeOf, ValidRun, WaitGround, NotReplaced, Stays;
    TimesGrow(pauses, t.waited.final, seen);
    UndisturbedIsFinal(run, pauses, timeout, patience, t.start, p, t.waited, TimeOf(pauses, seen));
    ReceiptStaysIff(run, TimeOf(pauses, seen), p);
  }

  // ----- a receipt that is not final

  const EARLY: Payload := Payload(7, "ab")

  /** The payload is executed only after the wait for it is over, and nothing becomes final. */
  function LateExecution(t: nat): EvmChain
  {
    EvmChain(if t == 0 then map[] else map[7 := Executed(EARLY, 5)], 0)
  }

  function OneLook(start: nat): nat
  {
    1
  }

  function OneLookFor(start: nat, height: nat): nat
  {
    1
  }

  function AlwaysSent(attempt: nat): SendAnswer
  {
    Sent
  }

  predicate NoWaitBreaks(attempt: nat)
  {
    false
  }

  predicate NoPollBreaks(attempt: nat, j: nat)
  {
    false
  }

  /** The first wait is a look by request 0 and times out; request 1 then finds the payload. */
  lemma LateTry(t: Try)
    requires t.start == 0 && WaitGround(LateExecution, EveryTwo, OneLook, OneLookFor, 0, EARLY, t.waited)
    ensures PollFrom(OneLook, t) == 1 && !NeverSeen(LateExecution, EveryTwo, 1, POLLS, EARLY)
    ensures forall k :: FirstSeen(LateExecution, EveryTwo, 1, POLLS, k, EARLY) ==>
              HeightAt(LateExecution, EveryTwo, k, EARLY) == 5
  {
    hide TimeOf;
    EveryTwoTimes(0);
    EveryTwoTimes(1);
    assert Sees(LateExecution, EveryTwo, 1, EARLY);
    assert !Sees(LateExecution, EveryTwo, 0, EARLY);
  }

  lemma NothingUnsettled()
    ensures !Unsettled(LateExecution, EveryTwo, OneLook, OneLookFor, 0, EARLY)
  {
    hide TimeOf;
    EveryTwoTimes(0);
  }

  /** The client, its wait having timed out, returns a receipt that the next block can undo. */
  method UnfinalReceipt() returns (r: Result)
    ensures r == Receipt(EARLY, 5)
    ensures ValidRun(LateExecution) && forall t: nat :: t > 0 ==> !Stays(LateExecution, t, EARLY)
  {
    LateIsNotFinal();
    hide ValidRun, Stays, TimeOf, WaitGround, FirstSeen, NeverSeen, HeightAt, Unsettled;
    var tx := new Transaction(7, "ab");
    var client := new EvmClient(LateExecution, EveryTwo, OneLook, OneLookFor, AlwaysSent, NoWaitBreaks, NoPollBreaks);
    ghost var seen, tries;
    r, seen, tries := client.SignAndSubmit(tx);
    assert client.sent[0] == EARLY;
    NothingUnsettled();
    if tries != [] {
      LateTry(tries[0]);
    }
    assert |client.sent| == 1;
  }

  lemma LateIsNotFinal()
    ensures ValidRun(LateExecution) && forall t: nat :: t > 0 ==> !Stays(LateExecution, t, EARLY)
  {
    hide Stays;
    forall t: nat
      ensures StepAt(LateExecution, t)
    {
    }
    forall t: nat | t > 0
      ensures !Stays(LateExecution, t, EARLY)
    {
      ReceiptStaysIff(LateExecution, t, EARLY);
    }
  }
}
