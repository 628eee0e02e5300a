/**
 Submitting an extrinsic to a chain that may reorganise
 (tools/monkey/monkey_3rd_substrate_interface.py:13-19 and 38-90).
 */
module ReorgSubmit {
  import opened Common
  import opened Schedule
  import opened ReorgChain

  const SCAN_DEPTH: nat := 8
  const WAIT_BLOCKS: nat := 4

  datatype Answer = Accepted(hash: Hash) | Refused

  /**
   A receipt without a position is handed out when the caller does not wait.  `NotGrown` and
   `Unfinished` are a wait for blocks and a wait for finality that the client gave up.
   */
  datatype Result =
    | Submitted(hash: Hash)
    | Receipt(position: Position, hash: Hash)
    | NotAccepted
    | NotGrown
    | NotIncluded
    | Disappeared(position: Position)
    | Unfinished(position: Position)

  /** When the scan read the head, and when it read each block below. */
  datatype Scan = Scan(headAt: nat, readAt: seq<nat>)

  /** The instants of a submission: the scan, the sight of finality, the re-read. */
  datatype Times = Times(scan: Scan, finalAt: nat, rereadAt: nat)

  // ----- the schedule of requests

  /** The chain request `k` sees. */
  function View(run: Run, pauses: nat -> nat, k: nat): Chain
  {
    run(TimeOf(pauses, k))
  }

  /** Request `k` is the first after request `start` to see a head at least `n` blocks higher. */
  ghost predicate FirstGrown(run: Run, pauses: nat -> nat, start: nat, n: nat, looks: nat, k: nat)
  {
    && start < k <= start + looks
    && Head(View(run, pauses, k)) >= Head(View(run, pauses, start)) + n
    && forall j :: start < j < k ==> Head(View(run, pauses, j)) < Head(View(run, pauses, start)) + n
  }

  ghost predicate NeverGrown(run: Run, pauses: nat -> nat, start: nat, n: nat, looks: nat)
  {
    forall j :: start < j <= start + looks ==> Head(View(run, pauses, j)) < Head(View(run, pauses, start)) + n
  }

  predicate SeesFinal(run: Run, pauses: nat -> nat, k: nat, height: int)
  {
    height <= View(run, pauses, k).finalized
  }

  /** Between two looks for finality the client waits for one block. */
  ghost predicate NextPoll(
      run: Run, pauses: nat -> nat, patience: nat -> nat, height: int, poll: nat, next: nat)
  {
    && poll + 1 < next
    && !SeesFinal(run, pauses, poll, height)
    && FirstGrown(run, pauses, poll + 1, 1, patience(poll + 1), next - 1)
  }

  /** The requests that look for finality, from `start` on. */
  ghost predicate Polls(
      run: Run, pauses: nat -> nat, patience: nat -> nat, start: nat, height: int, polls: seq<nat>)
  {
    && |polls| <= patience(start) && (polls == [] <==> patience(start) == 0)
    && (polls != [] ==> polls[0] == start)
    && forall i :: 0 <= i < |polls| - 1 ==> NextPoll(run, pauses, patience, height, polls[i], polls[i + 1])
  }

  /** The first look comes at once, each next one right after a wait for one block, and only the last sees finality. */
  lemma PollsMeaning(
      run: Run, pauses: nat -> nat, patience: nat -> nat, start: nat, height: int, polls: seq<nat>, i: nat)
    requires Polls(run, pauses, patience, start, height, polls)
    ensures polls != [] ==> polls[0] == start
    ensures i + 1 < |polls| ==>
              && height > View(run, pauses, polls[i]).finalized
              && polls[i] + 1 < polls[i + 1]
              && FirstGrown(run, pauses, polls[i] + 1, 1, patience(polls[i] + 1), polls[i + 1] - 1)
  {
    hide TimeOf, FirstGrown;
    if i + 1 < |polls| {
      assert NextPoll(run, pauses, patience, height, polls[i], polls[i + 1]);
    }
  }

  // ----- giving up

  /**
   The source waits without end.  Here the client looks as often as its patience, which may depend
   on when the wait begins, allows.  The head has not grown by four in a wait that began with
   request `start`.
   */
  ghost predicate HeadStuck(run: Run, pauses: nat -> nat, patience: nat -> nat, start: nat)
  {
    NeverGrown(run, pauses, start, WAIT_BLOCKS, patience(start))
  }

  /** All the looks of a wait did not see a height final that the chain had when it began. */
  ghost predicate FinalityStuck(
      run: Run, pauses: nat -> nat, patience: nat -> nat, start: nat, height: int, polls: seq<nat>)
  {
    && height <= Head(View(run, pauses, start))
    && Polls(run, pauses, patience, start, height, polls)
    && 0 < |polls| == patience(start) && !SeesFinal(run, pauses, polls[|polls| - 1], height)
  }

  /** Some wait is longer than the client's patience. */
  ghost predicate GaveUp(run: Run, pauses: nat -> nat, patience: nat -> nat)
  {
    || (exists start :: HeadStuck(run, pauses, patience, start))
    || exists start, height, polls :: FinalityStuck(run, pauses, patience, start, height, polls)
  }

  /** From request `start` on, a head four blocks higher is seen at last. */
  ghost predicate Grows(run: Run, pauses: nat -> nat, start: nat)
  {
    exists k :: start < k && Head(View(run, pauses, k)) >= Head(View(run, pauses, start)) + WAIT_BLOCKS
  }

  /** From request `start` on, what is the head then is seen final at last. */
  ghost predicate Settles(run: Run, pauses: nat -> nat, start: nat)
  {
    exists k :: start <= k && SeesFinal(run, pauses, k, Head(View(run, pauses, start)))
  }

  /** The chain keeps growing and keeps being finalised, as far as the client's requests can tell. */
  ghost predicate Lively(run: Run, pauses: nat -> nat)
  {
    (forall start :: Grows(run, pauses, start)) && forall start :: Settles(run, pauses, start)
  }

  ghost function Enough(run: Run, pauses: nat -> nat, start: nat): nat
    requires Grows(run, pauses, start) && Settles(run, pauses, start)
  {
    var k :| start < k && Head(View(run, pauses, k)) >= Head(View(run, pauses, start)) + WAIT_BLOCKS;
    var m :| start <= m && SeesFinal(run, pauses, m, Head(View(run, pauses, start)));
    k + m + 1
  }

  lemma {:induction false} PollsGrow(
      run: Run, pauses: nat -> nat, patience: nat -> nat, start: nat, height: int, polls: seq<nat>, i: nat)
    requires Polls(run, pauses, patience, start, height, polls) && i < |polls|
    ensures start + i <= polls[i]
  {
    if i > 0 {
      PollsGrow(run, pauses, patience, start, height, polls, i - 1);
      assert NextPoll(run, pauses, patience, height, polls[i - 1], polls[i]);
    }
  }

  lemma FinalityIsSeen(run: Run, pauses: nat -> nat, m: nat, k: nat, height: int)
    requires ValidRun(run) && m <= k && SeesFinal(run, pauses, m, height)
    ensures SeesFinal(run, pauses, k, height)
  {
    TimesGrow(pauses, m, k);
    RunKeeps(run, TimeOf(pauses, m), TimeOf(pauses, k));
  }

  /** With that much patience no wait that begins with request `start` is given up. */
  lemma EnoughIsEnough(run: Run, pauses: nat -> nat, patience: nat -> nat, start: nat)
    requires ValidRun(run) && Grows(run, pauses, start) && Settles(run, pauses, start)
    requires patience(start) == Enough(run, pauses, start)
    ensures !HeadStuck(run, pauses, patience, start)
    ensures forall height, polls :: !FinalityStuck(run, pauses, patience, start, height, polls)
  {
    hide TimeOf, Polls, ValidRun;
    var k :| start < k <= patience(start)
             && Head(View(run, pauses, k)) >= Head(View(run, pauses, start)) + WAIT_BLOCKS;
    var m :| start <= m < patience(start) && SeesFinal(run, pauses, m, Head(View(run, pauses, start)));
    forall height, polls
      ensures !FinalityStuck(run, pauses, patience, start, height, polls)
    {
      if FinalityStuck(run, pauses, patience, start, height, polls) {
        PollsGrow(run, pauses, patience, start, height, polls, |polls| - 1);
        FinalityIsSeen(run, pauses, m, polls[|polls| - 1], height);
      }
    }
  }

  lemma {:induction false} GrownFirst(run: Run, pauses: nat -> nat, start: nat, n: nat, looks: nat) returns (k: nat)
    requires !NeverGrown(run, pauses, start, n, looks)
    ensures FirstGrown(run, pauses, start, n, looks, k)
    decreases looks
  {
    hide TimeOf;
    if looks > 0 && !NeverGrown(run, pauses, start, n, looks - 1) {
      k := GrownFirst(run, pauses, start, n, looks - 1);
    } else {
      k := start + looks;
    }
  }

  /** While nothing of a height is final, there are as many looks for it as the head grows for. */
  lemma {:induction false} PollsGoOn(
      run: Run, pauses: nat -> nat, patience: nat -> nat, start: nat, height: int, n: nat) returns (polls: seq<nat>)
    requires forall k :: !HeadStuck(run, pauses, patience, k)
    requires forall k :: start <= k ==> !SeesFinal(run, pauses, k, height)
    requires 0 < n <= patience(start)
    ensures |polls| == n && Polls(run, pauses, patience, start, height, polls)
    decreases n
  {
    hide FirstGrown, NeverGrown, SeesFinal;
    if n == 1 {
      polls := [start];
    } else {
      polls := PollsGoOn(run, pauses, patience, start, height, n - 1);
      var last := polls[n - 2];
      PollsGrow(run, pauses, patience, start, height, polls, n - 2);
      assert !HeadStuck(run, pauses, patience, last + 1);
      FewerBlocks(run, pauses, last + 1, patience(last + 1));
      var k := GrownFirst(run, pauses, last + 1, 1, patience(last + 1));
      LaterThan(run, pauses, last + 1, 1, patience(last + 1), k);
      polls := polls + [k + 1];
    }
  }

  lemma FewerBlocks(run: Run, pauses: nat -> nat, start: nat, looks: nat)
    ensures NeverGrown(run, pauses, start, 1, looks) ==> NeverGrown(run, pauses, start, WAIT_BLOCKS, looks)
  {
  }

  lemma LaterThan(run: Run, pauses: nat -> nat, start: nat, n: nat, looks: nat, k: nat)
    requires FirstGrown(run, pauses, start, n, looks, k)
    ensures start < k
  {
  }

  /**
   A client can be patient enough for every wait exactly when the chain keeps growing and keeps
   being finalised.
   */
  lemma PatienceIff(run: Run, pauses: nat -> nat)
    requires ValidRun(run)
    ensures (exists patience :: !GaveUp(run, pauses, patience)) <==> Lively(run, pauses)
  {
    hide TimeOf, ValidRun, HeadStuck, FinalityStuck, Grows, Settles;
    if Lively(run, pauses) {
      var patience := EnoughPatience(run, pauses);
      assert !GaveUp(run, pauses, patience);
    }
    if patience :| !GaveUp(run, pauses, patience) {
      forall start
        ensures Grows(run, pauses, start) && Settles(run, pauses, start)
      {
        PatienceNeeds(run, pauses, patience, start);
      }
    }
  }

  lemma EnoughPatience(run: Run, pauses: nat -> nat) returns (patience: nat -> nat)
    requires ValidRun(run) && Lively(run, pauses)
    ensures !GaveUp(run, pauses, patience)
  {
    hide TimeOf, ValidRun, HeadStuck, FinalityStuck, Grows, Settles, Enough;
    patience := (start: nat) =>
      if Grows(run, pauses, start) && Settles(run, pauses, start) then Enough(run, pauses, start) else 0;
    forall start: nat
      ensures !HeadStuck(run, pauses, patience, start)
    {
      EnoughIsEnough(run, pauses, patience, start);
    }
    forall start: nat, height: int, polls: seq<nat>
      ensures !FinalityStuck(run, pauses, patience, start, height, polls)
    {
      EnoughIsEnough(run, pauses, patience, start);
    }
  }

  /** A chain that gains two final blocks at every instant. */
  function Thriving(t: nat): Chain
  {
    Chain(seq(2 * t + 1, i => []), 2 * t)
  }

  /** There are such chains. */
  lemma ThrivingIsLively()
    ensures ValidRun(Thriving) && Lively(Thriving, EveryTwo)
  {
    hide TimeOf;
    forall t: nat
      ensures StepAt(Thriving, t)
    {
      assert Thriving(t + 1).blocks[..2 * t + 1] == Thriving(t).blocks[..2 * t + 1];
    }
    forall start: nat
      ensures Grows(Thriving, EveryTwo, start) && Settles(Thriving, EveryTwo, start)
    {
      EveryTwoTimes(start);
      EveryTwoTimes(start + 1);
      assert Head(View(Thriving, EveryTwo, start + 1)) >= Head(View(Thriving, EveryTwo, start)) + WAIT_BLOCKS;
      assert SeesFinal(Thriving, EveryTwo, start, Head(View(Thriving, EveryTwo, start)));
    }
  }

  lemma FinalityNeverSeen(run: Run, pauses: nat -> nat, patience: nat -> nat, start: nat) returns (polls: seq<nat>)
    requires (forall k :: !HeadStuck(run, pauses, patience, k)) && !Settles(run, pauses, start)
    ensures FinalityStuck(run, pauses, patience, start, Head(View(run, pauses, start)), polls)
  {
    hide TimeOf, Polls;
    var height := Head(View(run, pauses, start));
    assert !HeadStuck(run, pauses, patience, start);
    polls := PollsGoOn(run, pauses, patience, start, height, patience(start));
    PollsGrow(run, pauses, patience, start, height, polls, |polls| - 1);
  }

  lemma PatienceNeeds(run: Run, pauses: nat -> nat, patience: nat -> nat, start: nat)
    requires !GaveUp(run, pauses, patience)
    ensures Grows(run, pauses, start) && Settles(run, pauses, start)
  {
    hide TimeOf, Polls, Settles, FinalityStuck;
    assert !HeadStuck(run, pauses, patience, start);
    if !Settles(run, pauses, start) {
      var polls := FinalityNeverSeen(run, pauses, patience, start);
    }
  }

  // ----- what the scan establishes

  /** The times are ordered, and the i-th read is of the i-th block below the head seen first. */
  ghost predicate ScanTimes(run: Run, scan: Scan)
  {
    && |scan.readAt| <= SCAN_DEPTH
    && (forall i :: 0 <= i < |scan.readAt| ==> scan.headAt <= scan.readAt[i] && Head(run(scan.headAt)) - i >= 1)
    && (forall i, j :: 0 <= i < j < |scan.readAt| ==> scan.readAt[i] <= scan.readAt[j])
  }

  ghost predicate MissedAt(run: Run, scan: Scan, i: nat, hash: Hash)
  {
    var h := Head(run(scan.headAt)) - i;
    && i < |scan.readAt|
    && 0 <= h < |run(scan.readAt[i]).blocks|
    && hash !in run(scan.readAt[i]).blocks[h]
  }

  function Read(scan: Scan, at: nat): Scan
  {
    scan.(readAt := scan.readAt + [at])
  }

  /** One more read, later than the others, keeps what the earlier reads established. */
  lemma ReadOn(run: Run, scan: Scan, at: nat, hash: Hash)
    requires ScanTimes(run, scan)
    requires |scan.readAt| < SCAN_DEPTH && Head(run(scan.headAt)) - |scan.readAt| >= 1
    requires scan.headAt <= at && forall i :: 0 <= i < |scan.readAt| ==> scan.readAt[i] <= at
    ensures ScanTimes(run, Read(scan, at))
    ensures forall i :: 0 <= i < |scan.readAt| ==>
              (MissedAt(run, scan, i, hash) <==> MissedAt(run, Read(scan, at), i, hash))
  {
    var next := Read(scan, at);
    assert forall i :: 0 <= i < |scan.readAt| ==> next.readAt[i] == scan.readAt[i];
  }

  /** The last block read holds the hash, first at that index, and no block read before it does. */
  ghost predicate ScanFound(run: Run, scan: Scan, hash: Hash, p: Position)
  {
    && ScanTimes(run, scan) && scan.readAt != []
    && (forall i :: 0 <= i < |scan.readAt| - 1 ==> MissedAt(run, scan, i, hash))
    && var last := |scan.readAt| - 1;
       && p.height == Head(run(scan.headAt)) - last
       && p.height < |run(scan.readAt[last]).blocks|
       && FirstIn(run(scan.readAt[last]).blocks[p.height], p.index, hash)
  }

  /** Every height of the window was read, and none held the hash. */
  ghost predicate ScanMissed(run: Run, scan: Scan, hash: Hash)
  {
    && ScanTimes(run, scan)
    && (forall i :: 0 <= i < |scan.readAt| ==> MissedAt(run, scan, i, hash))
    && (|scan.readAt| == SCAN_DEPTH || Head(run(scan.headAt)) - |scan.readAt| < 1)
  }

  /** The instant of the last read. */
  function LastRead(scan: Scan): nat
    requires scan.readAt != []
  {
    scan.readAt[|scan.readAt| - 1]
  }

  /** What a receipt with a position rests on. */
  ghost predicate ReceiptGround(run: Run, ts: Times, hash: Hash, p: Position)
  {
    && ScanFound(run, ts.scan, hash, p)
    && LastRead(ts.scan) <= ts.finalAt <= ts.rereadAt
    && p.height <= run(ts.finalAt).finalized
    && Exists(run(ts.rereadAt), p)
  }

  lemma JustMissed(run: Run, scan: Scan, hash: Hash, block: seq<Hash>)
    requires scan.readAt != []
    requires var last := |scan.readAt| - 1; var h := Head(run(scan.headAt)) - last;
             0 <= h < |run(scan.readAt[last]).blocks| && block == run(scan.readAt[last]).blocks[h]
    requires hash !in block
    ensures MissedAt(run, scan, |scan.readAt| - 1, hash)
  {
  }

  lemma NoReadYet(run: Run, at: nat)
    ensures ScanTimes(run, Scan(at, []))
  {
  }

  /** The scan reads the head with one request and each block below with the next. */
  ghost predicate ScanSchedule(pauses: nat -> nat, start: nat, scan: Scan)
  {
    && scan.headAt == TimeOf(pauses, start)
    && forall i :: 0 <= i < |scan.readAt| ==> scan.readAt[i] == TimeOf(pauses, start + 1 + i)
  }

  lemma ReadsComeBefore(pauses: nat -> nat, start: nat, scan: Scan)
    requires ScanSchedule(pauses, start, scan)
    ensures var next := TimeOf(pauses, start + 1 + |scan.readAt|);
            scan.headAt <= next && forall i :: 0 <= i < |scan.readAt| ==> scan.readAt[i] <= next
  {
    hide TimeOf;
    var next := start + 1 + |scan.readAt|;
    TimesGrow(pauses, start, next);
    forall i | 0 <= i < |scan.readAt|
      ensures scan.readAt[i] <= TimeOf(pauses, next)
    {
      TimesGrow(pauses, start + 1 + i, next);
    }
  }

  // ----- what the scan is worth

  /** No block the scan read was replaced between the sight of the head and the read. */
  ghost predicate Unreplaced(run: Run, scan: Scan)
  {
    forall i :: 0 <= i < |scan.readAt| ==>
      NotReplaced(run, Head(run(scan.headAt)) - i, scan.headAt, scan.readAt[i])
  }

  /**
   While the blocks it reads are not replaced, what the scan finds is the first occurrence in the
   highest block that has one, and that is one of the last eight, but not genesis.
   */
  lemma ScanFindsHighest(run: Run, scan: Scan, hash: Hash, p: Position)
    requires ScanFound(run, scan, hash, p) && Unreplaced(run, scan)
    ensures 1 <= p.height <= Head(run(scan.headAt)) < p.height + 8
    ensures Holds(run(scan.headAt), p, hash)
    ensures hash !in run(scan.headAt).blocks[p.height][..p.index]
    ensures forall h :: p.height < h <= Head(run(scan.headAt)) ==> hash !in run(scan.headAt).blocks[h]
  {
    var now, last := Head(run(scan.headAt)), |scan.readAt| - 1;
    assert NotReplaced(run, now - last, scan.headAt, scan.readAt[last]);
    forall h | p.height < h <= now
      ensures hash !in run(scan.headAt).blocks[h]
    {
      assert MissedAt(run, scan, now - h, hash);
      assert NotReplaced(run, now - (now - h), scan.headAt, scan.readAt[now - h]);
    }
  }

  /** And it misses none: a scan that finds nothing means that none of those eight blocks has the extrinsic. */
  lemma ScanMissesNone(run: Run, scan: Scan, hash: Hash, h: nat)
    requires ScanMissed(run, scan, hash) && Unreplaced(run, scan)
    requires 1 <= h <= Head(run(scan.headAt)) < h + 8
    ensures hash !in run(scan.headAt).blocks[h]
  {
    var i := Head(run(scan.headAt)) - h;
    assert MissedAt(run, scan, i, hash);
    assert NotReplaced(run, Head(run(scan.headAt)) - i, scan.headAt, scan.readAt[i]);
  }

  /** The scan sees the extrinsic exactly when one of the last eight blocks, genesis apart, has it. */
  lemma SeenIffInWindow(run: Run, scan: Scan, hash: Hash, found: Option<Position>)
    requires if found.Some? then ScanFound(run, scan, hash, found.value) else ScanMissed(run, scan, hash)
    requires Unreplaced(run, scan)
    ensures var c := run(scan.headAt);
            found.None? <==> forall h: nat :: 1 <= h && Head(c) - 8 < h <= Head(c) ==> hash !in c.blocks[h]
  {
    hide ScanFound, ScanMissed, Unreplaced;
    var c := run(scan.headAt);
    if found.Some? {
      ScanFindsHighest(run, scan, hash, found.value);
      assert c.blocks[found.value.height][found.value.index] == hash;
    } else {
      forall h: nat | 1 <= h && Head(c) - 8 < h <= Head(c)
        ensures hash !in c.blocks[h]
      {
        ScanMissesNone(run, scan, hash, h);
      }
    }
  }

  // ----- the client

  class Client {
    const run: Run
    const pauses: nat -> nat
    /** How often a wait that begins with a request looks. */
    const patience: nat -> nat
    /** How many requests have been answered. */
    var asked: nat

    constructor (run: Run, pauses: nat -> nat, patience: nat -> nat)
      ensures this.run == run && this.pauses == pauses && this.patience == patience && asked == 0
    {
      this.run, this.pauses, this.patience, this.asked := run, pauses, patience, 0;
    }

    /** One request for the chain as it is when the request is answered. */
    method Ask() returns (chain: Chain)
      modifies this`asked
      ensures chain == View(run, pauses, old(asked)) && asked == old(asked) + 1
    {
      chain := View(run, pauses, asked);
      asked := asked + 1;
    }

    /** wait_for_n_blocks, as long as the client's patience lasts. */
    method WaitForBlocks(n: nat) returns (done: bool)
      modifies this`asked
      ensures old(asked) < asked
      ensures if done then FirstGrown(run, pauses, old(asked), n, patience(old(asked)), asked - 1)
              else NeverGrown(run, pauses, old(asked), n, patience(old(asked)))
    {
      var looks := patience(asked);
      var first := Ask();
      for i := 0 to looks
        invariant asked == old(asked) + 1 + i
        invariant NeverGrown(run, pauses, old(asked), n, i)
      {
        var now := Ask();
        if Head(now) >= Head(first) + n {
          return true;
        }
      }
      done := false;
    }

    /** _wait_finalization: a look, then a block's wait, as long as the client's patience lasts. */
    method WaitFinalization(height: nat) returns (done: bool, ghost polls: seq<nat>)
      modifies this`asked
      ensures old(asked) <= asked
      ensures Polls(run, pauses, patience, old(asked), height, polls)
      ensures done <==> polls != [] && SeesFinal(run, pauses, polls[|polls| - 1], height)
      ensures done ==> polls[|polls| - 1] == asked - 1 && old(asked) < asked
      ensures !done && |polls| < patience(old(asked)) ==>
                NeverGrown(run, pauses, polls[|polls| - 1] + 1, 1, patience(polls[|polls| - 1] + 1))
    {
      hide FirstGrown, NeverGrown;
      var looks := patience(asked);
      done, polls := false, [];
      for i := 0 to looks
        invariant |polls| == i && !done && old(asked) <= asked
        invariant if i == 0 then asked == old(asked) else polls[0] == old(asked)
        invariant forall j :: 0 <= j < i - 1 ==> NextPoll(run, pauses, patience, height, polls[j], polls[j + 1])
        invariant i > 0 ==> NextPoll(run, pauses, patience, height, polls[i - 1], asked)
      {
        polls := polls + [asked];
        var now := Ask();
        if now.finalized >= height {
          done := true;
          return;
        }
        var grown := WaitForBlocks(1);
        if !grown {
          return;
        }
      }
    }

    /** The loop over the last blocks, from the head down. */
    method ReadBack(hash: Hash) returns (found: Option<Position>, ghost scan: Scan)
      requires ValidRun(run)
      modifies this`asked
      ensures ScanSchedule(pauses, old(asked), scan)
      ensures asked == old(asked) + 1 + |scan.readAt|
      ensures found.Some? ==> ScanFound(run, scan, hash, found.value)
      ensures found.None? ==> ScanMissed(run, scan, hash)
    {
      hide MissedAt, ScanTimes, TimeOf;
      scan := Scan(TimeOf(pauses, asked), []);
      NoReadYet(run, scan.headAt);
      var head := Ask();
      var now := Head(head);
      found := None;
      for i := 0 to SCAN_DEPTH
        invariant asked == old(asked) + 1 + i && now == Head(run(scan.headAt))
        invariant found.None? && |scan.readAt| == i
        invariant ScanSchedule(pauses, old(asked), scan) && ScanTimes(run, scan)
        invariant forall j :: 0 <= j < i ==> MissedAt(run, scan, j, hash)
      {
        if now - i < 1 {
          break;
        }
        ghost var at := TimeOf(pauses, asked);
        ReadsComeBefore(pauses, old(asked), scan);
        RunKeeps(run, scan.headAt, at);
        ReadOn(run, scan, at, hash);
        scan := Read(scan, at);
        var chain := Ask();
        var block := chain.blocks[now - i];
        var index := FindInBlock(block, hash);
        if index.Some? {
          return Some(Position(now - i, index.value)), scan;
        }
        JustMissed(run, scan, hash, block);
      }
    }

    /** What that loop sees: the extrinsic exactly if one of the last eight blocks, genesis apart, has it. */
    method ScanBack(hash: Hash) returns (found: Option<Position>, ghost scan: Scan)
      requires ValidRun(run)
      modifies this`asked
      ensures ScanSchedule(pauses, old(asked), scan)
      ensures asked == old(asked) + 1 + |scan.readAt|
      ensures found.Some? ==> ScanFound(run, scan, hash, found.value)
      ensures found.None? ==> ScanMissed(run, scan, hash)
      ensures Unreplaced(run, scan) ==>
                var c := run(scan.headAt);
                found.None? <==> forall h: nat :: 1 <= h && Head(c) - 8 < h <= Head(c) ==> hash !in c.blocks[h]
    {
      found, scan := ReadBack(hash);
      if Unreplaced(run, scan) {
        SeenIffInWindow(run, scan, hash, found);
      }
    }

    /**
     monkey_submit_extrinsic.  `grown` is the request that ends the wait for four blocks, `polls`
     the requests that look for finality; the scan and the re-read come right after them.
     */
    method SubmitExtrinsic(answer: Answer, waitForInclusion: bool, waitForFinalization: bool)
      returns (r: Result, ghost ts: Times, ghost grown: nat, ghost polls: seq<nat>)
      requires ValidRun(run)
      modifies this`asked
      ensures r.NotAccepted? <==> answer.Refused?
      ensures r.Submitted? <==> answer.Accepted? && !waitForInclusion && !waitForFinalization
      ensures r.Submitted? ==> r.hash == answer.hash
      ensures r.NotGrown? ==> HeadStuck(run, pauses, patience, old(asked))
      ensures r.NotAccepted? || r.Submitted? || r.NotGrown? ||
              (&& FirstGrown(run, pauses, old(asked), 4, patience(old(asked)), grown)
               && ScanSchedule(pauses, grown + 1, ts.scan))
      ensures r.NotIncluded? ==> ScanMissed(run, ts.scan, answer.hash)
      ensures (r.NotIncluded? || r.Receipt? || r.Disappeared? || r.Unfinished?) && Unreplaced(run, ts.scan) ==>
                var c := run(ts.scan.headAt);
                r.NotIncluded? <==>
                forall h: nat :: 1 <= h && Head(c) - 8 < h <= Head(c) ==> answer.hash !in c.blocks[h]
      ensures r.Receipt? || r.Disappeared? || r.Unfinished? ==>
                && ScanFound(run, ts.scan, answer.hash, r.position)
                && Polls(run, pauses, patience, grown + 2 + |ts.scan.readAt|, r.position.height, polls)
                && (r.Unfinished? <==> polls == [] || !SeesFinal(run, pauses, polls[|polls| - 1], r.position.height))
      ensures r.Unfinished? && |polls| < patience(grown + 2 + |ts.scan.readAt|) ==>
                NeverGrown(run, pauses, polls[|polls| - 1] + 1, 1, patience(polls[|polls| - 1] + 1))
      ensures r.NotGrown? || r.Unfinished? ==> GaveUp(run, pauses, patience)
      ensures r.Receipt? || r.Disappeared? ==>
                && ts.finalAt == TimeOf(pauses, polls[|polls| - 1])
                && ts.rereadAt == TimeOf(pauses, polls[|polls| - 1] + 1)
                && (r.Receipt? <==> Exists(run(ts.rereadAt), r.position))
      ensures r.Receipt? ==> r.hash == answer.hash && ReceiptGround(run, ts, r.hash, r.position)
    {
      hide ScanFound, ScanMissed, FirstGrown, NeverGrown, Polls, SeesFinal, ScanSchedule, GaveUp, HeadStuck, ValidRun,
           TimeOf, ReceiptGround, Unreplaced;
      ts, grown, polls := Times(Scan(0, []), 0, 0), 0, [];
      if answer.Refused? {
        return NotAccepted, ts, grown, polls;
      }
      var hash := answer.hash;
      if !waitForInclusion && !waitForFinalization {
        return Submitted(hash), ts, grown, polls;
      }
      var done := WaitForBlocks(WAIT_BLOCKS);
      if !done {
        HeadStuckGivesUp(run, pauses, patience, old(asked));
        return NotGrown, ts, grown, polls;
      }
      grown := asked - 1;
      var found, scan := ScanBack(hash);
      ts := ts.(scan := scan);
      if found.None? {
        return NotIncluded, ts, grown, polls;
      }
      var position := found.value;
      done, polls := WaitFinalization(position.height);
      if !done {
        FoundBelowHead(run, pauses, grown + 1, scan, hash, position);
        UnfinishedGivesUp(run, pauses, patience, grown + 2 + |scan.readAt|, position.height, polls);
        return Unfinished(position), ts, grown, polls;
      }
      ts := ts.(finalAt := TimeOf(pauses, asked - 1), rereadAt := TimeOf(pauses, asked));
      GroundHolds(run, pauses, patience, grown, polls, ts, hash, position);
      var now := Ask();
      if position.index < |now.blocks[position.height]| {
        return Receipt(position, hash), ts, grown, polls;
      }
      r := Disappeared(position);
    }
  }

  /** The schedule puts the last read before the sight of finality, and that before the re-read. */
  lemma GroundHolds(
      run: Run, pauses: nat -> nat, patience: nat -> nat, grown: nat, polls: seq<nat>, ts: Times, hash: Hash,
      p: Position)
    requires ValidRun(run) && ScanFound(run, ts.scan, hash, p)
    requires ScanSchedule(pauses, grown + 1, ts.scan)
    requires Polls(run, pauses, patience, grown + 2 + |ts.scan.readAt|, p.height, polls)
    requires polls != [] && SeesFinal(run, pauses, polls[|polls| - 1], p.height)
    requires ts.finalAt == TimeOf(pauses, polls[|polls| - 1]) && ts.rereadAt == TimeOf(pauses, polls[|polls| - 1] + 1)
    ensures p.height < |run(ts.rereadAt).blocks|
    ensures Exists(run(ts.rereadAt), p) ==> ReceiptGround(run, ts, hash, p)
  {
    hide Polls, TimeOf;
    var last := polls[|polls| - 1];
    PollsGrow(run, pauses, patience, grown + 2 + |ts.scan.readAt|, p.height, polls, |polls| - 1);
    TimesGrow(pauses, grown + 1 + |ts.scan.readAt|, last);
    TimesGrow(pauses, last, last + 1);
    RunKeeps(run, ts.finalAt, ts.rereadAt);
  }

  lemma HeadStuckGivesUp(run: Run, pauses: nat -> nat, patience: nat -> nat, start: nat)
    requires NeverGrown(run, pauses, start, WAIT_BLOCKS, patience(start))
    ensures HeadStuck(run, pauses, patience, start) && GaveUp(run, pauses, patience)
  {
    hide NeverGrown;
    assert HeadStuck(run, pauses, patience, start);
  }

  /** What the scan found is no higher than the head when the looks for finality begin. */
  lemma FoundBelowHead(run: Run, pauses: nat -> nat, start: nat, scan: Scan, hash: Hash, p: Position)
    requires ValidRun(run) && ScanSchedule(pauses, start, scan) && ScanFound(run, scan, hash, p)
    ensures p.height <= Head(View(run, pauses, start + 1 + |scan.readAt|))
  {
    hide TimeOf;
    TimesGrow(pauses, start, start + 1 + |scan.readAt|);
    RunKeeps(run, scan.headAt, TimeOf(pauses, start + 1 + |scan.readAt|));
  }

  lemma UnfinishedGivesUp(
      run: Run, pauses: nat -> nat, patience: nat -> nat, start: nat, height: int, polls: seq<nat>)
    requires height <= Head(View(run, pauses, start))
    requires Polls(run, pauses, patience, start, height, polls)
    requires polls == [] || !SeesFinal(run, pauses, polls[|polls| - 1], height)
    requires |polls| < patience(start) ==>
               NeverGrown(run, pauses, polls[|polls| - 1] + 1, 1, patience(polls[|polls| - 1] + 1))
    ensures GaveUp(run, pauses, patience)
  {
    hide TimeOf;
    if polls == [] {
      assert HeadStuck(run, pauses, patience, start);
    } else if |polls| < patience(start) {
      FewerBlocks(run, pauses, polls[|polls| - 1] + 1, patience(polls[|polls| - 1] + 1));
      assert HeadStuck(run, pauses, patience, polls[|polls| - 1] + 1);
    } else {
      assert FinalityStuck(run, pauses, patience, start, height, polls);
    }
  }

  // ----- safety

  /** A returned position is final, and nothing at it changes from then on. */
  lemma ReceiptIsFinal(run: Run, ts: Times, hash: Hash, p: Position, u: nat)
    requires ValidRun(run) && ReceiptGround(run, ts, hash, p)
    requires ts.finalAt <= u
    ensures p.height <= run(u).finalized
    ensures Holds(run(u), p, hash) <==> Holds(run(ts.finalAt), p, hash)
  {
    RunKeeps(run, ts.finalAt, u);
  }

  /**
   Safety: if the block was not replaced between the moment the scan read it and the moment its
   height was seen final, the receipt names the submitted extrinsic, then and ever after.
   */
  lemma SubmissionIsSafe(run: Run, ts: Times, hash: Hash, p: Position, u: nat)
    requires ValidRun(run) && ReceiptGround(run, ts, hash, p)
    requires NotReplaced(run, p.height, LastRead(ts.scan), ts.finalAt)
    requires ts.finalAt <= u
    ensures Holds(run(u), p, hash)
  {
    var read := LastRead(ts.scan);
    assert run(ts.finalAt).blocks[p.height] == run(read).blocks[p.height];
    ReceiptIsFinal(run, ts, hash, p, u);
  }

  /**
   The hash on the receipt is the submitted one whatever has become of the position.  The receipt
   is right, from the sight of finality on and for ever, exactly when the chain that was then
   final has at the position what the scan read there; the extrinsic re-read would tell.
   */
  lemma ReceiptIsRightIff(run: Run, ts: Times, hash: Hash, p: Position)
    requires ValidRun(run) && ReceiptGround(run, ts, hash, p)
    ensures (forall u: nat :: ts.finalAt <= u ==> Holds(run(u), p, hash)) <==>
            Slot(run(ts.finalAt), p) == Slot(run(LastRead(ts.scan)), p)
    ensures (forall u: nat :: ts.finalAt <= u ==> Holds(run(u), p, hash)) <==>
            Slot(run(ts.rereadAt), p) == Some(hash)
  {
    hide ValidRun, ScanTimes, MissedAt, Holds;
    forall u: nat | ts.finalAt <= u
      ensures Holds(run(u), p, hash) <==> Holds(run(ts.finalAt), p, hash)
    {
      ReceiptIsFinal(run, ts, hash, p, u);
    }
    HoldsIsSlot(run(ts.finalAt), p, hash);
    HoldsIsSlot(run(ts.rereadAt), p, hash);
  }

  // ----- a receipt that is wrong

  /** Four blocks come with "mine" in block 1; later a branch with "yours" replaces it and becomes final. */
  function ReorgedAway(t: nat): Chain
  {
    if t == 0 then Chain([[]], 0)
    else if t <= 12 then Chain([[], ["mine"], [], [], []], 0)
    else Chain([[], ["yours"], [], [], []], if t == 13 then 0 else 1)
  }

  lemma ReorgedAwayIsValid()
    ensures ValidRun(ReorgedAway)
  {
    forall t: nat
      ensures StepAt(ReorgedAway, t)
    {
      assert ReorgedAway(t).blocks[..1] == [[]] == ReorgedAway(t + 1).blocks[..1];
      if t > 13 { assert ReorgedAway(t).blocks == ReorgedAway(t + 1).blocks; }
    }
  }

  /** The patience for a single look. */
  function Once(k: nat): nat
  {
    1
  }

  /** On that run and schedule the scan, started by request 2, finds the extrinsic with its fourth read. */
  lemma MisledScan(scan: Scan, p: Position)
    requires ScanSchedule(EveryTwo, 2, scan)
    ensures ScanFound(ReorgedAway, scan, "mine", p) ==> p == Position(1, 0) && |scan.readAt| == 4
    ensures !ScanMissed(ReorgedAway, scan, "mine")
  {
    hide TimeOf;
    EveryTwoTimes(2);
    forall i | 0 <= i < |scan.readAt|
      ensures scan.readAt[i] == 6 + 2 * i
    {
      EveryTwoTimes(3 + i);
    }
    if |scan.readAt| >= 4 { assert !MissedAt(ReorgedAway, scan, 3, "mine"); }
  }

  /**
   A client that is given a receipt for somebody else's extrinsic: a reorganisation came between
   the scan and the sight of finality.
   */
  method MisledClient() returns (r: Result)
    ensures r == Receipt(Position(1, 0), "mine")
    ensures ValidRun(ReorgedAway)
    ensures forall u: nat :: 14 <= u ==> Holds(ReorgedAway(u), Position(1, 0), "yours")
  {
    hide ValidRun, TimeOf, ScanFound, ScanMissed, ScanSchedule, ReceiptGround;
    ReorgedAwayIsValid();
    var client := new Client(ReorgedAway, EveryTwo, Once);
    ghost var ts, grown, polls;
    r, ts, grown, polls := client.SubmitExtrinsic(Accepted("mine"), true, true);
    EveryTwoTimes(0);
    EveryTwoTimes(1);
    assert !NeverGrown(ReorgedAway, EveryTwo, 0, WAIT_BLOCKS, 1) by {
      assert Head(View(ReorgedAway, EveryTwo, 1)) == 4;
    }
    assert grown == 1;
    forall p ensures ScanFound(ReorgedAway, ts.scan, "mine", p) ==> p == Position(1, 0) && |ts.scan.readAt| == 4
    {
      MisledScan(ts.scan, p);
    }
    MisledScan(ts.scan, Position(1, 0));
    assert polls == [7];
    EveryTwoTimes(7);
    EveryTwoTimes(8);
  }
}
