/**
 Retrying a batch on a chain that may reorganise
 (tools/monkey/monkey_reorg_batch.py:14-24 and 35-72).  The batch is submitted by the client of
 ReorgSubmit, as tools/utils.py:22-29 installs it, and so sees the same chain.
 */
module BatchRetry {
  import opened Common
  import opened Schedule
  import opened ReorgChain
  import Submit = ReorgSubmit

  const BACKTRACE_BLOCK_NUM: nat := 10
  const RETRY_TIMES: nat := 3
  const WAITS: nat := 4
  const WAIT_BLOCKS: nat := 4

  /**
   What the node says to the batch: it takes the extrinsic with that hash, it refuses it with a
   message that does or does not say "invalid", or something else breaks.
   */
  datatype Reply = Accepts(hash: Hash) | Refuses(invalid: bool, hash: Hash) | Breaks

  /** What comes of one execution of the batch; `Stalled` is a wait that was given up. */
  datatype Attempt = Executed(position: Position) | RequestFailed(invalid: bool, hash: Hash) | Broke | Stalled

  datatype Failure = Request | Other | NoSuchHeight | Reread

  /** `Waiting` is a wait that was given up; `FellThrough` would be leaving the retry loop without an answer. */
  datatype Result = Receipt(position: Position) | Raised(failure: Failure) | Waiting | FellThrough

  datatype Sighting = Nothing | At(position: Position) | BelowGenesis

  /** One backtrace: what it looked for, the request for the head, how many blocks it read after that, what it saw. */
  datatype BackScan = BackScan(hash: Hash, start: nat, looked: nat, seen: Sighting)

  /** One turn of the retry loop: an attempt with its submission, the request after it, the backtraces that follow. */
  datatype Round = Round(
    reply: Reply,
    direct: Submit.Result,
    times: Submit.Times,
    attempt: Attempt,
    from: nat,
    scans: seq<BackScan>)

  // ----- an attempt

  /** A batch that is taken is waited for as any extrinsic is; the errors of that wait call it invalid. */
  ghost predicate Tried(run: Run, pauses: nat -> nat, patience: nat -> nat, round: Round)
  {
    match round.reply
    case Breaks => round.attempt == Broke
    case Refuses(invalid, hash) => round.attempt == RequestFailed(invalid, hash)
    case Accepts(hash) =>
      match round.direct
      case Receipt(p, h) =>
        h == hash && round.attempt == Executed(p) && Submit.ReceiptGround(run, round.times, hash, p)
      case NotIncluded =>
        round.attempt == RequestFailed(true, hash) && Submit.ScanMissed(run, round.times.scan, hash)
      case Disappeared(p) =>
        && round.attempt == RequestFailed(true, hash)
        && Submit.ScanFound(run, round.times.scan, hash, p) && !Exists(run(round.times.rereadAt), p)
      case NotGrown => round.attempt == Stalled && Submit.GaveUp(run, pauses, patience)
      case Unfinished(_) => round.attempt == Stalled && Submit.GaveUp(run, pauses, patience)
      case _ => false
  }

  // ----- backtracing

  function HeadAt(pauses: nat -> nat, scan: BackScan): nat
  {
    TimeOf(pauses, scan.start)
  }

  /** The instant the i-th block below the head was read. */
  function ReadAt(pauses: nat -> nat, scan: BackScan, i: nat): nat
  {
    TimeOf(pauses, scan.start + 1 + i)
  }

  /** The first request after a backtrace. */
  function End(scan: BackScan): nat
  {
    scan.start + 1 + scan.looked
  }

  function Now(run: Run, pauses: nat -> nat, scan: BackScan): int
  {
    Head(run(HeadAt(pauses, scan)))
  }

  /** The i-th block below the head was there when read, and did not hold the hash. */
  ghost predicate AbsentAt(run: Run, pauses: nat -> nat, scan: BackScan, i: nat)
  {
    var height, now := Now(run, pauses, scan) - i, run(ReadAt(pauses, scan, i));
    0 <= height < |now.blocks| && scan.hash !in now.blocks[height]
  }

  /** What a backtrace reports is true of the blocks as it read them. */
  ghost predicate Truthful(run: Run, pauses: nat -> nat, scan: BackScan)
  {
    var now := Now(run, pauses, scan);
    match scan.seen
    case Nothing =>
      && scan.looked == BACKTRACE_BLOCK_NUM
      && forall i: nat :: i < scan.looked ==> AbsentAt(run, pauses, scan, i)
    case At(p) =>
      && 1 <= scan.looked <= BACKTRACE_BLOCK_NUM && p.height == now - (scan.looked - 1)
      && (forall i: nat :: i < scan.looked - 1 ==> AbsentAt(run, pauses, scan, i))
      && var last := run(ReadAt(pauses, scan, scan.looked - 1));
         p.height < |last.blocks| && FirstIn(last.blocks[p.height], p.index, scan.hash)
    case BelowGenesis =>
      && scan.looked < BACKTRACE_BLOCK_NUM && now - scan.looked == -1
      && forall i: nat :: i < scan.looked ==> AbsentAt(run, pauses, scan, i)
  }

  /** Each backtrace comes right after a wait of four blocks, the first from request `from`. */
  ghost predicate Waited(run: Run, pauses: nat -> nat, patience: nat -> nat, from: nat, start: nat)
  {
    start > 0 && Submit.FirstGrown(run, pauses, from, WAIT_BLOCKS, patience(from), start - 1)
  }

  ghost predicate ScansFollow(run: Run, pauses: nat -> nat, patience: nat -> nat, from: nat, scans: seq<BackScan>)
  {
    && (scans != [] ==> Waited(run, pauses, patience, from, scans[0].start))
    && forall i :: 0 <= i < |scans| - 1 ==> Waited(run, pauses, patience, End(scans[i]), scans[i + 1].start)
  }

  // ----- the shape of a run

  ghost predicate InVain(run: Run, pauses: nat -> nat, hash: Hash, scan: BackScan)
  {
    scan.hash == hash && scan.seen == Nothing && Truthful(run, pauses, scan)
  }

  /** A round that leads to another submission: the request was called invalid and four backtraces saw nothing. */
  ghost predicate FailedRound(run: Run, pauses: nat -> nat, patience: nat -> nat, round: Round)
  {
    && round.attempt.RequestFailed? && round.attempt.invalid
    && ScansFollow(run, pauses, patience, round.from, round.scans)
    && |round.scans| == WAITS
    && forall i :: 0 <= i < WAITS ==> InVain(run, pauses, round.attempt.hash, round.scans[i])
  }

  /** The instant a sighting is looked up again: the request right after the last backtrace. */
  function RereadAt(pauses: nat -> nat, round: Round): nat
    requires round.scans != []
  {
    TimeOf(pauses, End(round.scans[|round.scans| - 1]))
  }

  /** How the backtraces of a round end, if not in vain: with a sighting, below genesis, or in a wait. */
  ghost predicate Answers(run: Run, pauses: nat -> nat, patience: nat -> nat, hash: Hash, round: Round, r: Result)
  {
    var n := |round.scans|;
    && n <= WAITS && ScansFollow(run, pauses, patience, round.from, round.scans)
    && if r == Waiting then
         && n < WAITS
         && (forall i :: 0 <= i < n ==> InVain(run, pauses, hash, round.scans[i]))
         && var from := if n == 0 then round.from else End(round.scans[n - 1]);
            Submit.HeadStuck(run, pauses, patience, from)
       else
         && 1 <= n && (forall i :: 0 <= i < n - 1 ==> InVain(run, pauses, hash, round.scans[i]))
         && var last := round.scans[n - 1];
            && last.hash == hash && Truthful(run, pauses, last)
            && match last.seen
               case Nothing => false
               case At(p) => r == if Exists(run(RereadAt(pauses, round)), p) then Receipt(p) else Raised(Reread)
               case BelowGenesis => r == Raised(NoSuchHeight)
  }

  /** The last round decides the result. */
  ghost predicate Decides(run: Run, pauses: nat -> nat, patience: nat -> nat, round: Round, isFinal: bool, r: Result)
  {
    match round.attempt
    case Executed(p) => round.scans == [] && r == Receipt(p)
    case Broke => round.scans == [] && r == Raised(Other)
    case Stalled => round.scans == [] && r == Waiting
    case RequestFailed(invalid, hash) =>
      if !invalid then round.scans == [] && r == Raised(Request)
      else if FailedRound(run, pauses, patience, round) then isFinal && r == Raised(Request)
      else Answers(run, pauses, patience, hash, round, r)
  }

  ghost predicate Retried(
      run: Run, pauses: nat -> nat, patience: nat -> nat, replies: nat -> Reply, rounds: seq<Round>, r: Result)
  {
    && 1 <= |rounds| <= RETRY_TIMES
    && (forall i: nat :: i < |rounds| ==> rounds[i].reply == replies(i) && Tried(run, pauses, patience, rounds[i]))
    && (forall i :: 0 <= i < |rounds| - 1 ==> FailedRound(run, pauses, patience, rounds[i]))
    && Decides(run, pauses, patience, rounds[|rounds| - 1], |rounds| == RETRY_TIMES, r)
  }

  /** At most three rounds of at most four backtraces. */
  ghost predicate Sized(rounds: seq<Round>)
  {
    1 <= |rounds| <= RETRY_TIMES && forall i :: 0 <= i < |rounds| ==> |rounds[i].scans| <= WAITS
  }

  // ----- the client

  class BatchClient {
    const client: Submit.Client
    const replies: nat -> Reply
    ghost var rounds: seq<Round>

    constructor (run: Run, pauses: nat -> nat, patience: nat -> nat, replies: nat -> Reply)
      ensures fresh(client) && client.run == run && client.pauses == pauses && client.patience == patience
      ensures client.asked == 0
      ensures this.replies == replies && rounds == []
    {
      client := new Submit.Client(run, pauses, patience);
      this.replies, rounds := replies, [];
    }

    /** _backtrace_blocks_by_extrinsic; asking for a block below genesis is an error. */
    method Backtrace(hash: Hash) returns (seen: Sighting, ghost scan: BackScan)
      requires ValidRun(client.run)
      modifies client`asked
      ensures scan.hash == hash && scan.seen == seen && scan.start == old(client.asked)
      ensures seen != BelowGenesis ==> client.asked == End(scan)
      ensures Truthful(client.run, client.pauses, scan)
    {
      hide AbsentAt, TimeOf;
      var start := client.asked;
      var head := client.Ask();
      var now := Head(head);
      scan := BackScan(hash, start, 0, Nothing);
      for i := 0 to BACKTRACE_BLOCK_NUM
        invariant client.asked == start + 1 + i
        invariant scan == BackScan(hash, start, i, Nothing) && now >= i - 1
        invariant forall j: nat :: j < i ==> AbsentAt(client.run, client.pauses, scan, j)
      {
        ghost var before := scan;
        var chain := client.Ask();
        if now - i < 0 {
          scan := scan.(seen := BelowGenesis);
          SameReads(client.run, client.pauses, before, scan);
          return BelowGenesis, scan;
        }
        TimesGrow(client.pauses, start, start + 1 + i);
        RunKeeps(client.run, HeadAt(client.pauses, scan), ReadAt(client.pauses, scan, i));
        var index := FindInBlock(chain.blocks[now - i], hash);
        if index.Some? {
          var p := Position(now - i, index.value);
          scan := scan.(looked := i + 1, seen := At(p));
          SameReads(client.run, client.pauses, before, scan);
          return At(p), scan;
        }
        scan := scan.(looked := i + 1);
        SameReads(client.run, client.pauses, before, scan);
        NotThere(client.run, client.pauses, scan, i);
      }
      seen := Nothing;
    }

    /** The loop of four waits and backtraces after a request that was called invalid. */
    method LookBack(hash: Hash, ghost round: Round) returns (r: Option<Result>, ghost scans: seq<BackScan>)
      requires ValidRun(client.run)
      requires round.attempt == RequestFailed(true, hash) && round.from == client.asked
      modifies client`asked
      ensures if r.None? then FailedRound(client.run, client.pauses, client.patience, round.(scans := scans))
              else
                && !FailedRound(client.run, client.pauses, client.patience, round.(scans := scans))
                && Answers(client.run, client.pauses, client.patience, hash, round.(scans := scans), r.value)
                && r.value != FellThrough
      ensures |scans| <= WAITS
      ensures r == Some(Waiting) ==> Submit.GaveUp(client.run, client.pauses, client.patience)
    {
      hide Truthful, ValidRun, Submit.FirstGrown, Submit.NeverGrown, Submit.HeadStuck, Submit.GaveUp;
      scans := [];
      for j := 0 to WAITS
        invariant |scans| == j
        invariant ScansFollow(client.run, client.pauses, client.patience, round.from, scans)
        invariant forall i :: 0 <= i < j ==> InVain(client.run, client.pauses, hash, scans[i])
        invariant client.asked == if j == 0 then round.from else End(scans[j - 1])
      {
        ghost var from := client.asked;
        var grown := client.WaitForBlocks(WAIT_BLOCKS);
        if !grown {
          Submit.HeadStuckGivesUp(client.run, client.pauses, client.patience, from);
          return Some(Waiting), scans;
        }
        var seen, scan := Backtrace(hash);
        scans := scans + [scan];
        match seen {
          case Nothing =>
            assert InVain(client.run, client.pauses, hash, scans[j]);
          case At(position) =>
            assert !InVain(client.run, client.pauses, hash, scans[j]);
            var now := client.Ask();
            if position.height < |now.blocks| && position.index < |now.blocks[position.height]| {
              return Some(Receipt(position)), scans;
            }
            return Some(Raised(Reread)), scans;
          case BelowGenesis =>
            assert !InVain(client.run, client.pauses, hash, scans[j]);
            return Some(Raised(NoSuchHeight)), scans;
        }
      }
      return None, scans;
    }

    /** One execution of the batch. */
    method Try(reply: Reply) returns (attempt: Attempt, ghost round: Round)
      requires ValidRun(client.run)
      modifies client`asked
      ensures Tried(client.run, client.pauses, client.patience, round)
      ensures round.reply == reply && round.attempt == attempt && round.scans == [] && round.from == client.asked
      ensures !reply.Accepts? ==> client.asked == old(client.asked)
      ensures attempt == Stalled ==> Submit.GaveUp(client.run, client.pauses, client.patience)
    {
      hide Submit.ReceiptGround, Submit.ScanMissed, Submit.ScanFound, Submit.FirstGrown, Submit.NeverGrown,
           Submit.Polls, Submit.SeesFinal, Submit.ScanSchedule, Submit.GaveUp, Submit.HeadStuck, ValidRun;
      ghost var direct, times := Submit.NotAccepted, Submit.Times(Submit.Scan(0, []), 0, 0);
      match reply {
        case Breaks => attempt := Broke;
        case Refuses(invalid, hash) => attempt := RequestFailed(invalid, hash);
        case Accepts(hash) =>
          var answer, ts, grown, polls := client.SubmitExtrinsic(Submit.Accepted(hash), true, false);
          direct, times := answer, ts;
          match answer {
            case Receipt(position, _) => attempt := Executed(position);
            case NotGrown => attempt := Stalled;
            case Unfinished(_) => attempt := Stalled;
            case _ => attempt := RequestFailed(true, hash);
          }
      }
      round := Round(reply, direct, times, attempt, client.asked, []);
    }

    /** One turn of the retry loop; `None` goes on to the next. */
    method Turn(i: nat) returns (r: Option<Result>, ghost round: Round)
      requires ValidRun(client.run)
      modifies client`asked
      ensures round.reply == replies(i) && Tried(client.run, client.pauses, client.patience, round)
      ensures |round.scans| <= WAITS
      ensures r.None? ==> i != RETRY_TIMES - 1 && FailedRound(client.run, client.pauses, client.patience, round)
      ensures r.Some? ==>
                && r.value != FellThrough
                && (r.value == Waiting ==> Submit.GaveUp(client.run, client.pauses, client.patience))
                && Decides(client.run, client.pauses, client.patience, round, i == RETRY_TIMES - 1, r.value)
      ensures replies(i).Refuses? ==> round.from == old(client.asked)
    {
      hide ValidRun, Tried, FailedRound, Answers, Submit.GaveUp;
      var attempt;
      attempt, round := Try(replies(i));
      match attempt {
        case Executed(position) =>
          r := Some(Receipt(position));
        case Broke =>
          r := Some(Raised(Other));
        case Stalled =>
          r := Some(Waiting);
        case RequestFailed(invalid, hash) =>
          if !invalid {
            return Some(Raised(Request)), round;
          }
          ghost var scans;
          r, scans := LookBack(hash, round);
          ScansDoNotMatter(client.run, client.pauses, client.patience, round, scans);
          round := round.(scans := scans);
          if r.None? && i == RETRY_TIMES - 1 {
            r := Some(Raised(Request));
          }
      }
    }

    /** monkey_execute_extrinsic_batch: it ends in a receipt, in an error, or in a wait that was given up. */
    method Execute() returns (r: Result)
      requires ValidRun(client.run) && rounds == []
      modifies client`asked, this`rounds
      ensures r != FellThrough
      ensures r == Waiting ==> Submit.GaveUp(client.run, client.pauses, client.patience)
      ensures Retried(client.run, client.pauses, client.patience, replies, rounds, r) && Sized(rounds)
      ensures replies(0).Refuses? ==> rounds[0].from == old(client.asked)
    {
      hide ValidRun, Tried, FailedRound, Decides, Submit.GaveUp;
      r := FellThrough;
      for i := 0 to RETRY_TIMES
        invariant |rounds| == i < RETRY_TIMES
        invariant forall j: nat :: j < i ==>
                    && rounds[j].reply == replies(j) && |rounds[j].scans| <= WAITS
                    && Tried(client.run, client.pauses, client.patience, rounds[j])
                    && FailedRound(client.run, client.pauses, client.patience, rounds[j])
        invariant i == 0 ==> client.asked == old(client.asked)
        invariant i > 0 && replies(0).Refuses? ==> rounds[0].from == old(client.asked)
      {
        var answer, round := Turn(i);
        rounds := rounds + [round];
        if answer.Some? {
          return answer.value;
        }
      }
    }
  }

  /** Nothing but a wait that was given up keeps the retry from an answer. */
  lemma WaitingGaveUp(
      run: Run, pauses: nat -> nat, patience: nat -> nat, replies: nat -> Reply, rounds: seq<Round>)
    requires Retried(run, pauses, patience, replies, rounds, Waiting)
    ensures Submit.GaveUp(run, pauses, patience)
  {
    hide Submit.HeadStuck, Submit.FinalityStuck, Truthful, InVain, ScansFollow, Submit.ScanFound, Submit.ScanMissed,
         Submit.ReceiptGround, TimeOf;
    var last := rounds[|rounds| - 1];
    assert Tried(run, pauses, patience, last);
    if !last.attempt.Stalled? {
      var n := |last.scans|;
      var from := if n == 0 then last.from else End(last.scans[n - 1]);
      assert Submit.HeadStuck(run, pauses, patience, from);
    }
  }

  /**
   Totality: on a chain that keeps growing and keeps being finalised there is a patience with which
   the retry always ends in a receipt or an error, whatever the node says to the batches.
   */
  lemma RetryAnswers(run: Run, pauses: nat -> nat) returns (patience: nat -> nat)
    requires ValidRun(run) && Submit.Lively(run, pauses)
    ensures !Submit.GaveUp(run, pauses, patience)
    ensures forall replies, rounds :: !Retried(run, pauses, patience, replies, rounds, Waiting)
  {
    hide Submit.GaveUp, Submit.Lively, ValidRun, Retried;
    patience := Submit.EnoughPatience(run, pauses);
    forall replies: nat -> Reply, rounds: seq<Round>
      ensures !Retried(run, pauses, patience, replies, rounds, Waiting)
    {
      if Retried(run, pauses, patience, replies, rounds, Waiting) {
        WaitingGaveUp(run, pauses, patience, replies, rounds);
      }
    }
  }

  /**
   How a run of the retry ends, by what the node said and how the submissions went.  Only a refusal
   that does not say "invalid" and the third failure raise the error of the request.
   */
  lemma HowItEnds(
      run: Run, pauses: nat -> nat, patience: nat -> nat, replies: nat -> Reply, rounds: seq<Round>, r: Result)
    requires Retried(run, pauses, patience, replies, rounds, r)
    ensures var n := |rounds| - 1; var last := rounds[n];
            && 0 <= n < 3
            && (forall i: nat :: i < n ==> !replies(i).Breaks? && (replies(i).Refuses? ==> replies(i).invalid))
            && (replies(n).Breaks? <==> r == Raised(Other))
            && (replies(n).Refuses? && !replies(n).invalid ==> r == Raised(Request))
            && (r == Raised(Request) ==> n == 2 || (replies(n).Refuses? && !replies(n).invalid))
            && (replies(n).Accepts? && last.direct.Receipt? ==> r == Receipt(last.direct.position))
            && (r == Raised(NoSuchHeight) ==> last.scans != [] && Now(run, pauses, last.scans[|last.scans| - 1]) < 9)
  {
    hide TimeOf, AbsentAt, ScansFollow, Submit.ReceiptGround, Submit.ScanFound, Submit.ScanMissed, Submit.GaveUp,
         Submit.HeadStuck;
    var n := |rounds| - 1;
    assert Tried(run, pauses, patience, rounds[n]);
    forall i: nat | i < n
      ensures !replies(i).Breaks? && (replies(i).Refuses? ==> replies(i).invalid)
    {
      assert Tried(run, pauses, patience, rounds[i]) && FailedRound(run, pauses, patience, rounds[i]);
    }
  }

  /** Every backtrace begins with the request after the one that first saw the head four blocks higher. */
  lemma BacktracesFollowWaits(
      run: Run, pauses: nat -> nat, patience: nat -> nat, replies: nat -> Reply, rounds: seq<Round>, r: Result,
      i: nat, j: nat)
    requires Retried(run, pauses, patience, replies, rounds, r)
    requires i < |rounds| && j < |rounds[i].scans|
    ensures var scans := rounds[i].scans; var from := if j == 0 then rounds[i].from else End(scans[j - 1]);
            scans[j].start > 0 && Submit.FirstGrown(run, pauses, from, 4, patience(from), scans[j].start - 1)
  {
    hide TimeOf, Truthful, InVain, Tried, Submit.FirstGrown, Submit.HeadStuck;
    assert i < |rounds| - 1 ==> FailedRound(run, pauses, patience, rounds[i]);
    assert ScansFollow(run, pauses, patience, rounds[i].from, rounds[i].scans);
    if j > 0 {
      assert Waited(run, pauses, patience, End(rounds[i].scans[j - 1]), rounds[i].scans[j - 1 + 1].start);
    }
  }

  lemma SameReads(run: Run, pauses: nat -> nat, scan: BackScan, next: BackScan)
    requires next.hash == scan.hash && next.start == scan.start
    ensures forall i: nat :: AbsentAt(run, pauses, scan, i) <==> AbsentAt(run, pauses, next, i)
  {
  }

  lemma NotThere(run: Run, pauses: nat -> nat, scan: BackScan, i: nat)
    requires var height, now := Now(run, pauses, scan) - i, run(ReadAt(pauses, scan, i));
             0 <= height < |now.blocks| && scan.hash !in now.blocks[height]
    ensures AbsentAt(run, pauses, scan, i)
  {
  }

  lemma ScansDoNotMatter(
      run: Run, pauses: nat -> nat, patience: nat -> nat, round: Round, scans: seq<BackScan>)
    requires Tried(run, pauses, patience, round)
    ensures Tried(run, pauses, patience, round.(scans := scans))
  {
  }

  // ----- what every run of the retry keeps

  ghost function Scans(rounds: seq<Round>): nat
  {
    if rounds == [] then 0 else Scans(rounds[..|rounds| - 1]) + |rounds[|rounds| - 1].scans|
  }

  /** At most three submissions and twelve backtraces, whatever the node answers. */
  lemma RetryIsBounded(rounds: seq<Round>)
    requires Sized(rounds)
    ensures |rounds| <= 3 && Scans(rounds) <= 12
  {
    ScansBounded(rounds);
  }

  lemma {:induction false} ScansBounded(rounds: seq<Round>)
    requires forall i :: 0 <= i < |rounds| ==> |rounds[i].scans| <= WAITS
    ensures Scans(rounds) <= WAITS * |rounds|
  {
    if rounds != [] {
      assert forall i :: 0 <= i < |rounds| - 1 ==> rounds[..|rounds| - 1][i] == rounds[i];
      ScansBounded(rounds[..|rounds| - 1]);
    }
  }

  /** The instant of the last block a backtrace read. */
  function LastAt(pauses: nat -> nat, scan: BackScan): nat
  {
    TimeOf(pauses, scan.start + scan.looked)
  }

  /** A block the backtrace read and that was not replaced while it looked did not hold the hash all that time. */
  lemma AbsentIsAbsent(run: Run, pauses: nat -> nat, scan: BackScan, i: nat)
    requires i < scan.looked && AbsentAt(run, pauses, scan, i)
    requires NotReplaced(run, Now(run, pauses, scan) - i, HeadAt(pauses, scan), LastAt(pauses, scan))
    ensures scan.hash !in run(HeadAt(pauses, scan)).blocks[Now(run, pauses, scan) - i]
  {
    hide TimeOf;
    TimesGrow(pauses, scan.start, scan.start + 1 + i);
    TimesGrow(pauses, scan.start + 1 + i, scan.start + scan.looked);
  }

  /**
   Every submission after the first follows four backtraces, and what a backtrace does not see is
   not there: a block of its window that was not replaced while it looked does not hold the
   extrinsic of the submission before.
   */
  lemma ResubmitsOnlyUnseen(
      run: Run, pauses: nat -> nat, patience: nat -> nat, replies: nat -> Reply, rounds: seq<Round>, r: Result,
      i: nat, j: nat)
    requires Retried(run, pauses, patience, replies, rounds, r)
    requires i + 1 < |rounds| && j < 4
    ensures !replies(i).Breaks? && |rounds[i].scans| == 4
    ensures var scan := rounds[i].scans[j]; var now := Now(run, pauses, scan);
            forall h ::
              && now - 10 < h <= now
              && NotReplaced(run, h, HeadAt(pauses, scan), LastAt(pauses, scan)) ==>
                0 <= h && replies(i).hash !in run(HeadAt(pauses, scan)).blocks[h]
  {
    hide TimeOf;
    assert FailedRound(run, pauses, patience, rounds[i]);
    assert Tried(run, pauses, patience, rounds[i]) && rounds[i].reply == replies(i);
    var scan := rounds[i].scans[j];
    var now := Now(run, pauses, scan);
    assert InVain(run, pauses, rounds[i].attempt.hash, scan);
    forall h | now - BACKTRACE_BLOCK_NUM < h <= now
               && NotReplaced(run, h, HeadAt(pauses, scan), LastAt(pauses, scan))
      ensures 0 <= h && replies(i).hash !in run(HeadAt(pauses, scan)).blocks[h]
    {
      assert now - (now - h) == h;
      AbsentIsAbsent(run, pauses, scan, now - h);
    }
  }

  /** The instant a receipt's extrinsic was looked up: by the submission itself, or after the last backtrace. */
  ghost function LookedUpAt(pauses: nat -> nat, round: Round): nat
  {
    if round.scans == [] then round.times.rereadAt else RereadAt(pauses, round)
  }

  /** A receipt is either that of a submission or of a sighting in the last backtrace. */
  lemma ReceiptPaths(
      run: Run, pauses: nat -> nat, patience: nat -> nat, replies: nat -> Reply, rounds: seq<Round>, p: Position)
    requires Retried(run, pauses, patience, replies, rounds, Receipt(p))
    ensures var last := rounds[|rounds| - 1];
            && Exists(run(LookedUpAt(pauses, last)), p)
            && (if last.attempt == Executed(p) then
                  && replies(|rounds| - 1).Accepts? && last.scans == []
                  && Submit.ReceiptGround(run, last.times, replies(|rounds| - 1).hash, p)
                else
                  && !replies(|rounds| - 1).Breaks? && last.scans != []
                  && var scan := last.scans[|last.scans| - 1];
                     scan.hash == replies(|rounds| - 1).hash && scan.seen == At(p) && Truthful(run, pauses, scan))
  {
    hide TimeOf, Submit.ScanFound, Submit.ScanMissed, Submit.NeverGrown, Truthful, InVain, ScansFollow;
    assert Tried(run, pauses, patience, rounds[|rounds| - 1]);
  }

  /**
   What a receipt is worth.  The position has an extrinsic when it is looked up, and keeps it
   whatever the chain does next exactly when its height is final by then.  A receipt of the
   submission itself always is; one of a backtrace is checked by nobody.
   */
  lemma ReceiptStaysIff(
      run: Run, pauses: nat -> nat, patience: nat -> nat, replies: nat -> Reply, rounds: seq<Round>, p: Position)
    requires ValidRun(run) && Retried(run, pauses, patience, replies, rounds, Receipt(p))
    ensures var last := rounds[|rounds| - 1]; var at := LookedUpAt(pauses, last);
            && Exists(run(at), p)
            && (Stays(run, at, p) <==> p.height <= run(at).finalized)
            && (last.attempt == Executed(p) ==> Stays(run, at, p))
  {
    var last := rounds[|rounds| - 1];
    hide Retried, ValidRun, Stays, Truthful, Exists, Submit.ScanFound;
    var at := LookedUpAt(pauses, last);
    ReceiptPaths(run, pauses, patience, replies, rounds, p);
    StaysIff(run, at, p);
    if last.attempt == Executed(p) {
      RunKeeps(run, last.times.finalAt, at);
    }
  }

  /**
   A receipt of a backtrace names the highest position among its ten blocks that holds the extrinsic
   of the last attempt.  It holds it at an instant exactly when it has then what the backtrace read
   there, and so for as long as its block is not replaced.
   */
  lemma ReceiptWasSeen(
      run: Run, pauses: nat -> nat, patience: nat -> nat, replies: nat -> Reply, rounds: seq<Round>, p: Position,
      t: nat)
    requires Retried(run, pauses, patience, replies, rounds, Receipt(p))
    requires rounds[|rounds| - 1].attempt != Executed(p)
    ensures var last := rounds[|rounds| - 1];
            && last.scans != []
            && var scan := last.scans[|last.scans| - 1];
               && Now(run, pauses, scan) - 10 < p.height <= Now(run, pauses, scan)
               && (forall h ::
                     && p.height < h <= Now(run, pauses, scan)
                     && NotReplaced(run, h, HeadAt(pauses, scan), LastAt(pauses, scan)) ==>
                       scan.hash !in run(HeadAt(pauses, scan)).blocks[h])
               && (Holds(run(t), p, replies(|rounds| - 1).hash) <==>
                   Slot(run(t), p) == Slot(run(LastAt(pauses, scan)), p))
               && (LastAt(pauses, scan) <= t && NotReplaced(run, p.height, LastAt(pauses, scan), t) ==>
                     Holds(run(t), p, replies(|rounds| - 1).hash))
  {
    var last := rounds[|rounds| - 1];
    hide Retried, TimeOf, Exists, Truthful, Submit.ReceiptGround;
    ReceiptPaths(run, pauses, patience, replies, rounds, p);
    var scan := last.scans[|last.scans| - 1];
    SightingMeaning(run, pauses, scan, p);
    HoldsIsSlot(run(t), p, scan.hash);
    forall h | p.height < h <= Now(run, pauses, scan)
               && NotReplaced(run, h, HeadAt(pauses, scan), LastAt(pauses, scan))
      ensures scan.hash !in run(HeadAt(pauses, scan)).blocks[h]
    {
      HigherIsAbsent(run, pauses, scan, p, h);
    }
  }

  lemma HigherIsAbsent(run: Run, pauses: nat -> nat, scan: BackScan, p: Position, h: nat)
    requires Truthful(run, pauses, scan) && scan.seen == At(p)
    requires p.height < h <= Now(run, pauses, scan)
    requires NotReplaced(run, h, HeadAt(pauses, scan), LastAt(pauses, scan))
    ensures scan.hash !in run(HeadAt(pauses, scan)).blocks[h]
  {
    hide TimeOf, AbsentAt;
    var now := Now(run, pauses, scan);
    assert now - (now - h) == h;
    AbsentIsAbsent(run, pauses, scan, now - h);
  }

  lemma SightingMeaning(run: Run, pauses: nat -> nat, scan: BackScan, p: Position)
    requires Truthful(run, pauses, scan) && scan.seen == At(p)
    ensures Now(run, pauses, scan) - 10 < p.height <= Now(run, pauses, scan)
    ensures Slot(run(LastAt(pauses, scan)), p) == Some(scan.hash)
  {
    hide TimeOf, AbsentAt;
    assert LastAt(pauses, scan) == ReadAt(pauses, scan, scan.looked - 1);
  }

  // ----- a receipt that is not final

  /** Four blocks come, with "mine" in block 1, and none is final. */
  function NothingFinal(t: nat): Chain
  {
    Chain(if t == 0 then [[]] else [[], ["mine"], [], [], []], 0)
  }

  lemma NothingFinalIsValid()
    ensures ValidRun(NothingFinal)
  {
    forall t: nat
      ensures StepAt(NothingFinal, t)
    {
      assert NothingFinal(t).blocks[..1] == [[]] == NothingFinal(t + 1).blocks[..1];
    }
  }

  function CalledInvalid(i: nat): Reply
  {
    Refuses(true, "mine")
  }

  /** On that run a backtrace started by request 2 finds the extrinsic with its fourth read. */
  lemma SeenByFourthRead(scan: BackScan)
    requires scan.start == 2 && scan.hash == "mine" && Truthful(NothingFinal, EveryTwo, scan)
    ensures scan.seen == At(Position(1, 0)) && scan.looked == 4
  {
    hide TimeOf;
    EveryTwoTimes(2);
    forall i: nat
      ensures ReadAt(EveryTwo, scan, i) == 6 + 2 * i
    {
      EveryTwoTimes(3 + i);
    }
    assert !AbsentAt(NothingFinal, EveryTwo, scan, 3);
  }

  lemma GrownAtOnce(k: nat)
    requires Waited(NothingFinal, EveryTwo, Submit.Once, 0, k)
    ensures k == 2
  {
  }

  lemma FirstBacktrace(round: Round, r: Result)
    requires round.from == 0 && round.attempt == RequestFailed(true, "mine")
    ensures !FailedRound(NothingFinal, EveryTwo, Submit.Once, round)
    ensures Answers(NothingFinal, EveryTwo, Submit.Once, "mine", round, r) ==> r == Receipt(Position(1, 0))
  {
    hide TimeOf, Truthful, Waited;
    var pauses := EveryTwo;
    if round.scans != [] && ScansFollow(NothingFinal, pauses, Submit.Once, 0, round.scans) {
      GrownAtOnce(round.scans[0].start);
      if Truthful(NothingFinal, pauses, round.scans[0]) && round.scans[0].hash == "mine" {
        SeenByFourthRead(round.scans[0]);
        assert !InVain(NothingFinal, pauses, "mine", round.scans[0]);
        EveryTwoTimes(7);
      }
    }
    if round.scans == [] {
      EveryTwoTimes(0);
      EveryTwoTimes(1);
      assert !Submit.NeverGrown(NothingFinal, pauses, 0, WAIT_BLOCKS, 1) by {
        assert Head(Submit.View(NothingFinal, pauses, 1)) == 4;
      }
    }
  }

  /** The retry hands out a receipt that the next block can undo: its height is not final. */
  method UnfinalReceipt() returns (r: Result)
    ensures r == Receipt(Position(1, 0))
    ensures ValidRun(NothingFinal) && forall t: nat :: t > 0 ==> !Stays(NothingFinal, t, Position(1, 0))
  {
    NothingFinalIsValid();
    forall t: nat | t > 0
      ensures !Stays(NothingFinal, t, Position(1, 0))
    {
      StaysIff(NothingFinal, t, Position(1, 0));
    }
    hide ValidRun, Stays, Answers, FailedRound, ScansFollow;
    var batch := new BatchClient(NothingFinal, EveryTwo, Submit.Once, CalledInvalid);
    r := batch.Execute();
    FirstBacktrace(batch.rounds[0], r);
  }
}
