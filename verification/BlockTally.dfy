/**
 Counting the blocks of a session by author
 (tools/stress/stress_token_economy_v2.py:55-78, 164-181 and 417).
 */
module BlockTally {
  import opened Totals
  import opened Common
  import opened ChainView
  import opened Sessions

  function CountOf(m: BlockCounts, a: Address): nat
  {
    if a in m then m[a] else 0
  }

  function Bump(m: BlockCounts, a: Address): BlockCounts
  {
    m[a := CountOf(m, a) + 1]
  }

  /** The authors of blocks lo .. hi - 1. */
  ghost function Authors(node: Node, lo: int, hi: int): seq<Address>
    decreases hi - lo
  {
    if hi <= lo then [] else Authors(node, lo, hi - 1) + [node.author(hi - 1)]
  }

  ghost function Tally(authors: seq<Address>): BlockCounts
  {
    if authors == [] then map[] else Bump(Tally(authors[..|authors| - 1]), authors[|authors| - 1])
  }

  lemma TallyStep(node: Node, lo: int, hi: int)
    requires lo < hi
    ensures Tally(Authors(node, lo, hi)) == Bump(Tally(Authors(node, lo, hi - 1)), node.author(hi - 1))
    ensures |Authors(node, lo, hi)| == |Authors(node, lo, hi - 1)| + 1
  {
    var authors := Authors(node, lo, hi);
    assert authors[..|authors| - 1] == Authors(node, lo, hi - 1);
  }

  lemma TallyOfNone(node: Node, lo: int, hi: int)
    requires hi <= lo
    ensures Tally(Authors(node, lo, hi)) == map[]
  {
  }

  /** A tally holds every author, with the number of its blocks. */
  lemma {:induction false} TallyCounts(authors: seq<Address>)
    ensures forall a :: a in Tally(authors) <==> a in authors
    ensures forall a :: CountOf(Tally(authors), a) == multiset(authors)[a]
  {
    if authors != [] {
      var init, last := authors[..|authors| - 1], authors[|authors| - 1];
      TallyCounts(init);
      assert authors == init + [last];
    }
  }

  /** The counts of a tally add up to the number of blocks, and every author has at least one. */
  lemma {:induction false} TallySum(authors: seq<Address>)
    ensures Total(AsReals(Tally(authors))) == |authors| as real
    ensures forall a :: a in Tally(authors) ==> Tally(authors)[a] >= 1
  {
    if authors != [] {
      var init, last := authors[..|authors| - 1], authors[|authors| - 1];
      TallySum(init);
      var m := Tally(init);
      TotalPut(AsReals(m), last, (CountOf(m, last) + 1) as real);
      assert AsReals(Bump(m, last)) == AsReals(m)[last := (CountOf(m, last) + 1) as real];
    }
  }

  // ----- the per-block comparison

  /** The counter a block's author has in storage is the number of blocks it made since the session's first. */
  ghost predicate CounterAgrees(node: Node, s: Session, h: int)
  {
    CountOf(node.collatorBlocks(h, s.index), node.author(h))
    == multiset(Authors(node, s.first + 1, h + 1))[node.author(h)]
  }

  /** How many of the blocks lo .. hi - 1 an author made. */
  ghost function BlocksBy(node: Node, a: Address, lo: int, hi: int): nat
    decreases hi - lo
  {
    if hi <= lo then 0 else BlocksBy(node, a, lo, hi - 1) + if node.author(hi - 1) == a then 1 else 0
  }

  lemma {:induction false} BlocksByCounts(node: Node, a: Address, lo: int, hi: int)
    ensures multiset(Authors(node, lo, hi))[a] == BlocksBy(node, a, lo, hi)
    decreases hi - lo
  {
    if lo < hi { BlocksByCounts(node, a, lo, hi - 1); }
  }

  /** A block passes exactly when storage counts for its author the blocks it made after the session's first. */
  lemma CounterAgreesIff(node: Node, s: Session, h: int)
    ensures var a, stored := node.author(h), node.collatorBlocks(h, s.index);
            CounterAgrees(node, s, h) <==>
            (if a in stored then stored[a] else 0) == BlocksBy(node, a, s.first + 1, h + 1)
  {
    BlocksByCounts(node, node.author(h), s.first + 1, h + 1);
  }

  /** traverse_single_blocks_and_check; the error names the first block that disagrees. */
  method TraverseAndCheck(node: Node, s: Session) returns (r: Outcome<BlockCounts, int>)
    ensures r.Ok? <==> forall h :: s.first < h < Later(s) ==> CounterAgrees(node, s, h)
    ensures r.Ok? ==> r.value == Tally(Authors(node, s.first + 1, Later(s)))
    ensures r.Err? ==> s.first < r.error < Later(s) && !CounterAgrees(node, s, r.error)
    ensures r.Err? ==> forall h :: s.first < h < r.error ==> CounterAgrees(node, s, h)
  {
    hide Tally, Authors;
    var checkData: BlockCounts := map[];
    var h := s.first + 1;
    TallyOfNone(node, h, h);
    while h < Later(s)
      invariant s.first < h
      invariant Later(s) < h ==> h == s.first + 1
      invariant checkData == Tally(Authors(node, s.first + 1, h))
      invariant forall g :: s.first < g < h ==> CounterAgrees(node, s, g)
    {
      var author := node.author(h);
      TallyStep(node, s.first + 1, h + 1);
      checkData := checkData[author := CountOf(checkData, author) + 1];
      TallyCounts(Authors(node, s.first + 1, h + 1));
      assert checkData[author] == multiset(Authors(node, s.first + 1, h + 1))[author];
      if CountOf(node.collatorBlocks(h, s.index), author) != checkData[author] {
        assert !CounterAgrees(node, s, h);
        return Err(h);
      }
      h := h + 1;
    }
    r := Ok(checkData);
    if Later(s) < h { TallyOfNone(node, h, Later(s)); }
  }

  // ----- the counts a session is paid by

  /**
   The counter of a session starts empty at its first block, whose author is still paid with
   the session before, and grows by one for the author of every later block of the session.
   */
  ghost predicate HonestCounters(node: Node, s: Session)
  {
    && node.collatorBlocks(s.first, s.index) == map[]
    && forall h :: s.first < h < Later(s) ==> CounterStep(node, s, h)
  }

  ghost predicate CounterStep(node: Node, s: Session, h: int)
  {
    node.collatorBlocks(h, s.index) == Bump(node.collatorBlocks(h - 1, s.index), node.author(h))
  }

  ghost function BlockInfo(node: Node, s: Session): BlockCounts
  {
    Bump(node.collatorBlocks(Later(s) - 1, s.index), node.author(Later(s)))
  }

  /** calculate_collator_block_info: storage at the last block, plus the author of the next session's first. */
  method CollatorBlockInfo(node: Node, s: Session) returns (counts: BlockCounts)
    ensures counts == BlockInfo(node, s)
  {
    counts := node.collatorBlocks(Later(s) - 1, s.index);
    var author := node.author(Later(s));
    counts := counts[author := CountOf(counts, author) + 1];
  }

  method SumCounts(counts: BlockCounts) returns (sum: nat)
    ensures sum as real == Total(AsReals(counts))
  {
    sum := 0;
    var todo := counts.Keys;
    ghost var done: BlockCounts := map[];
    while todo != {}
      invariant todo <= counts.Keys
      invariant done.Keys == counts.Keys - todo
      invariant forall a :: a in done ==> done[a] == counts[a]
      invariant sum as real == Total(AsReals(done))
      decreases |todo|
    {
      var a :| a in todo;
      todo := todo - {a};
      sum := sum + counts[a];
      TotalPut(AsReals(done), a, counts[a] as real);
      assert AsReals(done[a := counts[a]]) == AsReals(done)[a := counts[a] as real];
      done := done[a := counts[a]];
    }
    assert done == counts;
  }

  lemma {:induction false} HonestCounterAt(node: Node, s: Session, h: int)
    requires HonestCounters(node, s) && s.first <= h < Later(s)
    ensures node.collatorBlocks(h, s.index) == Tally(Authors(node, s.first + 1, h + 1))
    decreases h - s.first
  {
    if h > s.first {
      assert CounterStep(node, s, h);
      HonestCounterAt(node, s, h - 1);
      TallyStep(node, s.first + 1, h + 1);
    }
  }

  /** On a chain that counts blocks, the per-block comparison never fails. */
  lemma HonestCountersAgree(node: Node, s: Session)
    requires HonestCounters(node, s)
    ensures forall h :: s.first < h < Later(s) ==> CounterAgrees(node, s, h)
  {
    forall h | s.first < h < Later(s)
      ensures CounterAgrees(node, s, h)
    {
      HonestCounterAt(node, s, h);
      TallyCounts(Authors(node, s.first + 1, h + 1));
    }
  }

  /** Block `h` does not pass when the counter of its author, alone of a chain's, is any other number. */
  lemma WrongCounterIsCaught(node: Node, wrong: Node, s: Session, h: int, k: nat)
    requires HonestCounters(node, s) && s.first < h < s.first + s.length
    requires wrong.author == node.author
    requires wrong.collatorBlocks(h, s.index) == node.collatorBlocks(h, s.index)[node.author(h) := k]
    requires k != CountOf(node.collatorBlocks(h, s.index), node.author(h))
    ensures !CounterAgrees(wrong, s, h)
  {
    HonestCountersAgree(node, s);
    CounterAgreesIff(node, s, h);
    CounterAgreesIff(wrong, s, h);
    SameAuthors(node, wrong, node.author(h), s.first + 1, h + 1);
  }

  lemma {:induction false} SameAuthors(node: Node, other: Node, a: Address, lo: int, hi: int)
    requires other.author == node.author
    ensures BlocksBy(other, a, lo, hi) == BlocksBy(node, a, lo, hi)
    decreases hi - lo
  {
    if lo < hi { SameAuthors(node, other, a, lo, hi - 1); }
  }

  lemma {:induction false} AuthorCount(node: Node, lo: int, hi: int)
    requires lo <= hi
    ensures |Authors(node, lo, hi)| == hi - lo
    decreases hi - lo
  {
    if lo < hi { AuthorCount(node, lo, hi - 1); }
  }

  lemma BlockInfoIsTally(node: Node, s: Session)
    requires HonestCounters(node, s) && s.length > 0
    ensures BlockInfo(node, s) == Tally(Authors(node, s.first + 1, Later(s) + 1))
  {
    hide Tally, Authors;
    HonestCounterAt(node, s, Later(s) - 1);
    TallyStep(node, s.first + 1, Later(s) + 1);
  }

  /**
   Conservation of blocks: the counts a session is paid by are those of the blocks after its
   first up to and including the next session's first; they sum to the session's length, and so
   no more collators contribute than the session has blocks.
   */
  lemma BlocksAreConserved(node: Node, s: Session)
    requires HonestCounters(node, s) && s.length > 0
    ensures BlockInfo(node, s) == Tally(Authors(node, s.first + 1, Later(s) + 1))
    ensures Total(AsReals(BlockInfo(node, s))) == s.length as real
    ensures |BlockInfo(node, s)| <= s.length
    ensures forall a :: a in BlockInfo(node, s) ==> BlockInfo(node, s)[a] >= 1
  {
    hide Tally, Authors, Total, BlockInfo, HonestCounters;
    BlockInfoIsTally(node, s);
    var authors := Authors(node, s.first + 1, Later(s) + 1);
    TallySum(authors);
    AuthorCount(node, s.first + 1, Later(s) + 1);
    TallySize(Tally(authors));
  }

  lemma TallySize(counts: BlockCounts)
    requires forall a :: a in counts ==> counts[a] >= 1
    ensures |counts| as real <= Total(AsReals(counts))
  {
    hide Total;
    SizeAtMostTotal(AsReals(counts));
    assert AsReals(counts).Keys == counts.Keys;
  }

  lemma AsRealsPut(counts: BlockCounts, a: Address, k: nat)
    ensures AsReals(counts[a := k]) == AsReals(counts)[a := k as real]
    ensures AsReals(counts).Keys == counts.Keys
    ensures a in counts ==> AsReals(counts)[a] == counts[a] as real
  {
  }

  lemma BumpPut(m: BlockCounts, author: Address, a: Address, k: nat)
    ensures var more := if a == author then k + 1 else k;
            && Bump(m[a := k], author) == Bump(m, author)[a := more]
            && (k != CountOf(m, a) ==> CountOf(Bump(m, author), a) != more)
  {
  }

  /** The counts do not add up when one author's counter, of all of a session's, is any other number. */
  lemma WrongCounterDoesNotAddUp(node: Node, wrong: Node, s: Session, a: Address, k: nat)
    requires HonestCounters(node, s) && s.length > 0
    requires wrong.author == node.author
    requires var before := node.collatorBlocks(s.first + s.length - 1, s.index);
             && wrong.collatorBlocks(s.first + s.length - 1, s.index) == before[a := k]
             && k != (if a in before then before[a] else 0)
    ensures Total(AsReals(BlockInfo(wrong, s))) != s.length as real
  {
    BlocksAreConserved(node, s);
    var counts, author := BlockInfo(node, s), node.author(s.first + s.length);
    var more := if a == author then k + 1 else k;
    BumpPut(node.collatorBlocks(s.first + s.length - 1, s.index), author, a, k);
    assert BlockInfo(wrong, s) == counts[a := more] && CountOf(counts, a) != more;
    hide HonestCounters, BlockInfo, Bump, Total, AsReals, Tally, Authors;
    AsRealsPut(counts, a, more);
    TotalPut(AsReals(counts), a, more as real);
  }

  // ----- counters of a whole chain

  /**
   Every block is credited to its author in the round in force before it; the counters of
   rounds already over are free to be dropped.
   */
  ghost predicate Credited(node: Node, h: int, index: nat)
  {
    h >= 1 && node.round(h - 1).current <= index ==>
      node.collatorBlocks(h, index)
      == if node.round(h - 1).current == index then Bump(node.collatorBlocks(h - 1, index), node.author(h))
         else node.collatorBlocks(h - 1, index)
  }

  ghost predicate ChainCounts(node: Node)
  {
    && (forall index :: node.collatorBlocks(0, index) == map[])
    && forall h, index :: 1 <= h <= node.head ==> Credited(node, h, index)
  }

  lemma {:induction false} NotYetCounted(node: Node, s: Session, h: nat)
    requires RoundsAdvance(node) && ChainCounts(node) && IsRound(node, s)
    requires 0 <= s.first <= node.head && h <= s.first
    ensures node.collatorBlocks(h, s.index) == map[]
  {
    if h > 0 {
      NotYetCounted(node, s, h - 1);
      RoundsGrow(node, h - 1, s.first);
      assert Credited(node, h, s.index);
    }
  }

  /** Counting along the whole chain gives every session honest counters. */
  lemma ChainCountsAreHonest(node: Node, s: Session)
    requires RoundsAdvance(node) && ChainCounts(node) && IsRound(node, s)
    requires 0 <= s.first && Later(s) <= node.head
    ensures HonestCounters(node, s)
  {
    NotYetCounted(node, s, s.first);
    forall h | s.first < h < Later(s)
      ensures CounterStep(node, s, h)
    {
      assert Credited(node, h, s.index);
    }
  }

  lemma {:induction false} WalkEndsInThePast(out: seq<Session>, start: int, i: nat)
    requires Adjacent(out, start) && i < |out|
    requires forall j :: 0 <= j < |out| ==> out[j].length > 0
    ensures Later(out[i]) <= start
  {
    if i > 0 { WalkEndsInThePast(out, start, i - 1); }
  }

  /** travese_blocks_and_check never fails on such a chain, however many rounds it goes back. */
  lemma TraversalPasses(node: Node, n: int, out: seq<Session>, i: nat)
    requires RoundsAdvance(node) && ChainCounts(node)
    requires Walked(node, n, out) && Adjacent(out, node.round(node.head).first)
    requires i < |out|
    ensures HonestCounters(node, out[i])
    ensures forall h :: out[i].first < h < Later(out[i]) ==> CounterAgrees(node, out[i], h)
    ensures Total(AsReals(BlockInfo(node, out[i]))) == out[i].length as real
  {
    hide ChainCounts, HonestCounters, Total, CounterAgrees, Tally, BlockInfo;
    RoundBegan(node, node.head);
    WalkEndsInThePast(out, node.round(node.head).first, i);
    ChainCountsAreHonest(node, out[i]);
    HonestCountersAgree(node, out[i]);
    BlocksAreConserved(node, out[i]);
  }
}
