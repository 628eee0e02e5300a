/**
 The binary search for the block at which a runtime version first appears
 (tools/get_runtime_version_block.py:15-34).
 */
module VersionSearch {

  /** The runtime version at each block number. */
  type History = int -> int

  // ----- the search as a function of what is still in play

  /** The block recorded when the search stops. */
  function Search(history: History, version: int, low: int, high: int, result: int): int
    decreases high - low
  {
    if low >= high then result
    else
      var mid := (low + high) / 2;
      if history(mid) == version then Search(history, version, low, mid - 1, mid)
      else if history(mid) < version then Search(history, version, mid + 1, high, result)
      else Search(history, version, low, mid - 1, result)
  }

  function Probes(history: History, version: int, low: int, high: int): nat
    decreases high - low
  {
    if low >= high then 0
    else
      var mid := (low + high) / 2;
      if history(mid) == version then 1 + Probes(history, version, low, mid - 1)
      else if history(mid) < version then 1 + Probes(history, version, mid + 1, high)
      else 1 + Probes(history, version, low, mid - 1)
  }

  /**
   The bounds a search for `first` stops with: crossed, or meeting at a block it never looks at.
   They depend on the block numbers alone.
   */
  function StopAt(first: int, low: int, high: int): (int, int)
    decreases high - low
  {
    if low >= high then (low, high)
    else
      var mid := (low + high) / 2;
      if mid < first then StopAt(first, mid + 1, high) else StopAt(first, low, mid - 1)
  }

  /** The upper bound a search stops with that only ever goes left. */
  function LeftEnd(high: int): int
  {
    if high <= 1 then high else LeftEnd((1 + high) / 2 - 1)
  }

  // ----- histories

  ghost predicate Upgrades(history: History, height: int)
  {
    forall i, j :: 1 <= i <= j <= height ==> history(i) <= history(j)
  }

  /** `first` is the first block of the history with the version. */
  ghost predicate FirstOf(history: History, version: int, height: int, first: int)
  {
    && 1 <= first <= height && history(first) == version
    && forall i :: 1 <= i < first ==> history(i) != version
  }

  /** What holds between two probes: where the first occurrence can be, and what has been recorded. */
  ghost predicate InPlay(history: History, version: int, height: int, first: int, low: int, high: int, result: int)
  {
    && 1 <= low <= first <= high + 1 && high <= height && low <= high + 1
    && (result == 0 || result == high + 1)
    && (result != 0 <==> high < height && history(high + 1) == version)
    && (high < height ==> history(high + 1) >= version)
    && (result == 0 ==> first <= high)
  }

  lemma ProbeKeepsInPlay(
      history: History, version: int, height: int, first: int, low: int, high: int, result: int)
    requires Upgrades(history, height) && FirstOf(history, version, height, first)
    requires InPlay(history, version, height, first, low, high, result) && low < high
    ensures var mid := (low + high) / 2;
            && (history(mid) < version <==> mid < first)
            && if history(mid) == version then InPlay(history, version, height, first, low, mid - 1, mid)
               else if history(mid) < version then InPlay(history, version, height, first, mid + 1, high, result)
               else result == 0 && InPlay(history, version, height, first, low, mid - 1, result)
  {
    var mid := (low + high) / 2;
    assert low <= mid < high;
    assert mid <= first ==> history(mid) <= history(first);
    assert first <= mid ==> history(first) <= history(mid);
    if result != 0 {
      assert history(mid) <= history(result);
    }
  }

  /** The search stops where the block numbers alone say, with what is in play there recorded. */
  lemma {:induction false} SearchEnds(
      history: History, version: int, height: int, first: int, low: int, high: int, result: int)
    requires Upgrades(history, height) && FirstOf(history, version, height, first)
    requires InPlay(history, version, height, first, low, high, result)
    ensures var (l, h) := StopAt(first, low, high);
            l >= h && InPlay(history, version, height, first, l, h, Search(history, version, low, high, result))
    decreases high - low
  {
    hide InPlay, Upgrades, FirstOf;
    if low < high {
      var mid := (low + high) / 2;
      ProbeKeepsInPlay(history, version, height, first, low, high, result);
      if history(mid) == version {
        SearchEnds(history, version, height, first, low, mid - 1, mid);
      } else if history(mid) < version {
        SearchEnds(history, version, height, first, mid + 1, high, result);
      } else {
        SearchEnds(history, version, height, first, low, mid - 1, result);
      }
    }
  }

  /** The answer, from the first block of the version, the height, and whether the next block has the version too. */
  function Answer(history: History, version: int, height: int, first: int): int
  {
    var (low, high) := StopAt(first, 1, height);
    if low > high || low < first then first + 1
    else if first < height && history(first + 1) == version then first + 2
    else 1
  }

  /**
   The answer, exactly.  Bounds that cross, or that meet below the first block, give first + 1;
   bounds that meet at the first block leave it unseen, and the answer is first + 2 if the next
   block has the version, and 1 if it does not.
   */
  lemma AnswerIsExactly(history: History, version: int, height: int, first: int)
    requires Upgrades(history, height) && FirstOf(history, version, height, first)
    ensures Search(history, version, 1, height, 0) + 1 == Answer(history, version, height, first)
    ensures var (low, high) := StopAt(first, 1, height); low <= high ==> low == high && first <= low + 1 && low <= first
  {
    assert InPlay(history, version, height, first, 1, height, 0);
    SearchEnds(history, version, height, first, 1, height, 0);
  }

  lemma {:induction false} LeftEndIsStop(high: int)
    ensures StopAt(1, 1, high) == (1, LeftEnd(high))
    decreases high
  {
    if high > 1 { LeftEndIsStop((1 + high) / 2 - 1); }
  }

  ghost predicate InBand(k: nat, height: int)
  {
    2 * Pow2(k) - 1 <= height <= 3 * Pow2(k) - 2
  }

  /** Going left ends at block 1 exactly for the heights from 2 * 2^k - 1 to 3 * 2^k - 2. */
  lemma {:induction false} LeftEndIff(height: int)
    requires height >= 1
    ensures LeftEnd(height) == 1 <==> exists k: nat :: InBand(k, height)
    decreases height
  {
    if height == 1 {
      assert InBand(0, height);
    } else if height == 2 {
      forall k: nat
        ensures !InBand(k, height)
      {
      }
    } else {
      var next := (1 + height) / 2 - 1;
      LeftEndIff(next);
      forall k: nat
        ensures InBand(k, next) <==> InBand(k + 1, height)
      {
      }
      if k: nat :| InBand(k, next) {
        assert InBand(k + 1, height);
      }
      if k: nat :| InBand(k, height) {
        assert k > 0;
        assert InBand(k - 1, next) <==> InBand(k - 1 + 1, height);
      }
    }
  }

  lemma LeftEndIsOneIff(height: int)
    requires height >= 1
    ensures LeftEnd(height) == 1 <==> exists k: nat :: 2 * Pow2(k) - 1 <= height <= 3 * Pow2(k) - 2
  {
    hide LeftEnd;
    LeftEndIff(height);
    if LeftEnd(height) == 1 {
      var k: nat :| InBand(k, height);
      assert 2 * Pow2(k) - 1 <= height <= 3 * Pow2(k) - 2;
    } else {
      forall k: nat
        ensures !(2 * Pow2(k) - 1 <= height <= 3 * Pow2(k) - 2)
      {
        assert !InBand(k, height);
      }
    }
  }

  /**
   It names the first block itself only for a version that starts at block 1, is gone at block 2,
   and runs on a chain whose height halves down to 1, which the heights from 2 * 2^k - 1 to
   3 * 2^k - 2 do.
   */
  lemma AnswerIsRightIff(history: History, version: int, height: int, first: int)
    requires Upgrades(history, height) && FirstOf(history, version, height, first)
    ensures Search(history, version, 1, height, 0) + 1 == first <==>
            && first == 1 && (height == 1 || history(2) > version)
            && exists k: nat :: 2 * Pow2(k) - 1 <= height <= 3 * Pow2(k) - 2
  {
    AnswerIsExactly(history, version, height, first);
    LeftEndIsStop(height);
    hide LeftEnd, Pow2, StopAt, Search;
    LeftEndIsOneIff(height);
    if height >= 2 && first == 1 {
      assert history(1) <= history(2);
    }
  }

  /** For a version that never ran the answer is 1 as well. */
  lemma {:induction false} AbsentGivesOne(history: History, version: int, low: int, high: int)
    requires forall i :: low <= i <= high ==> history(i) != version
    ensures Search(history, version, low, high, 0) + 1 == 1
    decreases high - low
  {
    if low < high {
      var mid := (low + high) / 2;
      if history(mid) < version {
        AbsentGivesOne(history, version, mid + 1, high);
      } else {
        AbsentGivesOne(history, version, low, mid - 1);
      }
    }
  }

  function Pow2(k: nat): (p: nat)
    ensures p >= 1 && (k > 0 ==> p >= 2)
  {
    if k == 0 then 1 else 2 * Pow2(k - 1)
  }

  /** Logarithmically many probes: a history of fewer than 2^k blocks takes fewer than k. */
  lemma {:induction false} FewProbes(history: History, version: int, low: int, high: int, k: nat)
    requires high - low + 1 < Pow2(k)
    ensures Probes(history, version, low, high) <= if k == 0 then 0 else k - 1
    decreases high - low
  {
    if low < high {
      var mid := (low + high) / 2;
      assert k >= 2 && Pow2(k) == 2 * Pow2(k - 1);
      FewProbes(history, version, low, mid - 1, k - 1);
      FewProbes(history, version, mid + 1, high, k - 1);
    }
  }

  // ----- the loop

  /** find_first_occurrence */
  method FindFirstOccurrence(history: History, version: int, height: int) returns (block: int, ghost probes: nat)
    ensures probes == Probes(history, version, 1, height)
    ensures block == Search(history, version, 1, height, 0) + 1
    ensures Upgrades(history, height) ==>
              forall first ::
                FirstOf(history, version, height, first) ==> block == Answer(history, version, height, first)
    ensures (forall i :: 1 <= i <= height ==> history(i) != version) ==> block == 1
  {
    var low, high, result := 1, height, 0;
    probes := 0;
    while low < high
      invariant probes + Probes(history, version, low, high) == Probes(history, version, 1, height)
      invariant Search(history, version, low, high, result) == Search(history, version, 1, height, 0)
      decreases high - low
    {
      var mid := (low + high) / 2;
      var value := history(mid);
      probes := probes + 1;
      if value == version {
        result := mid;
        high := mid - 1;
      } else if value < version {
        low := mid + 1;
      } else {
        high := mid - 1;
      }
    }
    block := result + 1;
    if Upgrades(history, height) {
      forall first | FirstOf(history, version, height, first)
        ensures block == Answer(history, version, height, first)
      {
        AnswerIsExactly(history, version, height, first);
      }
    }
    if forall i :: 1 <= i <= height ==> history(i) != version {
      AbsentGivesOne(history, version, 1, height);
    }
  }
}
