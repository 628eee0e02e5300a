/**
 The walk back over staking rounds (tools/stress/stress_token_economy_v2.py:22-52).
 */
module Sessions {
  import opened Common
  import opened ChainView

  datatype WalkError = FirstRound

  // ----- how the round in storage moves

  /** Block `h` either stays in the round of its parent or opens the next one, early or not. */
  ghost predicate RoundStep(node: Node, h: int)
  {
    h >= 1 && var before := node.round(h - 1);
    node.round(h) == before || node.round(h) == Round(before.current + 1, h)
  }

  ghost predicate RoundsAdvance(node: Node)
  {
    node.round(0) == Round(0, 0) && forall h :: 1 <= h <= node.head ==> RoundStep(node, h)
  }

  /** The round stored at `h` began at its first block and has been in force ever since. */
  lemma {:induction false} RoundBegan(node: Node, h: nat)
    requires RoundsAdvance(node) && h <= node.head
    ensures var r := node.round(h);
            && r.first <= h
            && (r.first == 0 <==> r.current == 0)
            && (r.first > 0 ==> node.round(r.first - 1).current + 1 == r.current)
            && forall k :: r.first <= k <= h ==> node.round(k) == r
  {
    if h > 0 {
      assert RoundStep(node, h);
      RoundBegan(node, h - 1);
    }
  }

  lemma {:induction false} RoundsGrow(node: Node, g: nat, h: nat)
    requires RoundsAdvance(node) && g <= h <= node.head
    ensures node.round(g).current <= node.round(h).current
    decreases h
  {
    if g < h {
      assert RoundStep(node, h);
      RoundsGrow(node, g, h - 1);
    }
  }

  // ----- what the walk returns

  function Later(s: Session): int
  {
    s.first + s.length
  }

  /** Each interval ends where the next newer one begins; the newest ends where the current round begins. */
  ghost predicate Adjacent(out: seq<Session>, start: int)
  {
    && (out != [] ==> Later(out[0]) == start)
    && forall i :: 1 <= i < |out| ==> Later(out[i]) == out[i - 1].first
  }

  /** A session is exactly the blocks stored under its round. */
  ghost predicate IsRound(node: Node, s: Session)
  {
    && s.length > 0
    && forall h :: 0 <= h <= node.head ==> (s.first <= h < Later(s) <==> node.round(h).current == s.index)
  }

  /** The rounds before the current one, newest first, stopping at `n` or before the genesis round. */
  ghost predicate Walked(node: Node, n: int, out: seq<Session>)
  {
    var current := node.round(node.head).current;
    && |out| == (if n < 0 then 0 else if n < current - 1 then n else current - 1)
    && forall i :: 0 <= i < |out| ==> out[i].index == current - 1 - i && out[i].first > 0 && IsRound(node, out[i])
  }

  method PreviousSessions(node: Node, n: int) returns (r: Outcome<seq<Session>, WalkError>)
    ensures r.Err? <==> node.round(node.head).first == 0
    ensures r.Ok? ==> Adjacent(r.value, node.round(node.head).first)
    ensures r.Ok? && RoundsAdvance(node) ==> Walked(node, n, r.value)
    ensures r.Ok? && RoundsAdvance(node) ==>
              var earlier := node.round(node.head).current - 1;
              && |r.value| == (if n < 0 then 0 else if n < earlier then n else earlier)
              && forall i, h :: 0 <= i < |r.value| && 0 <= h <= node.head ==>
                   var s := r.value[i];
                   (s.first <= h < s.first + s.length <==> node.round(h).current == earlier - i)
  {
    hide RoundsAdvance;
    r := WalkBack(node, n);
    if r.Ok? && RoundsAdvance(node) {
      forall i, h | 0 <= i < |r.value| && 0 <= h <= node.head
        ensures var s := r.value[i];
                s.first <= h < s.first + s.length <==> node.round(h).current == node.round(node.head).current - 1 - i
      {
        assert IsRound(node, r.value[i]);
      }
    }
  }

  /** The loop of the walk. */
  method WalkBack(node: Node, n: int) returns (r: Outcome<seq<Session>, WalkError>)
    ensures r.Err? <==> node.round(node.head).first == 0
    ensures r.Ok? ==> Adjacent(r.value, node.round(node.head).first)
    ensures r.Ok? && RoundsAdvance(node) ==> Walked(node, n, r.value)
  {
    hide IsRound, RoundsAdvance;
    var round := node.round(node.head);
    if round.first == 0 {
      return Err(FirstRound);
    }
    ghost var current, start := round.current, round.first;
    if RoundsAdvance(node) { RoundBegan(node, node.head); }
    var out: seq<Session> := [];
    var newHeight := round.first;
    var i := 0;
    while i < n
      invariant 0 <= i && (if n < 0 then i == 0 else i <= n)
      invariant |out| == i && newHeight > 0
      invariant Adjacent(out, start)
      invariant newHeight == if out == [] then start else out[|out| - 1].first
      invariant RoundsAdvance(node) ==>
                  && newHeight <= node.head && i < current
                  && node.round(newHeight).first == newHeight
                  && node.round(newHeight).current == current - i
                  && forall j :: 0 <= j < i ==>
                       out[j].index == current - 1 - j && out[j].first > 0 && IsRound(node, out[j])
    {
      round := node.round(newHeight - 1);
      if RoundsAdvance(node) {
        RoundBegan(node, newHeight);
        RoundBegan(node, newHeight - 1);
      }
      if round.first == 0 {
        break;
      }
      var s := Session(round.first, newHeight - round.first, round.current);
      if RoundsAdvance(node) {
        SessionIsRound(node, newHeight, s);
      }
      out := out + [s];
      newHeight := round.first;
      i := i + 1;
    }
    r := Ok(out);
  }

  /** The blocks between the start of a round and the start of the next are the blocks of that round. */
  lemma SessionIsRound(node: Node, height: nat, s: Session)
    requires RoundsAdvance(node) && 1 <= height <= node.head && node.round(height).first == height
    requires var r := node.round(height - 1); s == Session(r.first, height - r.first, r.current)
    ensures IsRound(node, s)
    ensures node.round(height).current == s.index + 1
  {
    RoundBegan(node, height);
    RoundBegan(node, height - 1);
    forall h | 0 <= h <= node.head
      ensures s.first <= h < Later(s) <==> node.round(h).current == s.index
    {
      if h < s.first {
        RoundBegan(node, s.first);
        RoundsGrow(node, h, s.first - 1);
      } else if h >= height {
        RoundsGrow(node, height, h);
      }
    }
  }

  // ----- tiling

  /** Adjacent non-empty intervals cover everything from the oldest start to the newest end, each block once. */
  lemma {:induction false} SessionsTile(out: seq<Session>, start: int, h: int)
    requires Adjacent(out, start) && out != []
    requires forall i :: 0 <= i < |out| ==> out[i].length > 0
    ensures out[|out| - 1].first <= h < start <==> exists i :: 0 <= i < |out| && out[i].first <= h < Later(out[i])
    ensures forall i, j :: 0 <= i < j < |out| ==> Later(out[j]) <= out[i].first
  {
    var n := |out| - 1;
    if n > 0 {
      var newer := out[..n];
      assert Adjacent(newer, start);
      SessionsTile(newer, start, h);
      assert forall i :: 0 <= i < n ==> newer[i] == out[i];
      if out[n].first <= h < start {
        if h < Later(out[n]) {
          assert out[n].first <= h < Later(out[n]);
        } else {
          var i :| 0 <= i < n && newer[i].first <= h < Later(newer[i]);
          assert out[i].first <= h < Later(out[i]);
        }
      }
    } else if out[0].first <= h < start {
      assert out[0].first <= h < Later(out[0]);
    }
  }
}
