/**
 A chain that extends, reorganises and finalises, seen by a client over time.  The client's
 view is a run: the node's best chain at every instant.  Between any two requests any number
 of steps of the run may pass.
 */
module ReorgChain {
  import opened Common

  type Hash = string

  /** The extrinsic hashes of each block of the best chain, by height, and the finalised height. */
  datatype Chain = Chain(blocks: seq<seq<Hash>>, finalized: nat)

  type Run = nat -> Chain

  datatype Position = Position(height: nat, index: nat)

  /** The height of the best block. */
  function Head(c: Chain): int
  {
    |c.blocks| - 1
  }

  ghost predicate WellFormed(c: Chain)
  {
    c.finalized < |c.blocks|
  }

  /** A new best chain keeps everything finalised, is no shorter, and never takes finality back. */
  ghost predicate Step(c: Chain, d: Chain)
  {
    && |c.blocks| <= |d.blocks|
    && c.finalized <= d.finalized < |d.blocks|
    && c.finalized < |c.blocks|
    && d.blocks[..c.finalized + 1] == c.blocks[..c.finalized + 1]
  }

  // ----- the steps a node takes

  function Extend(c: Chain, block: seq<Hash>): Chain
  {
    c.(blocks := c.blocks + [block])
  }

  /** The blocks from `at` on are replaced by another branch. */
  function Reorg(c: Chain, at: nat, branch: seq<seq<Hash>>): Chain
    requires at <= |c.blocks|
  {
    c.(blocks := c.blocks[..at] + branch)
  }

  function Finalize(c: Chain, height: nat): Chain
  {
    c.(finalized := height)
  }

  /** Extending, replacing what is not final by a branch no shorter, and finalising are all such steps. */
  lemma NodeStepsAreSteps(c: Chain, block: seq<Hash>, at: nat, branch: seq<seq<Hash>>, height: nat)
    requires WellFormed(c)
    ensures Step(c, Extend(c, block))
    ensures c.finalized < at <= |c.blocks| <= at + |branch| ==> Step(c, Reorg(c, at, branch))
    ensures c.finalized <= height < |c.blocks| ==> Step(c, Finalize(c, height))
  {
    if c.finalized < at <= |c.blocks| <= at + |branch| {
      var d := Reorg(c, at, branch);
      assert d.blocks[..c.finalized + 1] == c.blocks[..c.finalized + 1];
    }
  }

  ghost predicate StepAt(run: Run, t: nat)
  {
    Step(run(t), run(t + 1))
  }

  ghost predicate ValidRun(run: Run)
  {
    forall t :: StepAt(run, t)
  }

  /** Along a run the chain never gets shorter, finality never retreats, and what is final stays. */
  lemma {:induction false} RunKeeps(run: Run, t: nat, u: nat)
    requires ValidRun(run) && t <= u
    ensures WellFormed(run(t)) && WellFormed(run(u))
    ensures |run(t).blocks| <= |run(u).blocks| && run(t).finalized <= run(u).finalized
    ensures forall h :: 0 <= h <= run(t).finalized ==> run(u).blocks[h] == run(t).blocks[h]
    decreases u - t
  {
    assert StepAt(run, t);
    if t < u {
      RunKeeps(run, t + 1, u);
      var c, d := run(t), run(t + 1);
      assert forall h :: 0 <= h <= c.finalized ==>
               d.blocks[h] == d.blocks[..c.finalized + 1][h] && c.blocks[h] == c.blocks[..c.finalized + 1][h];
    }
  }

  /** The extrinsic at a position of the best chain at an instant. */
  ghost predicate Holds(c: Chain, p: Position, hash: Hash)
  {
    p.height < |c.blocks| && p.index < |c.blocks[p.height]| && c.blocks[p.height][p.index] == hash
  }

  ghost predicate Exists(c: Chain, p: Position)
  {
    p.height < |c.blocks| && p.index < |c.blocks[p.height]|
  }

  /** What the best chain has at a position. */
  function Slot(c: Chain, p: Position): Option<Hash>
  {
    if p.height < |c.blocks| && p.index < |c.blocks[p.height]| then Some(c.blocks[p.height][p.index]) else None
  }

  lemma HoldsIsSlot(c: Chain, p: Position, hash: Hash)
    ensures Holds(c, p, hash) <==> Slot(c, p) == Some(hash)
  {
  }

  // ----- what stays

  /** Another run that is the same up to the instant `t`. */
  ghost predicate Continues(run: Run, other: Run, t: nat)
  {
    ValidRun(other) && forall v: nat :: v <= t ==> other(v) == run(v)
  }

  /** Whatever the chain does after `t`, the position keeps what it has then. */
  ghost predicate Stays(run: Run, t: nat, p: Position)
  {
    forall other: Run, u: nat {:trigger Continues(run, other, t), other(u)} ::
      Continues(run, other, t) && t <= u ==> Slot(other(u), p) == Slot(run(t), p)
  }

  /** The block at the height is replaced by an empty one. */
  function Emptied(c: Chain, height: nat): Chain
    requires height < |c.blocks|
  {
    Reorg(c, height, [[]] + c.blocks[height + 1..])
  }

  /** What is not final can be gone at the next instant. */
  lemma CanBeReplaced(run: Run, t: nat, p: Position) returns (other: Run)
    requires ValidRun(run) && Exists(run(t), p) && run(t).finalized < p.height
    ensures Continues(run, other, t) && Slot(other(t + 1), p) == None
  {
    var c, d := run(t), Emptied(run(t), p.height);
    other := (v: nat) => if v <= t then run(v) else d;
    RunKeeps(run, t, t);
    NodeStepsAreSteps(c, [], p.height, [[]] + c.blocks[p.height + 1..], 0);
    NodeStepsAreSteps(d, [], 0, [], d.finalized);
    forall v: nat
      ensures StepAt(other, v)
    {
      assert StepAt(run, v);
    }
    assert other(t + 1) == d;
    assert d.blocks[p.height] == [];
  }

  /** A position that has an extrinsic keeps it, whatever the chain does, exactly when its height is final. */
  lemma StaysIff(run: Run, t: nat, p: Position)
    requires ValidRun(run) && Exists(run(t), p)
    ensures Stays(run, t, p) <==> p.height <= run(t).finalized
  {
    if p.height <= run(t).finalized {
      forall other: Run, u: nat | Continues(run, other, t) && t <= u
        ensures Slot(other(u), p) == Slot(run(t), p)
      {
        RunKeeps(other, t, u);
      }
    } else {
      var other := CanBeReplaced(run, t, p);
      assert Slot(other(t + 1), p) != Slot(run(t), p);
    }
  }

  /** The block at the height is the same at every instant from `t` to `u`. */
  ghost predicate NotReplaced(run: Run, height: int, t: nat, u: nat)
  {
    forall v :: t <= v <= u ==>
      0 <= height < |run(t).blocks| && height < |run(v).blocks| && run(v).blocks[height] == run(t).blocks[height]
  }

  /** The index of the first extrinsic of a block with the hash. */
  ghost predicate FirstIn(block: seq<Hash>, index: nat, hash: Hash)
  {
    index < |block| && block[index] == hash && hash !in block[..index]
  }

  method FindInBlock(block: seq<Hash>, hash: Hash) returns (index: Option<nat>)
    ensures index.Some? ==> FirstIn(block, index.value, hash)
    ensures index.None? ==> hash !in block
  {
    for i := 0 to |block|
      invariant hash !in block[..i]
    {
      if block[i] == hash {
        return Some(i);
      }
    }
    return None;
  }
}
