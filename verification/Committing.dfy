/** Committing: a certified block locks itself and commits its parent, one block after the other. The engine
    keeps the block tree, the heads, the blocks handed over for writing, and the log in step. */
module Committing {
  import opened BlockTree
  import opened ChainLog
  import opened Common

  predicate ChildOf(p: Block, b: Block) {
    p.number + 1 == b.number && b.parent == p.hash
  }

  /** Each of `blocks` is the child of the one before, the first of `start`, and the last is `end`. */
  ghost predicate Chained(start: Block, blocks: seq<Block>, end: Block) {
    if blocks == [] then start == end
    else
      && blocks[|blocks| - 1] == end
      && ChildOf(if |blocks| == 1 then start else blocks[|blocks| - 2], end)
      && Chained(start, blocks[..|blocks| - 1], if |blocks| == 1 then start else blocks[|blocks| - 2])
  }

  /** Where a certified block comes from: a certificate sent by a peer, the node's own count of votes, or
      synchronisation. The first asks for the parent in the tree, the last for a block of the parent's hash at
      any height, and the second does not ask. */
  datatype Source = FromPeer | FromVotes | FromSync

  /** A certificate, its block, and what the node knows when it arrives. */
  datatype Input = Input(source: Source, block: Block, qc: QuorumCert, executed: bool, hasBlock: bool, writes: bool)

  /** The certificate is one for the block, and the number is not the last 64-bit one. */
  ghost predicate Sane(i: Input) {
    ValidState(State(i.block, i.qc)) && i.block.number < 0xFFFF_FFFF_FFFF_FFFF
  }

  // ----- What the engine does, on its heads

  /** The highest commit and lock, the blocks committed, and the hashes in the tree. */
  datatype Heads = Heads(commit: Block, lock: Block, results: seq<Block>, live: set<Hash>)

  predicate Accepts(a: Heads, i: Input) {
    && i.block.number > a.lock.number && !i.hasBlock
    && (i.source == FromPeer ==> i.executed && ChildOf(a.lock, i.block))
    && (i.source == FromSync ==> i.block.parent in a.live)
  }

  /** A block above the lock becomes the lock. If it is the child of the former lock, and that is next to the
      highest commit by its number, the former lock is committed. */
  function Advance(a: Heads, b: Block): Heads {
    if ChildOf(a.lock, b) && a.lock.number == a.commit.number + 1 then
      Heads(a.lock, b, a.results + [a.lock], {a.lock.hash, b.hash})
    else a.(lock := b, live := a.live + {b.hash})
  }

  /** The blocks taken in from a sequence of inputs. */
  function Taken(a: Heads, inputs: seq<Input>): seq<Block> {
    if inputs == [] then []
    else
      var before := Taken(a, inputs[..|inputs| - 1]);
      var i := inputs[|inputs| - 1];
      if Accepts(AdvanceAll(a, before), i) then before + [i.block] else before
  }

  function AdvanceAll(a: Heads, blocks: seq<Block>): Heads {
    if blocks == [] then a else Advance(AdvanceAll(a, blocks[..|blocks| - 1]), blocks[|blocks| - 1])
  }

  /** Each block is above the one before, and the first above the lock. */
  ghost predicate Rising(lock: Block, blocks: seq<Block>) {
    var n := |blocks|;
    n == 0 || (Rising(lock, blocks[..n - 1]) && blocks[n - 1].number > (if n == 1 then lock else blocks[n - 2]).number)
  }

  /** The lock is the commit or its child. */
  ghost predicate Aligned(a: Heads) {
    a.lock == a.commit || ChildOf(a.commit, a.lock)
  }

  /** Nothing is locked above the commit; then a block one higher that is not its child is taken in, and a
      child of that block next. */
  ghost predicate Slips(a: Heads, blocks: seq<Block>) {
    && a.lock == a.commit && |blocks| >= 2
    && blocks[0].number == a.commit.number + 1 && blocks[0].parent != a.commit.hash && ChildOf(blocks[0], blocks[1])
  }

  /** Where a run is that has not slipped: aligned, with a lock that is no child of the commit, or with a lock
      too high for anything to be committed again. */
  ghost predicate OnCourse(a: Heads, blocks: seq<Block>) {
    var x := AdvanceAll(a, blocks);
    || (Aligned(x) && (x.lock == x.commit ==> blocks == []))
    || (|blocks| == 1 && a.lock == a.commit && x == a.(lock := blocks[0], live := x.live))
    || x.lock.number >= x.commit.number + 2
  }

  lemma {:induction false} LastIsLock(a: Heads, blocks: seq<Block>)
    ensures AdvanceAll(a, blocks).lock == if blocks == [] then a.lock else blocks[|blocks| - 1]
  {
  }

  lemma SlippedCommit(a: Heads, blocks: seq<Block>)
    requires Slips(a, blocks) && !Slips(a, blocks[..|blocks| - 1])
    ensures var y := AdvanceAll(a, blocks[..|blocks| - 1]);
            Advance(y, blocks[|blocks| - 1]).results == y.results + [y.lock] && !ChildOf(y.commit, y.lock)
  {
    assert |blocks| == 2;
    var x := blocks[0];
    assert blocks[..1] == [x] && [x][..0] == [];
    assert AdvanceAll(a, []) == a;
    assert AdvanceAll(a, [x]) == Advance(a, x);
  }

  /** One more block of a run that has not slipped. */
  lemma OnCourseMore(a: Heads, blocks: seq<Block>)
    requires blocks != [] && Rising(a.lock, blocks) && Aligned(a)
    requires OnCourse(a, blocks[..|blocks| - 1]) && !Slips(a, blocks)
    ensures OnCourse(a, blocks)
    ensures var y := AdvanceAll(a, blocks[..|blocks| - 1]);
            Advance(y, blocks[|blocks| - 1]).results != y.results ==> ChildOf(y.commit, y.lock)
  {
    LastIsLock(a, blocks[..|blocks| - 1]);
  }

  lemma {:induction false} CommitIsLast(start: Block, a: Heads, blocks: seq<Block>)
    requires a.commit == if a.results == [] then start else a.results[|a.results| - 1]
    ensures var x := AdvanceAll(a, blocks);
            x.commit == (if x.results == [] then start else x.results[|x.results| - 1]) && a.results <= x.results
    decreases |blocks|
  {
    if blocks != [] {
      CommitIsLast(start, a, blocks[..|blocks| - 1]);
    }
  }

  /** The committed blocks are a chain, child after child, if and only if the run does not slip. */
  lemma {:induction false} ChainedIff(start: Block, a: Heads, blocks: seq<Block>)
    requires Aligned(a) && Chained(start, a.results, a.commit) && Rising(a.lock, blocks)
    ensures var x := AdvanceAll(a, blocks);
            a.results <= x.results && (Chained(start, x.results, x.commit) <==> !Slips(a, blocks))
    ensures !Slips(a, blocks) ==> OnCourse(a, blocks)
    decreases |blocks|
  {
    CommitIsLast(start, a, blocks);
    if blocks != [] {
      hide OnCourse, Chained, Rising, Aligned, ChildOf, Slips;
      var before, b := blocks[..|blocks| - 1], blocks[|blocks| - 1];
      RisingBefore(a, blocks);
      ChainedIff(start, a, before);
      CommitIsLast(start, a, before);
      var y := AdvanceAll(a, before);
      ChainedMore(start, y.results, y.commit, y.lock);
      if !Slips(a, blocks) {
        OnCourseMore(a, blocks);
      } else if !Slips(a, before) {
        SlippedCommit(a, blocks);
      }
    }
  }

  lemma RisingBefore(a: Heads, blocks: seq<Block>)
    requires Rising(a.lock, blocks) && blocks != []
    ensures Rising(a.lock, blocks[..|blocks| - 1])
    ensures Slips(a, blocks[..|blocks| - 1]) ==> Slips(a, blocks)
  {
  }

  lemma ChainedMore(start: Block, blocks: seq<Block>, end: Block, b: Block)
    requires end == if blocks == [] then start else blocks[|blocks| - 1]
    ensures Chained(start, blocks + [b], b) <==> Chained(start, blocks, end) && ChildOf(end, b)
  {
    assert (blocks + [b])[..|blocks|] == blocks;
  }

  /** Blocks are taken in only above the lock. */
  lemma {:induction false} TakenRises(a: Heads, inputs: seq<Input>)
    ensures Rising(a.lock, Taken(a, inputs))
    decreases |inputs|
  {
    if inputs != [] {
      var before := Taken(a, inputs[..|inputs| - 1]);
      TakenRises(a, inputs[..|inputs| - 1]);
      LastIsLock(a, before);
      assert forall b :: (before + [b])[..|before|] == before;
    }
  }

  lemma TakenMore(a: Heads, inputs: seq<Input>, i: Input)
    ensures var before := Taken(a, inputs);
            Taken(a, inputs + [i]) == if Accepts(AdvanceAll(a, before), i) then before + [i.block] else before
  {
    assert (inputs + [i])[..|inputs|] == inputs;
  }

  lemma AdvanceMore(a: Heads, blocks: seq<Block>, b: Block)
    ensures AdvanceAll(a, blocks + [b]) == Advance(AdvanceAll(a, blocks), b)
  {
    assert (blocks + [b])[..|blocks|] == blocks;
  }

  /** Runs do slip: after a start, the node's own votes certify a block one higher that is not its child, and
      then a child of that block. The first of them is committed. */
  lemma SlipCommits(start: Block, i: Input, j: Input)
    requires i.source == j.source == FromVotes && !i.hasBlock && !j.hasBlock
    requires i.block.number == start.number + 1 && i.block.parent != start.hash && ChildOf(i.block, j.block)
    ensures var a := Heads(start, start, [], {start.hash});
            && Taken(a, [] + [i] + [j]) == [i.block, j.block]
            && AdvanceAll(a, [i.block, j.block]).results == [i.block]
            && !Chained(start, [i.block], i.block)
  {
    var a := Heads(start, start, [], {start.hash});
    var x, y := i.block, j.block;
    hide Taken, AdvanceAll, Chained;
    assert Taken(a, []) == [] && AdvanceAll(a, []) == a by {
      Nothing(a);
    }
    TakenMore(a, [], i);
    AdvanceMore(a, [], x);
    assert [] + [x] == [x] && [x] + [y] == [x, y];
    TakenMore(a, [] + [i], j);
    AdvanceMore(a, [x], y);
    ChainedMore(start, [], start, x);
  }

  lemma Nothing(a: Heads)
    ensures Taken(a, []) == [] && AdvanceAll(a, []) == a
  {
  }

  // ----- The engine

  /** The certificate of a node is one for its block; the genesis needs none. */
  ghost predicate Certified(ext: Ext) {
    (ext.block.number > 0 ==> ext.qc.Some?) && (ext.qc.Some? ==> ValidState(State(ext.block, ext.qc.value)))
  }

  /** What the engine keeps: the root of the tree is the highest commit and nothing is lower, the highest lock is
      alone highest. With the lock on the commit or its child, the tree is one. */
  ghost predicate Held(exts: Exts, live: set<Hash>, root: Hash, commit: Block, lock: Block) {
    && live <= exts.Keys && root in live && exts[root].block == commit
    && lock.hash in live && exts[lock.hash].block == lock
    && (forall h | h in live :: exts[h].block.hash == h && Certified(exts[h]))
    && (forall h | h in live :: commit.number <= exts[h].block.number <= lock.number)
    && (forall h | h in live && exts[h].block.number == lock.number :: h == lock.hash)
    && (lock.number <= commit.number + 1 ==> live == {root, lock.hash})
    && (lock == commit || ChildOf(commit, lock) ==> Shape(exts, live, root))
    && (lock.number == commit.number + 1 ==> exts[lock.hash].children == {})
  }

  /** The log, if there is one, is sound and ends at the highest commit. */
  ghost predicate Logged(log: Option<ChainState>, commit: Block) {
    LogInv(log) && (log.Some? ==> log.value.commit.block == commit)
  }

  datatype Outcome = Refused | Inserted | Stopped

  class Engine {
    const tree: Tree
    const wal: Wal
    ghost const start: Block
    var highestLock: Block
    var highestCommit: Block
    var results: seq<Block>

    ghost predicate Valid()
      reads this, tree, wal
    {
      Held(tree.exts, tree.live, tree.root, highestCommit, highestLock) && Logged(wal.log, highestCommit)
    }

    ghost function Now(): Heads
      reads this, tree
    {
      Heads(highestCommit, highestLock, results, tree.live)
    }

    constructor (block: Block, qc: Option<QuorumCert>)
      requires (block.number > 0 ==> qc.Some?) && (qc.Some? ==> ValidState(State(block, qc.value)))
      ensures Valid() && fresh(tree) && fresh(wal) && wal.log == None
      ensures tree.exts.Keys == {block.hash} && tree.exts[block.hash].block == block
      ensures start == block && Now() == Heads(block, block, [], {block.hash})
    {
      tree := new Tree(block, qc);
      wal := new Wal();
      start, highestLock, highestCommit, results := block, block, block, [];
    }

    /** The lock moves to a block with a higher certificate. */
    method TrySetHighestLockBlock(lock: Hash)
      requires tree.live <= tree.exts.Keys && lock in tree.live && tree.exts[lock].qc.Some?
      modifies `highestLock
      ensures var h, q := old(highestLock), tree.exts[lock].qc.value;
              highestLock == if && h.hash in tree.live && tree.exts[h.hash].block.number == h.number
                                && tree.exts[h.hash].qc.Some?
                                && var c := tree.exts[h.hash].qc.value;
                                   q.number < c.number ||
                                   (q.number == c.number &&
                                    (q.epoch < c.epoch || (q.epoch == c.epoch && q.view <= c.view)))
                             then h else tree.exts[lock].block
      ensures Certified(tree.exts[lock]) && tree.exts[lock].block.number > old(highestLock).number &&
              (old(highestLock).hash in tree.exts ==> Certified(tree.exts[old(highestLock).hash])) ==>
                highestLock == tree.exts[lock].block
    {
      var h := highestLock;
      var hqc := if tree.Has(h.hash, h.number) then tree.exts[h.hash].qc else None;
      if hqc == None || HigherQuorumCert(tree.exts[lock].qc.value, hqc.value) {
        highestLock := tree.exts[lock].block;
      }
    }

    /** The tree has just grown by the highest lock, on top of `former`. */
    ghost predicate Ready(former: Hash, lock: Hash)
      reads this, tree, wal
    {
      && highestLock.hash == lock && former in tree.exts
      && Grown(tree.exts, tree.live, tree.root, highestCommit, tree.exts[former].block, highestLock)
      && Logged(wal.log, highestCommit)
    }

    /** Commits the parent of the lock if it is next by its number, and writes the log. Fails only if the log
        cannot be written. */
    method TryCommitNewBlock(lock: Hash, commit: Hash, qc: Hash, writes: bool) returns (ok: bool)
      requires tree.live <= tree.exts.Keys && lock in tree.live && qc in tree.live && tree.Prunable(commit)
      modifies `highestCommit, `results, tree, wal
      ensures old(Ready(commit, lock)) && lock == qc ==>
                && (ok ==> Valid()) && (!ok ==> !writes)
                && Now() == var former := old(tree.exts[commit].block);
                            if former.number == old(highestCommit).number + 1
                            then Heads(former, highestLock, old(results) + [former], {commit, lock})
                            else old(Now())
      ensures tree.exts.Keys == old(tree.exts.Keys)
      ensures forall h | h in tree.exts :: tree.exts[h].block == old(tree.exts)[h].block
    {
      hide Held, LogInv, Family, Inv, Shape, Level, Above, Grown;
      ghost var ready := Ready(commit, lock) && lock == qc;
      var exts := tree.exts;
      var commitBlock := exts[commit].block;
      if ready {
        GrownFacts(exts, tree.live, tree.root, highestCommit, commitBlock, highestLock);
      }
      if Succ(commitBlock.number) != exts[qc].block.number {
        return true;
      }
      var update := Update(StateOf(exts[qc]), StateOf(exts[lock]), StateOf(exts[commit]), writes);
      if ready {
        GrownSound(exts, tree.live, tree.root, highestCommit, commitBlock, highestLock, writes);
        LoggedCommit(wal.log, highestCommit);
      }
      if Succ(highestCommit.number) == commitBlock.number {
        if ready {
          CommittedHeld(exts, tree.live, tree.root, highestCommit, commitBlock, highestLock);
        }
        results := results + [commitBlock];
        var o := wal.UpdateChainState(update);
        highestCommit := commitBlock;
        tree.PruneBlock(commit);
        ok := o != Panicked;
      } else if highestCommit.number == commitBlock.number && highestCommit.number > 0 {
        var o := wal.UpdateChainState(update);
        ok := o != Panicked;
      } else {
        ok := true;
      }
    }

    /** Takes in a certified block above the lock: it becomes the lock, and if it is the child of the former lock,
        that one is committed if it is next by its number. */
    method InsertQCBlock(block: Block, qc: QuorumCert, hasBlock: bool, writes: bool) returns (o: Outcome)
      requires Valid() && block.number < 0xFFFF_FFFF_FFFF_FFFF
      requires block.hash in tree.exts ==> tree.exts[block.hash].block == block
      modifies this, tree, wal
      ensures o == Refused <==> block.number <= old(highestLock).number || hasBlock
      ensures o == Refused ==> unchanged(this, tree, wal)
      ensures o != Refused && ValidState(State(block, qc)) ==>
                && (o == Inserted ==> Valid()) && (o == Stopped ==> !writes)
                && Now() == Advance(old(Now()), block)
                && tree.exts.Keys == old(tree.exts.Keys) + {block.hash} && tree.exts[block.hash].block == block
                && (forall h | h in old(tree.exts) :: tree.exts[h].block == old(tree.exts)[h].block)
      ensures o != Refused && !old(ChildOf(highestLock, block)) ==>
                && o == Inserted && results == old(results) && highestCommit == old(highestCommit)
                && wal.log == old(wal.log)
    {
      hide Held, Logged, Shape, LinkUp, Grown;
      if block.number <= highestLock.number || hasBlock {
        return Refused;
      }
      ghost var child := ChildOf(highestLock, block);
      InsertedFacts(tree.exts, tree.live, tree.root, highestCommit, highestLock, block, qc);
      if ValidState(State(block, qc)) {
        InsertedHeld(tree.exts, tree.live, tree.root, highestCommit, highestLock, block, qc);
      }
      assert tree.Topmost(block);
      ghost var exts, live := tree.exts, tree.live;
      var lock, commit := tree.InsertQCBlock(block, qc);
      assert tree.exts == Grow(exts, live, block, qc) && tree.live == live + {block.hash};
      TrySetHighestLockBlock(lock.value);
      o := Inserted;
      if commit.Some? {
        var ok := TryCommitNewBlock(lock.value, commit.value, block.hash, writes);
        o := if ok then Inserted else Stopped;
      }
    }

    /** The parent of the block is in the tree. */
    predicate Linked(block: Block)
      reads this, tree
    {
      block.number > 0 && tree.Has(block.parent, Pred(block.number))
    }

    /** A certificate arrives: its block is taken in if it was executed and its parent is in the tree. */
    method InsertPreCommitQC(i: Input) returns (o: Outcome)
      requires Valid() && Sane(i) && (i.block.hash in tree.exts ==> tree.exts[i.block.hash].block == i.block)
      modifies this, tree, wal
      ensures o == Refused <==>
              !i.executed || !old(Linked(i.block)) || i.block.number <= old(highestLock).number || i.hasBlock
      ensures o == Refused ==> unchanged(this, tree, wal)
      ensures o == Inserted ==> Valid()
      ensures o == Stopped ==> !i.writes
      ensures o != Refused ==>
                && ChildOf(old(highestLock), i.block) && Now() == Advance(old(Now()), i.block)
                && tree.exts.Keys == old(tree.exts.Keys) + {i.block.hash} && tree.exts[i.block.hash].block == i.block
                && (forall h | h in old(tree.exts) :: tree.exts[h].block == old(tree.exts)[h].block)
    {
      hide Held, Logged, Advance;
      LinkedIsChild(tree.exts, tree.live, tree.root, highestCommit, highestLock, i.block);
      if !i.executed || !Linked(i.block) {
        return Refused;
      }
      o := InsertQCBlock(i.block, i.qc, i.hasBlock, i.writes);
    }

    /** A certified block from any source. */
    method Take(i: Input) returns (o: Outcome)
      requires Valid() && Sane(i) && (i.block.hash in tree.exts ==> tree.exts[i.block.hash].block == i.block)
      modifies this, tree, wal
      ensures o == Refused <==> !Accepts(old(Now()), i)
      ensures o == Refused <==>
              || i.block.number <= old(highestLock).number || i.hasBlock
              || (i.source == FromPeer && !(i.executed && old(Linked(i.block))))
              || (i.source == FromSync && i.block.parent !in old(tree.live))
      ensures o == Refused ==> unchanged(this, tree, wal)
      ensures o == Inserted ==> Valid()
      ensures o == Stopped ==> !i.writes
      ensures o != Refused ==>
                && Now() == Advance(old(Now()), i.block)
                && tree.exts.Keys == old(tree.exts.Keys) + {i.block.hash} && tree.exts[i.block.hash].block == i.block
                && (forall h | h in old(tree.exts) :: tree.exts[h].block == old(tree.exts)[h].block)
    {
      hide Held, Logged, Advance;
      LinkedIsChild(tree.exts, tree.live, tree.root, highestCommit, highestLock, i.block);
      match i.source
      case FromPeer =>
        o := InsertPreCommitQC(i);
      case FromVotes =>
        o := InsertQCBlock(i.block, i.qc, i.hasBlock, i.writes);
      case FromSync =>
        if i.block.parent !in tree.live {
          return Refused;
        }
        o := InsertQCBlock(i.block, i.qc, i.hasBlock, i.writes);
    }

    /** Whatever certified blocks arrive, from any source, in any order and any number of times, tree, heads and
        log stay in step until the log cannot be written. The blocks handed over for writing are a chain from the
        start, child after child, if and only if the blocks taken in do not slip. */
    method Drive(inputs: seq<Input>, ghost universe: map<Hash, Block>) returns (written: bool)
      requires Valid() && Known(universe)
      requires forall k | 0 <= k < |inputs| ::
                 Sane(inputs[k]) && inputs[k].block.hash in universe && universe[inputs[k].block.hash] == inputs[k].block
      modifies this, tree, wal
      ensures written ==> Valid() && Now() == AdvanceAll(old(Now()), Taken(old(Now()), inputs))
      ensures !written ==> exists k | 0 <= k < |inputs| :: !inputs[k].writes
      ensures written && Aligned(old(Now())) && Chained(start, old(results), old(highestCommit)) ==>
                && old(results) <= results
                && (Chained(start, results, highestCommit) <==> !Slips(old(Now()), Taken(old(Now()), inputs)))
    {
      hide Held, Chained, Logged, Taken, AdvanceAll, Advance, Slips, Aligned, Accepts;
      ghost var a := Now();
      Nothing(a);
      for k := 0 to |inputs|
        invariant Valid() && Known(universe)
        invariant Now() == AdvanceAll(a, Taken(a, inputs[..k]))
      {
        TakenMore(a, inputs[..k], inputs[k]);
        AdvanceMore(a, Taken(a, inputs[..k]), inputs[k].block);
        assert inputs[..k] + [inputs[k]] == inputs[..k + 1];
        var o := Take(inputs[k]);
        if o == Stopped {
          return false;
        }
      }
      assert inputs[..|inputs|] == inputs;
      TakenRises(a, inputs);
      if Aligned(a) && Chained(start, a.results, a.commit) {
        ChainedIff(start, a, Taken(a, inputs));
      }
      written := true;
    }

    /** Every block of a hash is the one of the universe. */
    ghost predicate Known(universe: map<Hash, Block>)
      reads this, tree
    {
      forall h | h in tree.exts :: h in universe && universe[h] == tree.exts[h].block
    }

    /** Recovery from the log succeeds if the chain on disk ends at the highest commit or at its parent. */
    method RecoverFrom(head: Block) returns (r: Recovery)
      requires Valid() && wal.log.Some?
      ensures r.Recovered? <==>
              || (head.number == highestCommit.number && head.hash == highestCommit.hash)
              || (Succ(head.number) == highestCommit.number && head.hash == highestCommit.parent)
      ensures r.Recovered? ==> OnParents(r.executed)
    {
      r := Recover(wal.log.value, head);
    }
  }

  /** Above the lock, a block has its parent in the tree exactly if that is the lock. */
  lemma LinkedIsChild(exts: Exts, live: set<Hash>, root: Hash, commit: Block, lock: Block, b: Block)
    requires Held(exts, live, root, commit, lock)
    ensures b.number > lock.number ==>
              (b.parent in live && b.parent in exts && exts[b.parent].block.number == Pred(b.number) <==>
               ChildOf(lock, b))
  {
    hide Shape;
  }

  /** The nodes with a new block above them all, linked to its parent if that is among them. */
  ghost function Grow(exts: Exts, live: set<Hash>, b: Block, qc: QuorumCert): Exts {
    LinkUp(exts[b.hash := NewExt(b, qc)], live + {b.hash}, b.hash)
  }

  /** A tree held that has grown by `b`, the child of the former lock. */
  ghost predicate Grown(exts: Exts, live: set<Hash>, root: Hash, commit: Block, former: Block, b: Block) {
    && Held(exts, live, root, commit, b) && former.hash in live && exts[former.hash].block == former && ChildOf(former, b)
    && former.number >= commit.number
    && (forall h | h in live && exts[h].block.number == former.number :: h == former.hash)
    && (former.number == commit.number + 1 ==>
          && live == {root, former.hash, b.hash} && exts[former.hash].children == {b.hash}
          && exts[b.hash].children == {} && exts[b.hash].parent == Some(former.hash))
  }

  lemma InsertedFacts(exts: Exts, live: set<Hash>, root: Hash, commit: Block, lock: Block, b: Block, qc: QuorumCert)
    requires Held(exts, live, root, commit, lock) && lock.number < b.number < 0xFFFF_FFFF_FFFF_FFFF
    requires b.hash in exts ==> exts[b.hash].block == b
    ensures b.hash !in live && live <= exts.Keys && root in live && lock.hash in live && exts[lock.hash].block == lock
    ensures forall h | h in live :: exts[h].block.number < b.number
    ensures var grown := Grow(exts, live, b, qc);
            && grown.Keys == exts.Keys + {b.hash} && grown[b.hash].block == b && grown[b.hash].qc == Some(qc)
            && (forall h | h in exts :: grown[h].block == exts[h].block)
            && (forall h | h in live :: grown[h].qc == exts[h].qc && grown[h].parent == exts[h].parent)
            && grown[b.hash].parent == (if ChildOf(lock, b) then Some(lock.hash) else None)
            && (forall h | h in live ::
                  grown[h].children == exts[h].children + if ChildOf(lock, b) && h == lock.hash then {b.hash} else {})
            && grown[b.hash].children == {}
            && (lock.number + 1 == b.number ==> Level(grown, live + {b.hash}, lock.number) == {lock.hash})
            && Lowest(grown, live + {b.hash}, root)
  {
    hide Shape, Certified;
  }

  lemma InsertedHeld(exts: Exts, live: set<Hash>, root: Hash, commit: Block, lock: Block, b: Block, qc: QuorumCert)
    requires Held(exts, live, root, commit, lock) && lock.number < b.number < 0xFFFF_FFFF_FFFF_FFFF
    requires (b.hash in exts ==> exts[b.hash].block == b) && ValidState(State(b, qc))
    ensures Held(Grow(exts, live, b, qc), live + {b.hash}, root, commit, b)
    ensures ChildOf(lock, b) ==> Grown(Grow(exts, live, b, qc), live + {b.hash}, root, commit, lock, b)
    ensures lock.hash in live && forall h | h in live && h in exts :: Certified(exts[h])
    ensures lock.number >= commit.number
  {
    hide Grow, Shape, Level, Lowest;
    InsertedFacts(exts, live, root, commit, lock, b, qc);
    if lock.number == commit.number && ChildOf(lock, b) {
      GrownShape(exts, live, root, b, qc);
    }
  }

  lemma GrownShape(exts: Exts, live: set<Hash>, root: Hash, b: Block, qc: QuorumCert)
    requires Shape(exts, live, root) && Links(exts, live, root, b)
    ensures Shape(Grow(exts, live, b, qc), live + {b.hash}, root)
  {
    hide Shape, LinkUp, Added, IsChild;
    AddedShape(exts, live, root, b, qc);
  }

  lemma GrownFacts(exts: Exts, live: set<Hash>, root: Hash, commit: Block, former: Block, b: Block)
    requires Grown(exts, live, root, commit, former, b)
    ensures former.hash in live && Held(exts, live, root, commit, b)
    ensures ChildOf(former, b) && former.number >= commit.number
    ensures b.hash in exts && exts[b.hash].block == b && forall h | h in live && h in exts :: exts[h].block.hash == h
  {
    hide Shape;
  }

  /** The update of the log is sound and follows the last one. */
  lemma GrownSound(exts: Exts, live: set<Hash>, root: Hash, commit: Block, former: Block, b: Block, writes: bool)
    requires Grown(exts, live, root, commit, former, b)
    ensures Sound(Update(StateOf(exts[b.hash]), StateOf(exts[b.hash]), StateOf(exts[former.hash]), writes))
    ensures exts[b.hash].qc.Some? && ValidState(State(b, exts[b.hash].qc.value)) && Contiguous(former, b)
    ensures former.number > 0 ==> exts[former.hash].qc.Some? && ValidState(State(former, exts[former.hash].qc.value))
    ensures former.number == commit.number ==> former == commit
  {
    hide Shape;
    assert Certified(exts[b.hash]) && Certified(exts[former.hash]);
  }

  lemma LoggedCommit(log: Option<ChainState>, commit: Block)
    requires Logged(log, commit)
    ensures log.Some? ==> ValidChainState(log.value) && log.value.commit.qc.number == commit.number
  {
  }

  /** Cutting back to the former lock leaves it and its child. */
  lemma CommittedHeld(exts: Exts, live: set<Hash>, root: Hash, commit: Block, former: Block, b: Block)
    requires Grown(exts, live, root, commit, former, b) && former.number == commit.number + 1
    ensures Above(exts, live, former.number) == {former.hash, b.hash}
    ensures Level(exts, live, former.number) == {former.hash}
    ensures Held(exts[former.hash := exts[former.hash].(parent := None)], {former.hash, b.hash}, former.hash, former, b)
  {
    hide Shape;
    var exts' := exts[former.hash := exts[former.hash].(parent := None)];
    TwoShape(exts', former, b);
  }

  lemma TwoShape(exts: Exts, p: Block, b: Block)
    requires p.hash in exts && b.hash in exts && exts[p.hash].block == p && exts[b.hash].block == b && ChildOf(p, b)
    requires p.hash != b.hash && exts[p.hash].parent == None && exts[b.hash].parent == Some(p.hash)
    requires exts[p.hash].children == {b.hash} && exts[b.hash].children == {}
    ensures Shape(exts, {p.hash, b.hash}, p.hash)
  {
    assert ChildrenOf(exts, {p.hash, b.hash}, p.hash, p.hash) == {b.hash};
    assert ChildrenOf(exts, {p.hash, b.hash}, p.hash, b.hash) == {};
    assert OnParent(exts, {p.hash, b.hash}, b.hash);
  }

  /** The state of a node as the log takes it. */
  function StateOf(ext: Ext): Option<State> {
    if ext.qc == None then None else Some(State(ext.block, ext.qc.value))
  }

  predicate HigherQuorumCert(q: QuorumCert, c: QuorumCert) {
    || q.number > c.number
    || (q.number == c.number && (q.epoch > c.epoch || (q.epoch == c.epoch && q.view > c.view)))
  }
}
