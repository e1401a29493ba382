/** The write-ahead log of the consensus chain state, and recovery from it.

    The log holds a committed block, the locked block and the certified blocks above it, each with its
    certificate. A state that lacks its block or its certificate counts as missing. */
module ChainLog {
  import opened Common

  type Hash = nat
  type U64 = n: nat | n < 0x1_0000_0000_0000_0000

  datatype Block = Block(number: U64, hash: Hash, parent: Hash)

  datatype QuorumCert = QuorumCert(epoch: U64, view: U64, number: U64, hash: Hash)

  datatype State = State(block: Block, qc: QuorumCert)

  datatype ChainState = ChainState(commit: State, lock: State, qcs: seq<State>)

  function Succ(n: U64): U64 {
    if n == 0xFFFF_FFFF_FFFF_FFFF then 0 else n + 1
  }

  predicate ValidState(s: State) {
    s.block.number == s.qc.number && s.block.hash == s.qc.hash
  }

  predicate EqualState(s: State, c: State) {
    s.qc.number == c.qc.number && s.qc.hash == c.qc.hash
  }

  predicate ValidChainState(cs: ChainState) {
    |cs.qcs| > 0 && ValidState(cs.commit) && ValidState(cs.lock)
  }

  /** `s` is a child of `p`. */
  predicate Contiguous(p: Block, s: Block) {
    Succ(p.number) == s.number && p.hash == s.parent
  }

  predicate SameBlock(p: Block, s: Block) {
    p.number == s.number && p.hash == s.hash
  }

  /** The certified block is the locked block or its child. */
  ghost predicate LockOrChild(lock: State, qc: State) {
    ValidState(lock) && ValidState(qc) && (SameBlock(lock.block, qc.block) || Contiguous(lock.block, qc.block))
  }

  /** What the log keeps: the lock is the child of the commit, and the certified blocks are all at one
      height, the lock's or the next. */
  ghost predicate Inv(cs: ChainState) {
    && ValidState(cs.commit) && ValidState(cs.lock) && Contiguous(cs.commit.block, cs.lock.block)
    && |cs.qcs| > 0
    && (forall i | 0 <= i < |cs.qcs| :: LockOrChild(cs.lock, cs.qcs[i]))
    && (forall i | 0 <= i < |cs.qcs| :: cs.qcs[i].block.number == cs.qcs[0].block.number)
  }

  ghost predicate LogInv(log: Option<ChainState>) {
    log.Some? ==> Inv(log.value)
  }

  datatype Outcome = Updated | Ignored | Panicked

  /** One call: the certified, locked and committed states, and whether the write succeeds. */
  datatype Update = Update(qc: Option<State>, lock: Option<State>, commit: Option<State>, writes: bool)

  ghost predicate Sound(u: Update) {
    u.qc.Some? && u.lock.Some? ==> LockOrChild(u.lock.value, u.qc.value)
  }

  /** The commit heights of two successive logs: equal, or one apart. */
  ghost predicate CommitMoves(log: Option<ChainState>, log': Option<ChainState>) {
    log.Some? && log'.Some? ==>
      log'.value.commit.qc.number == log.value.commit.qc.number ||
      log'.value.commit.qc.number == Succ(log.value.commit.qc.number)
  }

  /** The update repeats the logged commit and lock, with one more certified block at the same height. */
  predicate Repeats(cs: ChainState, qc: State, lock: State, commit: State)
    requires |cs.qcs| > 0
  {
    EqualState(cs.commit, commit) && EqualState(cs.lock, lock) && cs.qcs[0].qc.number == qc.qc.number
  }

  class Wal {
    var log: Option<ChainState>

    constructor ()
      ensures log == None
    {
      log := None;
    }

    /** Starts over with one certified block, checking that the lock is the child of the commit. */
    method NewChainState(commit: State, lock: State, qc: State, writes: bool) returns (ok: bool)
      modifies this
      ensures ok <==>
              && writes
              && (forall s | s in {commit, lock, qc} :: s.block.number == s.qc.number && s.block.hash == s.qc.hash)
              && Succ(commit.block.number) == lock.block.number && commit.block.hash == lock.block.parent
      ensures log == if ok then Some(ChainState(commit, lock, [qc])) else old(log)
    {
      if !ValidState(commit) || !ValidState(lock) || !ValidState(qc) {
        return false;
      }
      if !Contiguous(commit.block, lock.block) || !writes {
        return false;
      }
      log := Some(ChainState(commit, lock, [qc]));
      return true;
    }

    /** Updates the log. */
    method UpdateChainState(u: Update) returns (o: Outcome)
      modifies this
      ensures o != Updated ==> log == old(log)
      ensures o == Updated ==>
                && u.qc.Some? && u.lock.Some? && u.commit.Some? && u.writes && (old(log).Some? ==> |old(log).value.qcs| > 0)
                && log == Some(if && old(log).Some?
                                  && old(log).value.commit.qc.number == u.commit.value.qc.number
                                  && old(log).value.commit.qc.hash == u.commit.value.qc.hash
                                  && old(log).value.lock.qc.number == u.lock.value.qc.number
                                  && old(log).value.lock.qc.hash == u.lock.value.qc.hash
                                  && old(log).value.qcs[0].qc.number == u.qc.value.qc.number
                               then old(log).value.(qcs := old(log).value.qcs + [u.qc.value])
                               else ChainState(u.commit.value, u.lock.value, [u.qc.value]))
      ensures o == Ignored <==>
                && old(log).Some? && ValidChainState(old(log).value) && u.commit.Some?
                && u.commit.value.qc.number != old(log).value.commit.qc.number
                && u.commit.value.qc.number != Succ(old(log).value.commit.qc.number)
      ensures CommitMoves(old(log), log)
      ensures LogInv(old(log)) && Sound(u) ==> LogInv(log)
      ensures LogInv(old(log)) && Sound(u) && o == Panicked ==>
                || u.commit == None || u.lock == None || u.qc == None || !u.writes
                || !ValidState(u.commit.value) || !Contiguous(u.commit.value.block, u.lock.value.block)
    {
      if log == None {
        if u.commit == None || u.lock == None || u.qc == None {
          return Panicked;
        }
        var ok := NewChainState(u.commit.value, u.lock.value, u.qc.value, u.writes);
        return if ok then Updated else Panicked;
      }
      var cs := log.value;
      if !ValidChainState(cs) || u.commit == None {
        return Panicked;
      }
      var walCommitNumber, commitNumber := cs.commit.qc.number, u.commit.value.qc.number;
      if walCommitNumber != commitNumber && Succ(walCommitNumber) != commitNumber {
        return Ignored;
      }
      if u.lock == None || u.qc == None {
        return Panicked;
      }
      var ok;
      if Repeats(cs, u.qc.value, u.lock.value, u.commit.value) {
        ok := u.writes;
        if ok {
          log := Some(cs.(qcs := cs.qcs + [u.qc.value]));
        }
      } else {
        ok := NewChainState(u.commit.value, u.lock.value, u.qc.value, u.writes);
      }
      return if ok then Updated else Panicked;
    }

    /** Runs of sound updates, up to one that panics if any does. */
    method Drive(updates: seq<Update>) returns (done: nat, ghost logs: seq<Option<ChainState>>)
      requires LogInv(log) && forall i | 0 <= i < |updates| :: Sound(updates[i])
      modifies this
      ensures done <= |updates| && |logs| == done + 1 && logs[0] == old(log) && logs[done] == log
      ensures forall i | 0 <= i <= done :: LogInv(logs[i])
      ensures forall i | 0 <= i < done :: CommitMoves(logs[i], logs[i + 1])
    {
      done, logs := 0, [log];
      while done < |updates|
        invariant done <= |updates| && |logs| == done + 1 && logs[0] == old(log) && logs[done] == log
        invariant forall i | 0 <= i <= done :: LogInv(logs[i])
        invariant forall i | 0 <= i < done :: CommitMoves(logs[i], logs[i + 1])
      {
        var o := UpdateChainState(updates[done]);
        if o == Panicked {
          return;
        }
        done, logs := done + 1, logs + [log];
      }
    }
  }

  // ----- Recovery

  /** A block executed on top of another. */
  datatype Execution = Execution(parent: Block, block: Block)

  datatype Recovery = NonContiguous | Recovered(executed: seq<Execution>)

  /** The first `n` certified blocks, each executed on the lock. */
  ghost function OnLock(cs: ChainState, n: nat): (s: seq<Execution>)
    requires n <= |cs.qcs|
    ensures |s| == n && forall i | 0 <= i < n :: s[i] == Execution(cs.lock.block, cs.qcs[i].block)
  {
    if n == 0 then [] else OnLock(cs, n - 1) + [Execution(cs.lock.block, cs.qcs[n - 1].block)]
  }

  ghost predicate OnParents(executed: seq<Execution>) {
    forall i | 0 <= i < |executed| ::
      && Succ(executed[i].parent.number) == executed[i].block.number
      && executed[i].parent.hash == executed[i].block.parent
  }

  /** Re-executes the logged blocks above the head of the chain. From any log kept by sound updates it
      succeeds exactly if the head is the commit or its parent. It then executes the commit if it is not
      the head, the lock, and every certified block above the lock, each on its own parent. */
  method Recover(cs: ChainState, head: Block) returns (r: Recovery)
    requires |cs.qcs| > 0
    ensures Inv(cs) ==>
              (r.Recovered? <==>
                 || (head.number == cs.commit.block.number && head.hash == cs.commit.block.hash)
                 || (Succ(head.number) == cs.commit.block.number && head.hash == cs.commit.block.parent))
    ensures Inv(cs) && r.Recovered? ==>
              && r.executed ==
                 (if SameBlock(head, cs.commit.block) then [] else [Execution(head, cs.commit.block)]) +
                 [Execution(cs.commit.block, cs.lock.block)] +
                 (if SameBlock(cs.lock.block, cs.qcs[0].block) then [] else OnLock(cs, |cs.qcs|))
              && OnParents(r.executed)
  {
    var executed := [];
    var isCurrent, isParent := SameBlock(head, cs.commit.block), Contiguous(head, cs.commit.block);
    if !isCurrent && !isParent {
      return NonContiguous;
    }
    if isParent {
      executed := executed + [Execution(head, cs.commit.block)];
    }
    isCurrent, isParent := SameBlock(cs.commit.block, cs.lock.block), Contiguous(cs.commit.block, cs.lock.block);
    if !isCurrent && !isParent {
      return NonContiguous;
    }
    if isParent {
      executed := executed + [Execution(cs.commit.block, cs.lock.block)];
    }
    isCurrent, isParent := SameBlock(cs.lock.block, cs.qcs[0].block), Contiguous(cs.lock.block, cs.qcs[0].block);
    if !isCurrent && !isParent {
      return NonContiguous;
    }
    if isParent {
      ghost var below := executed;
      for i := 0 to |cs.qcs|
        invariant executed == below + OnLock(cs, i)
      {
        executed := executed + [Execution(cs.lock.block, cs.qcs[i].block)];
      }
      if Inv(cs) {
        assert forall i | 0 <= i < |cs.qcs| ::
            LockOrChild(cs.lock, cs.qcs[i]) && cs.qcs[i].block.number == cs.qcs[0].block.number;
        assert OnParents(OnLock(cs, |cs.qcs|));
      }
    }
    r := Recovered(executed);
  }
}
