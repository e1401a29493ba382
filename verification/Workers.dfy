/** The transfer workers of one batch as they really run: at the same time, and on the live account
    objects of the state when those are cached.

    A worker takes two steps. The first looks at the sender and, if all checks pass, debits it in
    place; the second credits the recipient in place. Whatever the interleaving, once all workers are
    through the accounts are those of working on copies and merging. */
module Workers {
  import opened Common
  import opened TxDag
  import opened Ledger
  import opened Batch
  import opened Levels

  datatype Phase = Waiting | Debited | Finished | Stopped

  /** The live accounts and how far each worker of the batch is. */
  datatype Pool = Pool(live: State, phases: seq<Phase>)

  function Starting(s: State, workers: nat): Pool {
    Pool(s, seq(workers, _ => Waiting))
  }

  /** The next step of worker `k`. */
  function WorkerStep(b: Block, batch: seq<nat>, p: Pool, k: nat): Pool
    requires WellFormed(b) && k < |batch| == |p.phases| && Dispatchable(b, batch[k])
  {
    var tx := b.txs[batch[k]];
    match p.phases[k]
    case Waiting =>
      if Transfer1(p.live, tx, tx.intrinsicGas.value).Failed? then p.(phases := p.phases[k := Stopped])
      else Pool(Put(p.live, tx.from, Debit(Get(p.live, tx.from), tx)), p.phases[k := Debited])
    case Debited =>
      var to := Get(p.live, tx.to.value);
      Pool(Put(p.live, tx.to.value, to.(balance := to.balance + tx.value)), p.phases[k := Finished])
    case _ => p
  }

  function Debit(from: Account, tx: Tx): Account
    requires tx.intrinsicGas.Some?
  {
    from.(balance := from.balance - (tx.value + tx.intrinsicGas.value * tx.gasPrice), nonce := from.nonce + 1)
  }

  /** A transfer whose gas was taken from the pool, so that its worker was started. */
  predicate Dispatchable(b: Block, i: nat) {
    i < |b.txs| == |b.ks| && b.ks[i].Transfer? && b.txs[i].to.Some? && b.txs[i].intrinsicGas.Some?
  }

  ghost predicate AllDispatchable(b: Block, batch: seq<nat>) {
    forall k | 0 <= k < |batch| :: Dispatchable(b, batch[k])
  }

  ghost predicate AllThrough(p: Pool) {
    forall k | 0 <= k < |p.phases| :: p.phases[k] == Finished || p.phases[k] == Stopped
  }

  /** Workers take steps in the order `schedule` names them. */
  ghost function Interleave(b: Block, batch: seq<nat>, p: Pool, schedule: seq<nat>): Pool
    requires WellFormed(b) && AllDispatchable(b, batch) && |p.phases| == |batch|
    requires forall j | 0 <= j < |schedule| :: schedule[j] < |batch|
    decreases |schedule|
  {
    if schedule == [] then p
    else Interleave(b, batch, WorkerStep(b, batch, p, schedule[0]), schedule[1..])
  }

  /** The accounts of worker `k` are as its own phase says; nobody else has touched them. */
  ghost predicate Consistent(b: Block, batch: seq<nat>, start: State, p: Pool, k: nat)
    requires WellFormed(b) && k < |batch| == |p.phases| && Dispatchable(b, batch[k])
  {
    var tx := b.txs[batch[k]];
    var r := Transfer1(start, tx, tx.intrinsicGas.value);
    var from, to := Get(p.live, tx.from), Get(p.live, tx.to.value);
    match p.phases[k]
    case Waiting => from == Get(start, tx.from) && to == Get(start, tx.to.value)
    case Stopped => r.Failed? && from == Get(start, tx.from) && to == Get(start, tx.to.value)
    case Debited =>
      && r.Done? && from == Debit(Get(start, tx.from), tx)
      && (tx.from != tx.to.value ==> to == Get(start, tx.to.value))
    case Finished => r.Done? && from == r.from && to == r.to
  }

  ghost predicate Touches(b: Block, batch: seq<nat>, a: Address)
    requires WellFormed(b) && AllDispatchable(b, batch)
  {
    exists k | 0 <= k < |batch| :: Uses(b.ks[batch[k]], a)
  }

  ghost predicate Inv(b: Block, batch: seq<nat>, start: State, p: Pool)
    requires WellFormed(b) && AllDispatchable(b, batch)
  {
    && |p.phases| == |batch|
    && (forall k | 0 <= k < |batch| :: Consistent(b, batch, start, p, k))
    && (forall a | !Touches(b, batch, a) :: Get(p.live, a) == Get(start, a))
  }

  lemma OwnStep(b: Block, batch: seq<nat>, start: State, p: Pool, k: nat)
    requires WellFormed(b) && k < |batch| == |p.phases| && Dispatchable(b, batch[k])
    requires Consistent(b, batch, start, p, k)
    ensures Consistent(b, batch, start, WorkerStep(b, batch, p, k), k)
  {
  }

  /** A step of worker `k` changes no account but its own two. */
  lemma StepElsewhere(b: Block, batch: seq<nat>, p: Pool, k: nat, a: Address)
    requires WellFormed(b) && k < |batch| == |p.phases| && Dispatchable(b, batch[k])
    requires !Uses(b.ks[batch[k]], a)
    ensures Get(WorkerStep(b, batch, p, k).live, a) == Get(p.live, a)
  {
  }

  lemma InvStep(b: Block, batch: seq<nat>, start: State, p: Pool, k: nat)
    requires WellFormed(b) && AllDispatchable(b, batch) && Transfers(b, batch) && Independent(b, batch)
    requires Inv(b, batch, start, p) && k < |batch|
    ensures Inv(b, batch, start, WorkerStep(b, batch, p, k))
  {
    hide Conflict, Debit, Transfer1;
    var p' := WorkerStep(b, batch, p, k);
    forall j | 0 <= j < |batch|
      ensures Consistent(b, batch, start, p', j)
    {
      assert Consistent(b, batch, start, p, j);
      if j == k {
        OwnStep(b, batch, start, p, k);
      } else {
        NotShared(b, batch, j, k);
        StepElsewhere(b, batch, p, k, b.ks[batch[j]].from);
        StepElsewhere(b, batch, p, k, b.ks[batch[j]].to);
      }
    }
    forall a | !Touches(b, batch, a)
      ensures Get(p'.live, a) == Get(start, a)
    {
      StepElsewhere(b, batch, p, k, a);
    }
  }

  lemma NotShared(b: Block, batch: seq<nat>, j: nat, k: nat)
    requires WellFormed(b) && AllDispatchable(b, batch) && Transfers(b, batch) && Independent(b, batch)
    requires j < |batch| && k < |batch| && j != k
    ensures !Uses(b.ks[batch[k]], b.ks[batch[j]].from) && !Uses(b.ks[batch[k]], b.ks[batch[j]].to)
  {
    if j < k {
      assert !Conflict(b.ks[batch[j]], b.ks[batch[k]]);
    } else {
      assert !Conflict(b.ks[batch[k]], b.ks[batch[j]]);
    }
  }

  lemma {:induction false} InvRun(b: Block, batch: seq<nat>, start: State, p: Pool, schedule: seq<nat>)
    requires WellFormed(b) && AllDispatchable(b, batch) && Transfers(b, batch) && Independent(b, batch)
    requires Inv(b, batch, start, p) && forall j | 0 <= j < |schedule| :: schedule[j] < |batch|
    ensures Inv(b, batch, start, Interleave(b, batch, p, schedule))
    decreases |schedule|
  {
    if schedule != [] {
      InvStep(b, batch, start, p, schedule[0]);
      InvRun(b, batch, start, WorkerStep(b, batch, p, schedule[0]), schedule[1..]);
    }
  }

  // ----- The same accounts as merging copies

  /** Account `a` once the transfer with result `r` is written back. */
  function Written(s: State, tx: Tx, r: Result, a: Address): Account
    requires tx.to.Some?
  {
    if r.Failed? then Get(s, a) else if a == tx.to.value then r.to else if a == tx.from then r.from else Get(s, a)
  }

  lemma MergeOneAt(b: Block, w: World, i: nat, r: Result, a: Address)
    requires WellFormed(b) && Dispatchable(b, i)
    ensures Get(MergeOne(b, w, i, Some(r)).state, a) == Written(w.state, b.txs[i], r, a)
  {
  }

  lemma {:induction false} MergeAllElsewhere(b: Block, w: World, rs: Results, batch: seq<nat>, a: Address)
    requires WellFormed(b) && AllDispatchable(b, batch) && Transfers(b, batch) && |rs| == |b.txs|
    requires forall k | 0 <= k < |batch| :: rs[batch[k]].Some? && !Uses(b.ks[batch[k]], a)
    ensures Get(MergeAll(b, w, rs, batch).state, a) == Get(w.state, a)
    decreases |batch|
  {
    if batch != [] {
      MergeOneAt(b, w, batch[0], rs[batch[0]].value, a);
      MergeAllElsewhere(b, MergeOne(b, w, batch[0], rs[batch[0]]), rs, batch[1..], a);
    }
  }

  lemma {:induction false} MergeAllAt(b: Block, w: World, rs: Results, batch: seq<nat>, k: nat, a: Address)
    requires WellFormed(b) && AllDispatchable(b, batch) && Transfers(b, batch) && |rs| == |b.txs|
    requires Independent(b, batch) && forall j | 0 <= j < |batch| :: rs[batch[j]].Some?
    requires k < |batch| && Uses(b.ks[batch[k]], a)
    ensures Get(MergeAll(b, w, rs, batch).state, a) == Written(w.state, b.txs[batch[k]], rs[batch[k]].value, a)
    decreases |batch|
  {
    hide Conflict, MergeOne;
    var w1, tail := MergeOne(b, w, batch[0], rs[batch[0]]), batch[1..];
    MergeOneAt(b, w, batch[0], rs[batch[0]].value, a);
    if k == 0 {
      forall j | 0 <= j < |tail|
        ensures !Uses(b.ks[tail[j]], a)
      {
        NotShared(b, batch, 0, j + 1);
      }
      MergeAllElsewhere(b, w1, rs, tail, a);
    } else {
      NotShared(b, batch, k, 0);
      assert Independent(b, tail) by {
        assert forall p | 0 <= p < |tail| :: tail[p] == batch[p + 1];
      }
      MergeAllAt(b, w1, rs, tail, k - 1, a);
      WrittenSame(w.state, w1.state, b.txs[batch[k]], rs[batch[k]].value, a);
    }
  }

  lemma WrittenSame(s: State, s': State, tx: Tx, r: Result, a: Address)
    requires tx.to.Some? && Get(s', a) == Get(s, a)
    ensures Written(s', tx, r, a) == Written(s, tx, r, a)
  {
  }

  /** However the steps of the workers interleave, once all are through the live accounts are exactly
      those of working out each transfer on copies of the batch-start accounts and merging. */
  lemma InterleavingIrrelevant(b: Block, batch: seq<nat>, w: World, rs: Results, schedule: seq<nat>)
    requires WellFormed(b) && AllDispatchable(b, batch) && Transfers(b, batch) && Independent(b, batch)
    requires |rs| == |b.txs| && forall k | 0 <= k < |batch| :: rs[batch[k]] == Some(Expected(b, w.state, batch[k]))
    requires forall j | 0 <= j < |schedule| :: schedule[j] < |batch|
    requires AllThrough(Interleave(b, batch, Starting(w.state, |batch|), schedule))
    ensures var p := Interleave(b, batch, Starting(w.state, |batch|), schedule);
            forall a :: Get(p.live, a) == Get(MergeAll(b, w, rs, batch).state, a)
  {
    var p0 := Starting(w.state, |batch|);
    InvRun(b, batch, w.state, p0, schedule);
    PoolSettled(b, batch, w, rs, Interleave(b, batch, p0, schedule));
  }

  lemma PoolSettled(b: Block, batch: seq<nat>, w: World, rs: Results, p: Pool)
    requires WellFormed(b) && AllDispatchable(b, batch) && Transfers(b, batch) && Independent(b, batch)
    requires |rs| == |b.txs| && forall k | 0 <= k < |batch| :: rs[batch[k]] == Some(Expected(b, w.state, batch[k]))
    requires Inv(b, batch, w.state, p) && AllThrough(p)
    ensures forall a :: Get(p.live, a) == Get(MergeAll(b, w, rs, batch).state, a)
  {
    hide Uses, Expected, Consistent, MergeAll;
    forall a
      ensures Get(p.live, a) == Get(MergeAll(b, w, rs, batch).state, a)
    {
      if k :| 0 <= k < |batch| && Uses(b.ks[batch[k]], a) {
        MergeAllAt(b, w, rs, batch, k, a);
        SettledAs(b, batch, w.state, p, k, a);
      } else {
        MergeAllElsewhere(b, w, rs, batch, a);
      }
    }
  }

  lemma SettledAs(b: Block, batch: seq<nat>, start: State, p: Pool, k: nat, a: Address)
    requires WellFormed(b) && k < |batch| == |p.phases| && Dispatchable(b, batch[k])
    requires Consistent(b, batch, start, p, k) && (p.phases[k] == Finished || p.phases[k] == Stopped)
    requires Uses(b.ks[batch[k]], a)
    ensures Get(p.live, a) == Written(start, b.txs[batch[k]], Expected(b, start, batch[k]), a)
  {
  }

  /** The accounts a batch leaves when executed as specified are those that any interleaving of its workers
      leaves on the live objects. */
  lemma BatchUnderAnySchedule(b: Block, batch: seq<nat>, w: World, w': World, schedule: seq<nat>)
    requires WellFormed(b) && AllDispatchable(b, batch) && Transfers(b, batch) && Independent(b, batch)
    requires w.pool >= Need(b, batch) && BatchOutcome(b, false, w, w', batch)
    requires forall j | 0 <= j < |schedule| :: schedule[j] < |batch|
    requires AllThrough(Interleave(b, batch, Starting(w.state, |batch|), schedule))
    ensures forall a :: Get(Interleave(b, batch, Starting(w.state, |batch|), schedule).live, a) == Get(w'.state, a)
  {
    hide *;
    var rs := AllExpected(b, w.state, batch);
    BatchUntouched(b, w.state, batch);
    OutcomeIsRun(b, w, w', batch);
    BatchAsRun(b, w.state, w, rs, batch);
    InterleavingIrrelevant(b, batch, w.(pool := w.pool - Charges(b, rs, batch)), rs, schedule);
  }

  lemma OutcomeIsRun(b: Block, w: World, w': World, batch: seq<nat>)
    requires WellFormed(b) && Indices(b, batch) && w.pool >= Need(b, batch) && BatchOutcome(b, false, w, w', batch)
    ensures w' == Run(b, w, batch)
  {
  }

  lemma BatchUntouched(b: Block, start: State, batch: seq<nat>)
    requires WellFormed(b) && Transfers(b, batch)
    ensures Indices(b, batch) && AllUntouched(b, start, start, batch)
  {
  }

  /** The results of all workers of a batch that run. */
  lemma AllExpected(b: Block, start: State, batch: seq<nat>) returns (rs: Results)
    requires WellFormed(b) && Transfers(b, batch)
    ensures |rs| == |b.txs|
    ensures forall k | 0 <= k < |batch| ::
              batch[k] < |b.txs| && !b.ks[batch[k]].Contract? && rs[batch[k]] == Some(Expected(b, start, batch[k]))
  {
    rs := [];
    hide Expected;
    while |rs| < |b.txs|
      invariant |rs| <= |b.txs|
      invariant forall i | 0 <= i < |rs| && !b.ks[i].Contract? :: rs[i] == Some(Expected(b, start, i))
    {
      var i := |rs|;
      rs := rs + [if b.ks[i].Contract? then None else Some(Expected(b, start, i))];
    }
  }
}
