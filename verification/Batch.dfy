/** One batch of transfers worked out on copies of the batch-start accounts and merged afterwards. */
module Batch {
  import opened Common
  import opened TxDag
  import opened Ledger

  type Results = seq<Option<Result>>

  /** Folding one worker's result into the ledger. */
  function MergeOne(b: Block, w: World, i: nat, r: Option<Result>): World
    requires WellFormed(b) && i < |b.txs| && b.txs[i].to.Some?
  {
    match r
    case None => w
    case Some(Done(from, to, gas, fee)) =>
      World(Merge(w.state, b.txs[i], from, to), w.pool, w.used + gas, w.earnings + fee, w.gasOf[i := gas])
    case Some(Failed(_, refund)) =>
      if refund && b.txs[i].intrinsicGas.Some? then w.(pool := w.pool + b.txs[i].intrinsicGas.value) else w
  }

  /** `batch` lists transfers, or unresolvable transactions treated as such. */
  ghost predicate Transfers(b: Block, batch: seq<nat>) {
    forall k | 0 <= k < |batch| :: batch[k] < |b.txs| && |b.ks| == |b.txs| && !b.ks[batch[k]].Contract?
  }

  ghost function MergeAll(b: Block, w: World, rs: Results, batch: seq<nat>): World
    requires WellFormed(b) && Transfers(b, batch) && |rs| == |b.txs|
    decreases |batch|
  {
    if batch == [] then w
    else MergeAll(b, MergeOne(b, w, batch[0], rs[batch[0]]), rs, batch[1..])
  }

  /** What the worker of `i` computes from the batch-start state when the pool lets it run. */
  function Expected(b: Block, start: State, i: nat): Result
    requires WellFormed(b) && i < |b.txs| && b.txs[i].to.Some?
  {
    if b.txs[i].intrinsicGas.None? then Failed(OutOfGas, false)
    else Transfer1(start, b.txs[i], b.txs[i].intrinsicGas.value)
  }

  /** A result the dispatcher can leave for `i`: none after a timeout or for a popped sender, a failure
      before the pool was touched, or what the worker computed. */
  ghost predicate Plausible(b: Block, start: State, i: nat, r: Option<Result>)
    requires WellFormed(b) && i < |b.txs| && b.txs[i].to.Some?
  {
    || r.None?
    || (r.value.Failed? && !r.value.refund)
    || (b.txs[i].intrinsicGas.Some? && r.value == Expected(b, start, i))
  }

  ghost predicate AllPlausible(b: Block, start: State, rs: Results, batch: seq<nat>)
    requires WellFormed(b) && Transfers(b, batch) && |rs| == |b.txs|
  {
    forall k | 0 <= k < |batch| :: Plausible(b, start, batch[k], rs[batch[k]])
  }

  /** The gas a result still holds from the pool: spent when merged, or handed back. */
  function Charge(b: Block, i: nat, r: Option<Result>): nat
    requires i < |b.txs|
  {
    if r.None? || b.txs[i].intrinsicGas.None? then 0
    else if r.value.Done? then r.value.gasUsed
    else if r.value.refund then b.txs[i].intrinsicGas.value
    else 0
  }

  ghost function Charges(b: Block, rs: Results, batch: seq<nat>): nat
    requires WellFormed(b) && Transfers(b, batch) && |rs| == |b.txs|
    decreases |batch|
  {
    if batch == [] then 0 else Charge(b, batch[0], rs[batch[0]]) + Charges(b, rs, batch[1..])
  }

  /** The two accounts of a transfer are as they were when the batch started. */
  ghost predicate Untouched(b: Block, start: State, s: State, i: nat)
    requires WellFormed(b) && i < |b.txs|
  {
    b.ks[i].Transfer? ==>
      Get(s, b.ks[i].from) == Get(start, b.ks[i].from) && Get(s, b.ks[i].to) == Get(start, b.ks[i].to)
  }

  ghost predicate AllUntouched(b: Block, start: State, s: State, batch: seq<nat>)
    requires WellFormed(b) && Transfers(b, batch)
  {
    forall k | 0 <= k < |batch| :: Untouched(b, start, s, batch[k])
  }

  ghost predicate Independent(b: Block, batch: seq<nat>)
    requires WellFormed(b) && Transfers(b, batch)
  {
    forall p, q | 0 <= p < q < |batch| :: !Conflict(b.ks[batch[p]], b.ks[batch[q]])
  }

  /** An untouched transfer computes what it computed at the start of the batch. */
  lemma UntouchedResult(b: Block, start: State, s: State, i: nat)
    requires WellFormed(b) && i < |b.txs| && !b.ks[i].Contract? && Untouched(b, start, s, i)
    ensures Expected(b, s, i) == Expected(b, start, i)
  {
  }

  /** Merging one transfer leaves the accounts of the others alone. */
  lemma MergeKeepsUntouched(b: Block, start: State, w: World, i: nat, r: Option<Result>, j: nat)
    requires WellFormed(b) && i < |b.txs| && j < |b.txs|
    requires !b.ks[i].Contract? && !b.ks[j].Contract? && !Conflict(b.ks[i], b.ks[j])
    requires Plausible(b, start, i, r) && Untouched(b, start, w.state, j)
    ensures Untouched(b, start, MergeOne(b, w, i, r).state, j)
  {
    if b.ks[j].Transfer? && r.Some? && r.value.Done? {
      MergeElsewhere(w.state, b.txs[i], r.value.from, r.value.to, b.ks[j].from);
      MergeElsewhere(w.state, b.txs[i], r.value.from, r.value.to, b.ks[j].to);
    }
  }

  /** The obligations on a batch carry over to its tail once the head is merged. */
  lemma TailReady(b: Block, start: State, w: World, rs: Results, batch: seq<nat>)
    requires WellFormed(b) && Transfers(b, batch) && |rs| == |b.txs| && batch != []
    requires Independent(b, batch) && AllPlausible(b, start, rs, batch)
    requires AllUntouched(b, start, w.state, batch)
    ensures Transfers(b, batch[1..]) && Independent(b, batch[1..]) && AllPlausible(b, start, rs, batch[1..])
    ensures AllUntouched(b, start, MergeOne(b, w, batch[0], rs[batch[0]]).state, batch[1..])
  {
    hide MergeOne, Untouched, Conflict, Plausible;
    forall k | 0 <= k < |batch[1..]|
      ensures Untouched(b, start, MergeOne(b, w, batch[0], rs[batch[0]]).state, batch[1..][k])
    {
      assert !Conflict(b.ks[batch[0]], b.ks[batch[k + 1]]);
      MergeKeepsUntouched(b, start, w, batch[0], rs[batch[0]], batch[k + 1]);
    }
  }

  // ----- The batch as a run

  /** With gas for all and no interruption, dispatching on copies and merging is executing in turn. */
  lemma {:induction false} BatchAsRun(b: Block, start: State, w: World, rs: Results, batch: seq<nat>)
    requires WellFormed(b) && Transfers(b, batch) && |rs| == |b.txs|
    requires Independent(b, batch) && AllUntouched(b, start, w.state, batch)
    requires forall k | 0 <= k < |batch| :: rs[batch[k]] == Some(Expected(b, start, batch[k]))
    requires w.pool >= Need(b, batch)
    ensures Charges(b, rs, batch) <= Need(b, batch)
    ensures MergeAll(b, w.(pool := w.pool - Charges(b, rs, batch)), rs, batch) == Run(b, w, batch)
    decreases |batch|
  {
    hide Step, MergeOne, Untouched, Conflict, Independent, Expected, AllPlausible;
    if batch != [] {
      ChargesWithinNeed(b, start, rs, batch);
      ChargesWithinNeed(b, start, rs, batch[1..]);
      var w1 := w.(pool := w.pool - Charges(b, rs, batch));
      ExpectedPlausible(b, start, rs, batch);
      TailReady(b, start, w1, rs, batch);
      HeadAsStep(b, start, w, batch[0], Charges(b, rs, batch[1..]));
      StepPool(b, w, batch[0]);
      BatchAsRun(b, start, Step(b, w, batch[0]), rs, batch[1..]);
    }
  }

  lemma ExpectedPlausible(b: Block, start: State, rs: Results, batch: seq<nat>)
    requires WellFormed(b) && Transfers(b, batch) && |rs| == |b.txs|
    requires forall k | 0 <= k < |batch| :: rs[batch[k]] == Some(Expected(b, start, batch[k]))
    ensures AllPlausible(b, start, rs, batch)
  {
  }

  lemma {:induction false} ChargesWithinNeed(b: Block, start: State, rs: Results, batch: seq<nat>)
    requires WellFormed(b) && Transfers(b, batch) && |rs| == |b.txs|
    requires forall k | 0 <= k < |batch| :: rs[batch[k]] == Some(Expected(b, start, batch[k]))
    ensures Charges(b, rs, batch) <= Need(b, batch)
    decreases |batch|
  {
    if batch != [] {
      ChargesWithinNeed(b, start, rs, batch[1..]);
    }
  }

  lemma HeadAsStep(b: Block, start: State, w: World, i: nat, held: nat)
    requires WellFormed(b) && i < |b.txs| && !b.ks[i].Contract? && Untouched(b, start, w.state, i)
    requires w.pool >= NeedOf(b, i) + held
    ensures var r := Some(Expected(b, start, i));
            Charge(b, i, r) + held <= w.pool && held <= Step(b, w, i).pool &&
            MergeOne(b, w.(pool := w.pool - (Charge(b, i, r) + held)), i, r) ==
            Step(b, w, i).(pool := Step(b, w, i).pool - held)
  {
    UntouchedResult(b, start, w.state, i);
  }

  // ----- Gas and funds over a batch, in every mode

  /** Merging turns held gas into used gas or hands it back; none appears or vanishes. */
  lemma {:induction false} MergeKeepsGas(b: Block, start: State, w: World, rs: Results, batch: seq<nat>)
    requires WellFormed(b) && Transfers(b, batch) && |rs| == |b.txs| && AllPlausible(b, start, rs, batch)
    ensures var w' := MergeAll(b, w, rs, batch);
            w'.pool + w'.used == w.pool + w.used + Charges(b, rs, batch)
    decreases |batch|
  {
    if batch != [] {
      assert Plausible(b, start, batch[0], rs[batch[0]]);
      assert forall k | 0 <= k < |batch[1..]| :: batch[1..][k] == batch[k + 1];
      MergeKeepsGas(b, start, MergeOne(b, w, batch[0], rs[batch[0]]), rs, batch[1..]);
    }
  }

  /** Merging moves funds between accounts and to the miner's earnings; none appears or vanishes. */
  lemma {:induction false} MergeKeepsFunds(b: Block, start: State, w: World, rs: Results, batch: seq<nat>)
    requires WellFormed(b) && Transfers(b, batch) && |rs| == |b.txs|
    requires Independent(b, batch) && AllPlausible(b, start, rs, batch)
    requires AllUntouched(b, start, w.state, batch) && NonNegative(w.state)
    ensures var w' := MergeAll(b, w, rs, batch);
            Total(w'.state) + w'.earnings == Total(w.state) + w.earnings && NonNegative(w'.state)
    decreases |batch|
  {
    if batch != [] {
      var w1 := MergeOne(b, w, batch[0], rs[batch[0]]);
      TailReady(b, start, w, rs, batch);
      assert Plausible(b, start, batch[0], rs[batch[0]]) && Untouched(b, start, w.state, batch[0]);
      MergeOneKeepsFunds(b, start, w, batch[0], rs[batch[0]]);
      MergeKeepsFunds(b, start, w1, rs, batch[1..]);
    }
  }

  lemma MergeOneKeepsFunds(b: Block, start: State, w: World, i: nat, r: Option<Result>)
    requires WellFormed(b) && i < |b.txs| && !b.ks[i].Contract?
    requires Plausible(b, start, i, r) && Untouched(b, start, w.state, i) && NonNegative(w.state)
    ensures var w' := MergeOne(b, w, i, r);
            Total(w'.state) + w'.earnings == Total(w.state) + w.earnings && NonNegative(w'.state)
  {
    if r.Some? && r.value.Done? {
      UntouchedResult(b, start, w.state, i);
      TransferKeepsFunds(w.state, b.txs[i], b.txs[i].intrinsicGas.value);
    }
  }

  // ----- Sums of balances

  ghost predicate NonNegative(s: State) {
    forall a | a in s :: s[a].balance >= 0
  }

  /** The sum of all balances. */
  ghost function Total(s: State): int {
    if s == map[] then 0
    else
      var a :| a in s;
      s[a].balance + Total(s - {a})
  }

  /** The sum may be taken apart at any account. */
  lemma {:induction false} TotalAt(s: State, a: Address)
    ensures Total(s) == Get(s, a).balance + Total(s - {a})
    decreases |s|
  {
    if a !in s {
      assert s - {a} == s;
    } else {
      var c :| c in s && Total(s) == s[c].balance + Total(s - {c});
      if c != a {
        TotalAt(s - {c}, a);
        assert s - {c} - {a} == s - {a} - {c};
        assert c in s - {a};
        TotalAt(s - {a}, c);
      }
    }
  }

  lemma TotalPut(s: State, a: Address, x: Account)
    ensures Total(Put(s, a, x)) == Total(s) - Get(s, a).balance + x.balance
  {
    TotalAt(s, a);
    TotalAt(Put(s, a, x), a);
    assert Put(s, a, x) - {a} == s - {a};
  }

  lemma TransferKeepsFunds(s: State, tx: Tx, gas: nat)
    requires tx.to.Some? && Transfer1(s, tx, gas).Done? && NonNegative(s)
    ensures var r := Transfer1(s, tx, gas);
            Total(Merge(s, tx, r.from, r.to)) + r.fee == Total(s) && NonNegative(Merge(s, tx, r.from, r.to))
  {
    var r := Transfer1(s, tx, gas);
    if tx.from != tx.to.value {
      TotalPut(s, tx.from, r.from);
      TotalPut(Put(s, tx.from, r.from), tx.to.value, r.to);
    } else {
      TotalPut(s, tx.to.value, r.to);
    }
  }
}
