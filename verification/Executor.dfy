/** The batch executor: it peels the dependency graph level by level, works the transfers of a level
    out on copies, merges them, and runs contracts alone. */
module Executor {
  import opened Common
  import opened Dag
  import opened TxDag
  import opened Ledger
  import opened Batch
  import opened Receipts
  import opened Levels

  const MAX_UINT64: nat := 0xFFFF_FFFF_FFFF_FFFF

  class ParallelContext {
    const env: CodeView
    const txs: seq<Tx>
    const call: (Tx, State) -> CallOutcome
    const coinbase: Address
    /** Packing a new block (with a deadline) rather than processing a received one. */
    const packNewBlock: bool
    /** Whether the deadline has passed when the clock is read for the n-th time. */
    const clock: nat -> bool

    var state: State
    var gasPool: nat
    var blockGasUsed: nat
    var earnings: nat
    var resultList: Results
    var receipts: seq<Receipt>
    /** Positions of the packed transactions, in the order they were packed. */
    var packed: seq<nat>
    var poppedAddresses: set<Address>
    var clockReads: nat
    ghost var gasOf: map<nat, nat>

    ghost function B(): Block {
      Block(txs, Kinds(env, txs), call)
    }

    ghost function W(): World
      reads this
    {
      World(state, gasPool, blockGasUsed, earnings, gasOf)
    }

    /** Nothing keeps a transaction from being tried: no deadline passes and no sender is left out. */
    ghost predicate Steady()
      reads this
    {
      packNewBlock ==> poppedAddresses == {} && forall n: nat :: !clock(n)
    }

    /** The receipts so far are one per success, in packing order, carrying hash and gas. */
    ghost predicate ReceiptsMatch()
      reads this
    {
      Matches(txs, gasOf, packed, receipts)
    }

    ghost predicate Valid()
      reads this
    {
      && WellFormed(B()) && |resultList| == |txs|
      && gasPool + blockGasUsed <= MAX_UINT64 && blockGasUsed == GasSum(receipts) && ReceiptsMatch()
    }

    constructor (env: CodeView, txs: seq<Tx>, call: (Tx, State) -> CallOutcome, coinbase: Address,
                 packNewBlock: bool, clock: nat -> bool, state: State, gasPool: nat)
      requires gasPool <= MAX_UINT64
      requires forall i | 0 <= i < |txs| && !Resolved(txs[i]) :: txs[i].to.Some?
      ensures this.env == env && this.txs == txs && this.call == call && this.coinbase == coinbase
      ensures this.packNewBlock == packNewBlock && this.clock == clock
      ensures Valid() && Unstarted() && W() == World(state, gasPool, 0, 0, map[]) && poppedAddresses == {}
    {
      this.env, this.txs, this.call, this.coinbase := env, txs, call, coinbase;
      this.packNewBlock, this.clock := packNewBlock, clock;
      this.state, this.gasPool, blockGasUsed, earnings, gasOf := state, gasPool, 0, 0, map[];
      resultList := seq(|txs|, _ => None);
      receipts, packed, poppedAddresses, clockReads := [], [], {}, 0;
    }

    method IsTimeout() returns (timeout: bool)
      modifies `clockReads
      ensures timeout <==> packNewBlock && clock(old(clockReads))
    {
      timeout := packNewBlock && clock(clockReads);
      clockReads := clockReads + 1;
    }

    /** Makes gas available; the original panics on overflow, which the callers below rule out. */
    method AddGas(amount: nat)
      requires gasPool + amount <= MAX_UINT64
      modifies `gasPool
      ensures gasPool == old(gasPool) + amount
    {
      gasPool := gasPool + amount;
    }

    /** Takes gas if the pool holds enough. */
    method SubGas(amount: nat) returns (ok: bool)
      modifies `gasPool
      ensures ok <==> old(gasPool) >= amount
      ensures gasPool == if ok then old(gasPool) - amount else old(gasPool)
    {
      ok := gasPool >= amount;
      if ok {
        gasPool := gasPool - amount;
      }
    }

    /** One worker: checks and applies a transfer on copies of its two accounts. */
    method ExecuteParallelTx(idx: nat, intrinsicGas: nat)
      requires |resultList| == |txs| && idx < |txs| && txs[idx].to.Some?
      modifies `resultList, `clockReads
      ensures || resultList == old(resultList)[idx := Some(Transfer1(state, txs[idx], intrinsicGas))]
              || (!Steady() && resultList == old(resultList))
    {
      var timeout := IsTimeout();
      if timeout {
        return;
      }
      var tx := txs[idx];
      if tx.from == ZERO_ADDRESS {
        resultList := resultList[idx := Some(Failed(BadSignature, true))];
        return;
      }
      if tx.gas < intrinsicGas {
        resultList := resultList[idx := Some(Failed(OutOfGas, true))];
        return;
      }
      var fromObj := Get(state, tx.from);
      if fromObj.balance < tx.gas * tx.gasPrice {
        resultList := resultList[idx := Some(Failed(InsufficientBalance, true))];
        return;
      }
      if fromObj.nonce < tx.nonce {
        resultList := resultList[idx := Some(Failed(NonceTooHigh, true))];
        return;
      } else if fromObj.nonce > tx.nonce {
        resultList := resultList[idx := Some(Failed(NonceTooLow, true))];
        return;
      }
      var minerEarnings := intrinsicGas * tx.gasPrice;
      var subTotal := tx.value + minerEarnings;
      if fromObj.balance < subTotal {
        resultList := resultList[idx := Some(Failed(InsufficientBalance, true))];
        return;
      }
      fromObj := fromObj.(balance := fromObj.balance - subTotal);
      fromObj := fromObj.(nonce := fromObj.nonce + 1);
      var toObj;
      if tx.from == tx.to.value {
        // One object under two names.
        fromObj := fromObj.(balance := fromObj.balance + tx.value);
        toObj := fromObj;
      } else {
        toObj := Get(state, tx.to.value);
        toObj := toObj.(balance := toObj.balance + tx.value);
      }
      resultList := resultList[idx := Some(Done(fromObj, toObj, intrinsicGas, minerEarnings))];
    }

    /** Prepares one transfer of a batch: takes its gas and starts its worker. Returns whether the
        deadline stops the batch. */
    method DispatchOne(idx: nat) returns (stop: bool)
      requires |resultList| == |txs| && WellFormed(B()) && idx < |txs| && !B().ks[idx].Contract?
      requires resultList[idx].None?
      modifies `resultList, `gasPool, `clockReads
      ensures |resultList| == |txs| && resultList == old(resultList)[idx := resultList[idx]]
      ensures Plausible(B(), state, idx, resultList[idx])
      ensures gasPool + Charge(B(), idx, resultList[idx]) <= old(gasPool)
      ensures Steady() ==> !stop && gasPool + Charge(B(), idx, resultList[idx]) == old(gasPool)
      ensures Steady() && old(gasPool) >= NeedOf(B(), idx) ==> resultList[idx] == Some(Expected(B(), state, idx))
      ensures packNewBlock && txs[idx].from in poppedAddresses ==> resultList[idx].None? && gasPool == old(gasPool)
      ensures Steady() && txs[idx].intrinsicGas.Some? && old(gasPool) < txs[idx].intrinsicGas.value ==>
                resultList[idx] == Some(Failed(GasPoolEmpty, false))
    {
      stop := false;
      var tx := txs[idx];
      if packNewBlock {
        stop := IsTimeout();
        if stop {
          return;
        }
        if tx.from in poppedAddresses {
          return;
        }
      }
      if tx.intrinsicGas.None? {
        resultList := resultList[idx := Some(Failed(OutOfGas, false))];
        return;
      }
      var ok := SubGas(tx.intrinsicGas.value);
      if !ok {
        resultList := resultList[idx := Some(Failed(GasPoolEmpty, false))];
        return;
      }
      ExecuteParallelTx(idx, tx.intrinsicGas.value);
    }

    /** Runs the workers of a batch; nothing is written back yet. */
    method Dispatch(batch: seq<nat>)
      requires |resultList| == |txs| && WellFormed(B()) && Transfers(B(), batch) && Distinct(batch)
      requires forall k | 0 <= k < |batch| :: resultList[batch[k]].None?
      modifies `resultList, `gasPool, `clockReads
      ensures |resultList| == |txs|
      ensures forall i | 0 <= i < |txs| && i !in batch :: resultList[i] == old(resultList)[i]
      ensures AllPlausible(B(), state, resultList, batch)
      ensures gasPool + Charges(B(), resultList, batch) <= old(gasPool)
      ensures Steady() ==> gasPool + Charges(B(), resultList, batch) == old(gasPool)
      ensures Steady() && old(gasPool) >= Need(B(), batch) ==>
                forall k | 0 <= k < |batch| :: resultList[batch[k]] == Some(Expected(B(), state, batch[k]))
    {
      hide Plausible, Charge, Charges, NeedOf, Need, Expected, WellFormed, Kinds, Dispatched, AllPlausible;
      ghost var b, steady := B(), Steady();
      var k := 0;
      DispatchStart(b, state, !steady, gasPool, resultList, batch);
      while k < |batch|
        invariant 0 <= k <= |batch| && |resultList| == |txs|
        invariant forall i | 0 <= i < |txs| && i !in batch :: resultList[i] == old(resultList)[i]
        invariant forall j | k <= j < |batch| :: resultList[batch[j]].None?
        invariant Dispatched(b, state, !steady, old(gasPool), gasPool, resultList, batch, k)
      {
        ghost var before, pool := resultList, gasPool;
        var stop := DispatchOne(batch[k]);
        DispatchStep(b, state, !steady, old(gasPool), pool, gasPool, before, resultList, batch, k);
        k := k + 1;
        if stop {
          break;
        }
      }
      DispatchDone(b, state, !steady, old(gasPool), gasPool, resultList, batch, k);
    }

    /** Adds a receipt for a transaction that went through, and its gas. */
    method Record(idx: nat, gasUsed: nat)
      requires Valid() && idx < |txs| && idx !in gasOf && gasPool + blockGasUsed + gasUsed <= MAX_UINT64
      modifies `blockGasUsed, `receipts, `packed, `gasOf
      ensures Valid() && blockGasUsed == old(blockGasUsed) + gasUsed && gasOf == old(gasOf)[idx := gasUsed]
      ensures packed == old(packed) + [idx]
      ensures receipts == old(receipts) + [Receipt(txs[idx].hash, gasUsed, blockGasUsed)]
    {
      hide WellFormed, Matches, Kinds, GasSum;
      blockGasUsed := blockGasUsed + gasUsed;
      var receipt := Receipt(txs[idx].hash, gasUsed, blockGasUsed);
      MatchesAppend(txs, gasOf, packed, receipts, idx, receipt);
      GasSumAppend(receipts, receipt);
      receipts := receipts + [receipt];
      packed := packed + [idx];
      gasOf := gasOf[idx := gasUsed];
    }

    /** Folds one result into the ledger. */
    method MergeResult(idx: nat, ghost start: State)
      requires Valid() && idx < |txs| && txs[idx].to.Some? && idx !in gasOf
      requires Plausible(B(), start, idx, resultList[idx])
      requires gasPool + blockGasUsed + Charge(B(), idx, resultList[idx]) <= MAX_UINT64
      modifies `state, `gasPool, `blockGasUsed, `earnings, `receipts, `packed, `poppedAddresses, `gasOf
      ensures Valid() && W() == MergeOne(B(), old(W()), idx, resultList[idx])
      ensures gasPool + blockGasUsed == old(gasPool + blockGasUsed) + Charge(B(), idx, resultList[idx])
      ensures poppedAddresses == old(poppedAddresses) +
                (if resultList[idx].Some? && resultList[idx].value.Failed? &&
                    resultList[idx].value.error in {GasPoolEmpty, NonceTooHigh}
                 then {txs[idx].from} else {})
      ensures gasOf.Keys <= old(gasOf).Keys + {idx}
    {
      hide WellFormed, Matches, Merge, Kinds, GasSum;
      match resultList[idx]
      case None =>
      case Some(Done(from, to, gasUsed, fee)) =>
        Record(idx, gasUsed);
        state := Merge(state, txs[idx], from, to);
        earnings := earnings + fee;
      case Some(Failed(error, refund)) =>
        if refund {
          AddGas(txs[idx].intrinsicGas.value);
        }
        if PopsSender(error) {
          poppedAddresses := poppedAddresses + {txs[idx].from};
        }
    }

    /** Folds the results of a batch into the ledger, in batch order. */
    method BatchMerge(batch: seq<nat>, ghost start: State)
      requires Valid() && Transfers(B(), batch) && Distinct(batch)
      requires AllPlausible(B(), start, resultList, batch)
      requires forall k | 0 <= k < |batch| :: batch[k] !in gasOf
      requires gasPool + blockGasUsed + Charges(B(), resultList, batch) <= MAX_UINT64
      modifies `state, `gasPool, `blockGasUsed, `earnings, `receipts, `packed, `poppedAddresses, `gasOf
      ensures Valid() && W() == MergeAll(B(), old(W()), resultList, batch) && old(poppedAddresses) <= poppedAddresses
      ensures gasOf.Keys <= old(gasOf).Keys + Elements(batch)
    {
      hide Plausible, MergeOne, Charge, WellFormed, Matches;
      ghost var b := B();
      for k := 0 to |batch|
        invariant Valid() && Transfers(b, batch[k..])
        invariant MergeAll(b, W(), resultList, batch[k..]) == MergeAll(b, old(W()), resultList, batch)
        invariant gasPool + blockGasUsed + Charges(b, resultList, batch[k..]) <= MAX_UINT64
        invariant old(poppedAddresses) <= poppedAddresses
        invariant forall j | k <= j < |batch| :: batch[j] !in gasOf
        invariant gasOf.Keys <= old(gasOf).Keys + Elements(batch)
      {
        assert batch[k..][0] == batch[k] && batch[k..][1..] == batch[k + 1..];
        assert batch[k] in Elements(batch);
        RecipientKnown(b, batch, k);
        MergeResult(batch[k], start);
      }
    }

    /** Dispatches and merges one batch of transfers. */
    method ExecuteBatch(batch: seq<nat>)
      requires Valid() && Transfers(B(), batch) && Distinct(batch) && Independent(B(), batch)
      requires forall k | 0 <= k < |batch| :: resultList[batch[k]].None? && batch[k] !in gasOf
      modifies this
      ensures Valid() && BatchOutcome(B(), !Steady(), old(W()), W(), batch) && old(poppedAddresses) <= poppedAddresses
      ensures forall i | 0 <= i < |txs| && i !in batch :: resultList[i] == old(resultList)[i]
      ensures gasOf.Keys <= old(gasOf).Keys + Elements(batch)
    {
      hide WellFormed, Plausible, Expected, Matches;
      ghost var w := W();
      Dispatch(batch);
      ghost var mid := W();
      BatchMerge(batch, state);
      BatchSettles(B(), !Steady(), w, mid, resultList, batch);
    }

    /** Runs one contract call alone, unless the deadline has passed. If the call runs, its state is the new one
        and it gets a receipt for the gas it used, up to its limit; an error leaves the state as it was. */
    method ExecuteContractTransaction(idx: nat)
      requires Valid() && idx < |txs| && idx !in gasOf
      modifies this
      ensures Valid() && resultList == old(resultList)
      ensures W() == CallStep(B(), old(W()), idx) || (!Steady() && W() == old(W()))
      ensures packNewBlock && clock(old(clockReads)) ==> W() == old(W())
      ensures !(packNewBlock && clock(old(clockReads))) && old(gasPool) >= txs[idx].gas ==>
                match call(txs[idx], old(state))
                case Ran(s, g) =>
                  && state == s && gasPool == old(gasPool) - Min(g, txs[idx].gas)
                  && blockGasUsed == old(blockGasUsed) + Min(g, txs[idx].gas) && packed == old(packed) + [idx]
                  && receipts == old(receipts) + [Receipt(txs[idx].hash, Min(g, txs[idx].gas), blockGasUsed)]
                case Refused(kept) =>
                  && state == old(state) && gasPool == old(gasPool) - Min(kept, txs[idx].gas)
                  && blockGasUsed == old(blockGasUsed) && packed == old(packed) && receipts == old(receipts)
      ensures old(gasPool) < txs[idx].gas ==> W() == old(W()) && packed == old(packed) && receipts == old(receipts)
      ensures earnings == old(earnings) && poppedAddresses == old(poppedAddresses)
      ensures gasOf.Keys <= old(gasOf).Keys + {idx}
    {
      hide WellFormed, Matches, Kinds, GasSum;
      var timeout := IsTimeout();
      if timeout {
        return;
      }
      var tx := txs[idx];
      if gasPool < tx.gas {
        return;
      }
      match call(tx, state)
      case Refused(gasKept) =>
        gasPool := gasPool - Min(gasKept, tx.gas);
      case Ran(state', gasUsed') =>
        var gasUsed := Min(gasUsed', tx.gas);
        state := state';
        gasPool := gasPool - gasUsed;
        Record(idx, gasUsed);
    }

    /** Nothing has run yet. */
    ghost predicate Unstarted()
      reads this
    {
      && receipts == [] && packed == [] && gasOf == map[] && earnings == 0
      && forall i | 0 <= i < |resultList| :: resultList[i].None?
    }

    /** Executes one level of the graph: a contract alone, or transfers side by side. */
    method ExecuteLevel(level: seq<nat>, contracts: set<nat>, ghost w0: World, ghost order: seq<nat>)
      requires Valid() && Progress(B(), !Steady(), w0, W(), order)
      requires |level| > 0 && Indices(B(), level) && Distinct(order + level)
      requires forall p, q | 0 <= p < q < |level| :: !Conflict(B().ks[level[p]], B().ks[level[q]])
      requires ContractAlone(B(), level)
      requires forall i :: i in contracts <==> 0 <= i < |txs| && B().ks[i].Contract?
      requires forall k | 0 <= k < |level| :: resultList[level[k]].None? && level[k] !in gasOf
      modifies this
      ensures Valid() && Progress(B(), !Steady(), w0, W(), order + level) && old(poppedAddresses) <= poppedAddresses
      ensures forall i | 0 <= i < |txs| && i !in level :: resultList[i] == old(resultList)[i]
      ensures gasOf.Keys <= old(gasOf).Keys + Elements(level)
    {
      hide WellFormed, Matches, Kinds, Conflict;
      ghost var b, w := B(), W();
      if |level| == 1 && level[0] in contracts {
        assert level == [level[0]];
        ExecuteContractTransaction(level[0]);
        AdvanceCall(b, !Steady(), w0, w, W(), order, level[0]);
      } else {
        LevelOfTransfers(b, level);
        DistinctTail(order, level);
        ExecuteBatch(level);
        AdvanceBatch(b, !Steady(), w0, w, W(), order, level);
      }
    }

    /** What the batch loop keeps: the ledger is that of the transactions handed out so far, those
        came in an order that keeps conflicts, and the rest is untouched. */
    ghost predicate Peeled(dag: Dag, w0: World, order: seq<nat>)
      reads this, dag
    {
      && Valid() && Indices(B(), order) && Progress(B(), !Steady(), w0, W(), order)
      && Distinct(order) && KeepsConflicts(B(), order) && RootsOut(B().ks, Elements(order))
      && dag.Valid() && dag.Edges() == GraphOf(B().ks) && dag.size == |txs| && dag.returned == Elements(order)
      && (forall i | 0 <= i < |txs| && i !in order :: resultList[i].None?)
      && gasOf.Keys <= Elements(order)
    }

    /** Takes the next level off the graph. */
    method TakeLevel(dag: Dag, ghost w0: World, ghost order: seq<nat>) returns (level: seq<nat>)
      requires Peeled(dag, w0, order) && ContractsApart(B().ks) && (dag.Fresh() || dag.nextList != [])
      requires exists v :: 0 <= v < |txs| && v !in dag.returned
      modifies dag
      ensures dag.Valid() && dag.Edges() == GraphOf(B().ks) && dag.nextList == level
      ensures dag.returned == Elements(order + level) && level != []
      ensures Indices(B(), level) && Distinct(order + level)
      ensures Indices(B(), order + level) && KeepsConflicts(B(), order + level)
      ensures forall p, q | 0 <= p < q < |level| :: !Conflict(B().ks[level[p]], B().ks[level[q]])
      ensures ContractAlone(B(), level) && RootsOut(B().ks, Elements(order + level))
    {
      hide WellFormed, Matches, Kinds, Conflict, NoGap, GraphOf, Unlocked, Dag.Valid, Dag.Edges, Progress, RootsOut;
      ghost var b := B();
      GraphNeverStuck(b, dag.returned);
      level := dag.Next();
      LevelKeepsConflicts(b, order, level);
      DistinctTail(order, level);
      LevelSharing(b, Elements(order), level);
    }

    /** Builds the graph, before anything has run. */
    method BuildGraph() returns (dag: Dag, contracts: set<nat>)
      requires Valid() && Unstarted()
      ensures fresh(dag) && Peeled(dag, W(), []) && dag.Fresh()
      ensures forall i :: i in contracts <==> 0 <= i < |txs| && B().ks[i].Contract?
    {
      hide WellFormed, Matches, Kinds, GraphOf, Dag.Valid, Dag.Edges, Progress, KeepsConflicts, Distinct, Elements;
      ProgressStart(B(), !Steady(), W());
      var txDag := new TxDag();
      txDag.MakeDagGraph(env, txs);
      dag, contracts := txDag.dag, txDag.contracts;
    }

    /** Executes a level just taken off the graph. */
    method PeelLevel(dag: Dag, level: seq<nat>, contracts: set<nat>, ghost w0: World, ghost order: seq<nat>)
      requires Valid() && Indices(B(), level) && ContractAlone(B(), level) && RootsOut(B().ks, Elements(order + level))
      requires Indices(B(), order) && Progress(B(), !Steady(), w0, W(), order)
      requires forall i | 0 <= i < |txs| && i !in order :: resultList[i].None?
      requires gasOf.Keys <= Elements(order) && |level| > 0
      requires dag.Valid() && dag.Edges() == GraphOf(B().ks) && dag.size == |txs|
      requires dag.returned == Elements(order + level) && Distinct(order + level)
      requires Indices(B(), order + level) && KeepsConflicts(B(), order + level)
      requires forall p, q | 0 <= p < q < |level| :: !Conflict(B().ks[level[p]], B().ks[level[q]])
      requires forall i :: i in contracts <==> 0 <= i < |txs| && B().ks[i].Contract?
      modifies this
      ensures Peeled(dag, w0, order + level) && |order + level| <= |txs|
    {
      hide WellFormed, Matches, Kinds, Conflict, GraphOf, Dag.Valid, Dag.Edges, Progress, KeepsConflicts, Distinct;
      hide RootsOut, ContractAlone;
      DistinctTail(order, level);
      DistinctBounded(B(), order + level);
      ExecuteLevel(level, contracts, w0, order);
    }

    /** The batch loop. `order` is the order in which the transactions were handed out. */
    method ExecuteLevels() returns (ghost order: seq<nat>)
      requires Valid() && Unstarted() && ContractsApart(B().ks)
      modifies this
      ensures Valid() && Progress(B(), !Steady(), old(W()), W(), order)
      ensures Steady() ==> Permutes(order, |txs|) && KeepsConflicts(B(), order)
    {
      hide WellFormed, Matches, Kinds, Conflict, NoGap, GraphOf, Dag.Valid, Dag.Edges;
      hide Progress, KeepsConflicts, Distinct, Permutes, RootsOut, ContractsApart;
      ghost var w0 := W();
      var dag, contracts := BuildGraph();
      order := [];
      var timeout := IsTimeout();
      var more := dag.HasNext();
      while !timeout && more
        invariant fresh(dag) && Peeled(dag, w0, order) && |order| <= |txs|
        invariant more <==> exists v :: 0 <= v < |txs| && v !in dag.returned
        invariant dag.Fresh() || dag.nextList != []
        invariant Steady() ==> !timeout
        decreases |txs| - |order|
      {
        var parallelTxIdxs := TakeLevel(dag, w0, order);
        if |parallelTxIdxs| <= 0 {
          break;
        }
        PeelLevel(dag, parallelTxIdxs, contracts, w0, order);
        order := order + parallelTxIdxs;
        timeout := IsTimeout();
        more := dag.HasNext();
      }
      if !more {
        AllHandedOut(B(), order);
      }
    }

    /** Pays the fees of all transfers to the miner. */
    method AddMinerEarnings()
      modifies `state
      ensures W() == CreditMiner(old(W()), coinbase)
      ensures forall a :: Moves(Get(old(state), a), Get(state, a), false, a == coinbase, earnings, 0)
    {
      if earnings > 0 {
        var miner := Get(state, coinbase);
        state := Put(state, coinbase, miner.(balance := miner.balance + earnings));
      }
    }

    /** Executes the whole list. On a received block with gas for all, or packing a new one as long as no
        deadline passes and no sender is left out, the ledger ends exactly as in list order with the miner
        paid at the end. On a list of transfers, in every mode and however the deadline falls, funds and gas
        are conserved. */
    method ExecuteTransactions()
      requires Valid() && Unstarted() && ContractsApart(B().ks)
      modifies this
      ensures Valid()
      ensures Steady() && GasSuffices(B(), old(gasPool)) ==>
                W() == CreditMiner(Run(B(), old(W()), Span(0, |txs|)), coinbase)
      ensures NoContracts(B()) && NonNegative(old(state)) ==>
                Total(state) == Total(old(state)) && NonNegative(state)
      ensures gasPool + blockGasUsed <= old(gasPool + blockGasUsed)
      ensures NoContracts(B()) && Steady() ==> gasPool + blockGasUsed == old(gasPool + blockGasUsed)
    {
      hide WellFormed, Matches, Kinds;
      ghost var b, w0 := B(), W();
      if |txs| > 0 {
        ghost var order := ExecuteLevels();
        if Steady() {
          OrderIrrelevant(b, w0, W(), order);
        }
        CreditKeepsFunds(W(), coinbase);
        AddMinerEarnings();
      }
    }
  }

  /** Errors after which no further transaction of the sender is tried in a new block. */
  predicate PopsSender(error: TxError) {
    error.GasPoolEmpty? || error.NonceTooHigh?
  }

  /** A worker's failure leaves the sender out of a new block exactly if its nonce is ahead, once signature, gas
      limit and full gas have been checked. */
  lemma SenderPoppedIff(s: State, tx: Tx, gas: nat)
    requires tx.to.Some?
    ensures Transfer1(s, tx, gas).Failed? && PopsSender(Transfer1(s, tx, gas).error) <==>
            && tx.from != ZERO_ADDRESS && gas <= tx.gas && Get(s, tx.from).balance >= tx.gas * tx.gasPrice
            && Get(s, tx.from).nonce < tx.nonce
  {
  }

  /** The fees of the transfers go to the miner in one payment, if there are any. */
  function CreditMiner(w: World, coinbase: Address): World {
    if w.earnings > 0 then
      var miner := Get(w.state, coinbase);
      w.(state := Put(w.state, coinbase, miner.(balance := miner.balance + w.earnings)))
    else w
  }

  lemma CreditKeepsFunds(w: World, coinbase: Address)
    ensures Total(CreditMiner(w, coinbase).state) == Total(w.state) + w.earnings
    ensures NonNegative(w.state) ==> NonNegative(CreditMiner(w, coinbase).state)
  {
    var miner := Get(w.state, coinbase);
    TotalPut(w.state, coinbase, miner.(balance := miner.balance + w.earnings));
  }

  /** The order in which the levels came does not show in the result. */
  lemma OrderIrrelevant(b: Block, w0: World, w: World, order: seq<nat>)
    requires WellFormed(b) && Progress(b, false, w0, w, order)
    requires Permutes(order, |b.txs|) && KeepsConflicts(b, order)
    ensures GasSuffices(b, w0.pool) ==> w == Run(b, w0, Span(0, |b.txs|))
  {
    if GasSuffices(b, w0.pool) {
      NeedWithin(b, order, |b.txs|);
      ReorderedRun(b, w0, order, |b.txs|);
    }
  }

  lemma ProgressStart(b: Block, packing: bool, w0: World)
    requires WellFormed(b)
    ensures Progress(b, packing, w0, w0, []) && Distinct([]) && KeepsConflicts(b, []) && Elements([]) == {}
  {
  }

  lemma GraphNeverStuck(b: Block, done: set<nat>)
    requires WellFormed(b) && exists v :: 0 <= v < |b.txs| && v !in done
    ensures Unlocked(GraphOf(b.ks), done) - done != {}
  {
    AscendingNeverStuck(GraphOf(b.ks), done);
  }

  lemma LevelOfTransfers(b: Block, level: seq<nat>)
    requires WellFormed(b) && Indices(b, level) && ContractAlone(b, level)
    requires forall p, q | 0 <= p < q < |level| :: !Conflict(b.ks[level[p]], b.ks[level[q]])
    requires |level| > 1 || (|level| == 1 && !b.ks[level[0]].Contract?)
    ensures Transfers(b, level) && Independent(b, level)
  {
    hide Conflict;
  }

  lemma AllHandedOut(b: Block, order: seq<nat>)
    requires Indices(b, order) && Distinct(order) && forall v | 0 <= v < |b.txs| :: v in Elements(order)
    ensures Permutes(order, |b.txs|)
  {
    forall v: nat | v < |b.txs|
      ensures v in order
    {
      assert v in Elements(order);
    }
  }

  lemma DistinctTail(x: seq<nat>, y: seq<nat>)
    requires Distinct(x + y)
    ensures Distinct(y) && forall k | 0 <= k < |y| :: y[k] !in x
    ensures Elements(x + y) == Elements(x) + Elements(y)
  {
    forall k | 0 <= k < |y|
      ensures y[k] == (x + y)[|x| + k]
    {
    }
    forall j | 0 <= j < |x|
      ensures x[j] == (x + y)[j]
    {
    }
  }

  lemma DistinctBounded(b: Block, order: seq<nat>)
    requires Distinct(order) && Indices(b, order)
    ensures |order| <= |b.txs|
  {
    DistinctCardinality(order);
    BelowCardinality(|b.txs|);
    assert Elements(order) <= Below(|b.txs|);
    if Elements(order) != Below(|b.txs|) {
      ProperSubsetCardinality(Elements(order), Below(|b.txs|));
    }
  }

  lemma RecipientKnown(b: Block, batch: seq<nat>, k: nat)
    requires WellFormed(b) && Transfers(b, batch) && k < |batch|
    ensures batch[k] < |b.txs| && b.txs[batch[k]].to.Some?
  {
  }

  /** Dispatching on copies and merging has the promised effect of a batch. */
  lemma BatchSettles(b: Block, packing: bool, w: World, mid: World, rs: Results, batch: seq<nat>)
    requires WellFormed(b) && Transfers(b, batch) && Independent(b, batch) && |rs| == |b.txs|
    requires AllPlausible(b, w.state, rs, batch)
    requires mid == w.(pool := mid.pool) && mid.pool + Charges(b, rs, batch) <= w.pool
    requires !packing ==> mid.pool + Charges(b, rs, batch) == w.pool
    requires !packing && w.pool >= Need(b, batch) ==>
               forall k | 0 <= k < |batch| :: rs[batch[k]] == Some(Expected(b, w.state, batch[k]))
    ensures BatchOutcome(b, packing, w, MergeAll(b, mid, rs, batch), batch)
  {
    hide WellFormed, Plausible, Expected;
    MergeKeepsGas(b, w.state, mid, rs, batch);
    if NonNegative(w.state) {
      MergeKeepsFunds(b, w.state, mid, rs, batch);
    }
    if !packing && w.pool >= Need(b, batch) {
      BatchAsRun(b, w.state, w, rs, batch);
      assert mid == w.(pool := w.pool - Charges(b, rs, batch));
    }
  }

  /** The first `k` transfers of a batch have been dispatched, starting with `pool0` gas. */
  ghost predicate Dispatched(b: Block, start: State, packing: bool, pool0: nat, pool: nat, rs: Results, batch: seq<nat>,
                             k: nat)
    requires WellFormed(b) && Transfers(b, batch) && |rs| == |b.txs| && k <= |batch|
  {
    && Transfers(b, batch[..k]) && Transfers(b, batch[k..])
    && (forall j | 0 <= j < k :: Plausible(b, start, batch[j], rs[batch[j]]))
    && pool + Charges(b, rs, batch[..k]) <= pool0
    && (!packing ==> pool + Charges(b, rs, batch[..k]) == pool0)
    && (!packing && pool0 >= Need(b, batch) ==>
          pool >= Need(b, batch[k..]) && forall j | 0 <= j < k :: rs[batch[j]] == Some(Expected(b, start, batch[j])))
  }

  lemma DispatchStart(b: Block, start: State, packing: bool, pool: nat, rs: Results, batch: seq<nat>)
    requires WellFormed(b) && Transfers(b, batch) && |rs| == |b.txs|
    ensures Dispatched(b, start, packing, pool, pool, rs, batch, 0)
  {
    hide WellFormed;
    assert batch[0..] == batch && batch[..0] == [];
  }

  lemma DispatchStep(b: Block, start: State, packing: bool, pool0: nat, pool: nat, pool': nat,
                     rs: Results, rs': Results, batch: seq<nat>, k: nat)
    requires WellFormed(b) && Transfers(b, batch) && Distinct(batch) && |rs| == |b.txs| && k < |batch|
    requires Dispatched(b, start, packing, pool0, pool, rs, batch, k)
    requires |rs'| == |rs| && rs' == rs[batch[k] := rs'[batch[k]]]
    requires Plausible(b, start, batch[k], rs'[batch[k]])
    requires pool' + Charge(b, batch[k], rs'[batch[k]]) <= pool
    requires !packing ==> pool' + Charge(b, batch[k], rs'[batch[k]]) == pool
    requires !packing && pool >= NeedOf(b, batch[k]) ==> rs'[batch[k]] == Some(Expected(b, start, batch[k]))
    ensures Dispatched(b, start, packing, pool0, pool', rs', batch, k + 1)
  {
    ChargesStep(b, rs, rs', batch, k);
    assert batch[k..][0] == batch[k] && batch[k..][1..] == batch[k + 1..];
    assert Charge(b, batch[k], Some(Expected(b, start, batch[k]))) <= NeedOf(b, batch[k]);
    hide Charge, Plausible, Expected, NeedOf, WellFormed;
    assert forall j | 0 <= j < k :: rs'[batch[j]] == rs[batch[j]];
  }

  lemma DispatchDone(b: Block, start: State, packing: bool, pool0: nat, pool: nat, rs: Results, batch: seq<nat>, k: nat)
    requires WellFormed(b) && Transfers(b, batch) && |rs| == |b.txs| && k <= |batch|
    requires Dispatched(b, start, packing, pool0, pool, rs, batch, k) && (packing || k == |batch|)
    requires forall j | k <= j < |batch| :: rs[batch[j]].None?
    ensures AllPlausible(b, start, rs, batch)
    ensures pool + Charges(b, rs, batch) <= pool0
    ensures !packing ==> pool + Charges(b, rs, batch) == pool0
    ensures !packing && pool0 >= Need(b, batch) ==>
              forall j | 0 <= j < |batch| :: rs[batch[j]] == Some(Expected(b, start, batch[j]))
  {
    SilentTail(b, rs, batch, k);
    hide Charge, Expected, NeedOf, WellFormed;
    assert batch[..|batch|] == batch;
  }

  lemma ChargesStep(b: Block, rs: Results, rs': Results, batch: seq<nat>, k: nat)
    requires WellFormed(b) && Transfers(b, batch) && Distinct(batch) && k < |batch|
    requires |rs| == |b.txs| && |rs'| == |rs| && rs' == rs[batch[k] := rs'[batch[k]]]
    ensures Transfers(b, batch[..k]) && Transfers(b, batch[..k + 1])
    ensures Charges(b, rs', batch[..k + 1]) == Charges(b, rs, batch[..k]) + Charge(b, batch[k], rs'[batch[k]])
  {
    assert batch[..k + 1] == batch[..k] + [batch[k]];
    ChargesConcat(b, rs', batch[..k], [batch[k]]);
    ChargesSame(b, rs, rs', batch[..k]);
  }

  lemma {:induction false} ChargesConcat(b: Block, rs: Results, x: seq<nat>, y: seq<nat>)
    requires WellFormed(b) && Transfers(b, x) && Transfers(b, y) && |rs| == |b.txs|
    ensures Transfers(b, x + y) && Charges(b, rs, x + y) == Charges(b, rs, x) + Charges(b, rs, y)
    decreases |x|
  {
    if x == [] {
      assert x + y == y;
    } else {
      ChargesConcat(b, rs, x[1..], y);
      assert (x + y)[1..] == x[1..] + y;
    }
  }

  lemma {:induction false} ChargesSame(b: Block, rs: Results, rs': Results, batch: seq<nat>)
    requires WellFormed(b) && Transfers(b, batch) && |rs| == |b.txs| == |rs'|
    requires forall k | 0 <= k < |batch| :: rs'[batch[k]] == rs[batch[k]]
    ensures Charges(b, rs', batch) == Charges(b, rs, batch)
    decreases |batch|
  {
    if batch != [] {
      ChargesSame(b, rs, rs', batch[1..]);
    }
  }

  /** The part of a batch the deadline cut off holds no gas. */
  lemma SilentTail(b: Block, rs: Results, batch: seq<nat>, k: nat)
    requires WellFormed(b) && Transfers(b, batch) && |rs| == |b.txs| && k <= |batch|
    requires forall j | k <= j < |batch| :: rs[batch[j]].None?
    ensures Transfers(b, batch[..k]) && Charges(b, rs, batch) == Charges(b, rs, batch[..k])
    decreases |batch| - k
  {
    assert batch[..k] + batch[k..] == batch;
    ChargesConcat(b, rs, batch[..k], batch[k..]);
    if k < |batch| {
      SilentTail(b, rs, batch, k + 1);
      assert batch[k..][1..] == batch[k + 1..];
      assert batch[..k + 1] == batch[..k] + [batch[k]];
      ChargesConcat(b, rs, batch[..k], [batch[k]]);
    }
  }

  /** Processes the transactions of a received block: executes them in batches and returns the new
      state, the receipts in list order and the gas used. */
  method Process(env: CodeView, txs: seq<Tx>, call: (Tx, State) -> CallOutcome, coinbase: Address,
                 state: State, gasLimit: nat)
    returns (state': State, receipts: seq<Receipt>, usedGas: nat)
    requires gasLimit <= MAX_UINT64 && DistinctHashes(txs)
    requires forall i | 0 <= i < |txs| && !Resolved(txs[i]) :: txs[i].to.Some?
    requires ContractsApart(Kinds(env, txs))
    ensures var b := Block(txs, Kinds(env, txs), call);
            GasSuffices(b, gasLimit) ==>
              var serial := Run(b, World(state, gasLimit, 0, 0, map[]), Span(0, |txs|));
              && state' == CreditMiner(serial, coinbase).state
              && usedGas == serial.used
              && receipts == SerialReceipts(txs, serial.gasOf, |txs|)
              && usedGas == GasBefore(serial.gasOf, |txs|)
    ensures ListOrder(txs, receipts) && RunningTotals(receipts) && usedGas == GasSum(receipts)
    ensures receipts != [] ==> receipts[|receipts| - 1].cumulativeGasUsed == usedGas
    ensures NoContracts(Block(txs, Kinds(env, txs), call)) && NonNegative(state) ==>
              Total(state') == Total(state) && NonNegative(state')
  {
    hide Kinds, Matches, Run, ListOrder, RunningTotals, Count;
    var ctx := new ParallelContext(env, txs, call, coinbase, false, _ => false, state, gasLimit);
    ctx.ExecuteTransactions();
    receipts := SortReceipts(txs, ctx.receipts, ctx.gasOf, ctx.packed);
    SortKeepsReceipts(txs, ctx.gasOf, ctx.packed, ctx.receipts);
    state', usedGas := ctx.state, ctx.blockGasUsed;
  }
}
