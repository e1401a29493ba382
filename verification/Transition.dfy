/** The transaction-at-a-time processor, for blocks of plain transfers, and how the batch executor
    relates to it.

    This processor buys all of a transaction's gas first, moves the value, refunds what was not used,
    and pays the miner at once. It rejects the whole block at the first transaction that fails. */
module Transition {
  import opened Common
  import opened TxDag
  import opened Ledger
  import opened Levels
  import opened Executor

  datatype Outcome = Rejected(error: TxError) | Applied(state: State, pool: nat, gasUsed: nat)

  function AddBalance(s: State, a: Address, amount: int): State {
    var account := Get(s, a);
    Put(s, a, account.(balance := account.balance + amount))
  }

  function BumpNonce(s: State, a: Address): State {
    var account := Get(s, a);
    Put(s, a, account.(nonce := account.nonce + 1))
  }

  /** One transfer through the state transition, step by step. */
  function ApplyTransfer(s: State, pool: nat, tx: Tx, coinbase: Address): Outcome
    requires tx.to.Some?
  {
    var from := Get(s, tx.from);
    var bought := tx.gas * tx.gasPrice;
    if from.nonce < tx.nonce then Rejected(NonceTooHigh)
    else if from.nonce > tx.nonce then Rejected(NonceTooLow)
    else if from.balance < bought then Rejected(InsufficientBalance)
    else if pool < tx.gas then Rejected(GasPoolEmpty)
    else if tx.intrinsicGas.None? || tx.gas < tx.intrinsicGas.value then Rejected(OutOfGas)
    else
      var gas := tx.intrinsicGas.value;
      var s1 := BumpNonce(AddBalance(s, tx.from, 0 - bought), tx.from);
      if tx.value != 0 && Get(s1, tx.from).balance < tx.value then Rejected(InsufficientBalance)
      else
        var s2 := AddBalance(AddBalance(s1, tx.from, 0 - tx.value), tx.to.value, tx.value);
        var s3 := AddBalance(s2, tx.from, (tx.gas - gas) * tx.gasPrice);
        Applied(AddBalance(s3, coinbase, gas * tx.gasPrice), pool - gas, gas)
  }

  /** The same account contents everywhere. */
  ghost predicate Same(s: State, s': State) {
    forall a :: Get(s, a) == Get(s', a)
  }

  lemma FeeSplits(tx: Tx, gas: nat)
    requires gas <= tx.gas
    ensures tx.gas * tx.gasPrice == (tx.gas - gas) * tx.gasPrice + gas * tx.gasPrice
  {
  }

  lemma AddBalanceAt(s: State, a: Address, amount: int, c: Address)
    ensures Get(AddBalance(s, a, amount), c) ==
            if c == a then Get(s, c).(balance := Get(s, c).balance + amount) else Get(s, c)
  {
  }

  lemma BumpNonceAt(s: State, a: Address, c: Address)
    ensures Get(BumpNonce(s, a), c) == if c == a then Get(s, c).(nonce := Get(s, c).nonce + 1) else Get(s, c)
  {
  }

  /** What a transfer does to account `c`, fee included. */
  function Moved(x: Account, c: Address, from: Address, to: Address, coinbase: Address, value: int, fee: int): Account {
    Account(x.balance - (if c == from then value + fee else 0) + (if c == to then value else 0)
            + (if c == coinbase then fee else 0),
            x.nonce + if c == from then 1 else 0,
            x.rest)
  }

  lemma TransitionMoves(s: State, from: Address, to: Address, coinbase: Address,
                        value: int, bought: int, refund: int, fee: int, c: Address)
    requires bought == refund + fee
    ensures var s1 := BumpNonce(AddBalance(s, from, 0 - bought), from);
            var s2 := AddBalance(AddBalance(s1, from, 0 - value), to, value);
            var s3 := AddBalance(s2, from, refund);
            Get(AddBalance(s3, coinbase, fee), c) == Moved(Get(s, c), c, from, to, coinbase, value, fee)
  {
    hide Get, AddBalance, BumpNonce;
    var s0 := AddBalance(s, from, 0 - bought);
    var s1 := BumpNonce(s0, from);
    var s2a := AddBalance(s1, from, 0 - value);
    var s2 := AddBalance(s2a, to, value);
    var s3 := AddBalance(s2, from, refund);
    AddBalanceAt(s, from, 0 - bought, c);
    BumpNonceAt(s0, from, c);
    AddBalanceAt(s1, from, 0 - value, c);
    AddBalanceAt(s2a, to, value, c);
    AddBalanceAt(s2, from, refund, c);
    AddBalanceAt(s3, coinbase, fee, c);
  }

  lemma MergeMoves(s: State, tx: Tx, gas: nat, coinbase: Address, c: Address)
    requires tx.to.Some? && Transfer1(s, tx, gas).Done?
    ensures var r := Transfer1(s, tx, gas);
            Get(AddBalance(Merge(s, tx, r.from, r.to), coinbase, r.fee), c) ==
            Moved(Get(s, c), c, tx.from, tx.to.value, coinbase, tx.value, r.fee)
  {
    var r := Transfer1(s, tx, gas);
    AddBalanceAt(Merge(s, tx, r.from, r.to), coinbase, r.fee, c);
    hide AddBalance;
  }

  /** A transfer goes through the state transition exactly when the pool holds its whole gas limit, the batch
      executor's checks pass, and the sender could also pay value and full gas together. */
  lemma TransferAccepted(s: State, pool: nat, tx: Tx, coinbase: Address)
    requires tx.to.Some? && Resolved(tx)
    ensures ApplyTransfer(s, pool, tx, coinbase).Applied? <==>
            && pool >= tx.gas && tx.intrinsicGas.Some? && Transfer1(s, tx, tx.intrinsicGas.value).Done?
            && Get(s, tx.from).balance >= tx.gas * tx.gasPrice + tx.value
  {
    hide AddBalance, BumpNonce;
    var gas := if tx.intrinsicGas.Some? then tx.intrinsicGas.value else 0;
    if tx.gas >= gas {
      FeeSplits(tx, gas);
      var bought := tx.gas * tx.gasPrice;
      assert (tx.gas - gas) * tx.gasPrice >= 0;
      AddBalanceAt(s, tx.from, 0 - bought, tx.from);
      BumpNonceAt(AddBalance(s, tx.from, 0 - bought), tx.from, tx.from);
    }
  }

  /** A transfer both accept leaves the same accounts, the miner's fee included. */
  lemma TransferAgrees(s: State, pool: nat, tx: Tx, coinbase: Address)
    requires tx.to.Some? && Resolved(tx)
    requires ApplyTransfer(s, pool, tx, coinbase).Applied?
    ensures var r := Transfer1(s, tx, tx.intrinsicGas.value);
            var o := ApplyTransfer(s, pool, tx, coinbase);
            r.Done? && o.gasUsed == r.gasUsed == tx.intrinsicGas.value && o.pool == pool - r.gasUsed &&
            forall c :: Get(o.state, c) == Moved(Get(s, c), c, tx.from, tx.to.value, coinbase, tx.value, r.fee)
  {
    hide AddBalance, BumpNonce, Moved;
    TransferAccepted(s, pool, tx, coinbase);
    var gas := tx.intrinsicGas.value;
    FeeSplits(tx, gas);
    var bought, refund, fee := tx.gas * tx.gasPrice, (tx.gas - gas) * tx.gasPrice, gas * tx.gasPrice;
    var o := ApplyTransfer(s, pool, tx, coinbase);
    forall c
      ensures Get(o.state, c) == Moved(Get(s, c), c, tx.from, tx.to.value, coinbase, tx.value, fee)
    {
      hide AddBalance, BumpNonce, Moved, Get, Transfer1;
      TransitionMoves(s, tx.from, tx.to.value, coinbase, tx.value, bought, refund, fee, c);
    }
  }

  // ----- A whole block

  /** The first `n` transfers in turn, or nothing if one of them is rejected. */
  function InTurn(b: Block, coinbase: Address, s: State, pool: nat, n: nat): Option<World>
    requires WellFormed(b) && NoContracts(b) && n <= |b.txs|
  {
    if n == 0 then Some(World(s, pool, 0, 0, map[]))
    else
      var before := InTurn(b, coinbase, s, pool, n - 1);
      if before.None? || !Resolved(b.txs[n - 1]) then None
      else
        match ApplyTransfer(before.value.state, before.value.pool, b.txs[n - 1], coinbase)
        case Rejected(_) => None
        case Applied(state, pool, gas) =>
          Some(World(state, pool, before.value.used + gas, 0, before.value.gasOf[n - 1 := gas]))
  }

  /** The fees of the first `n` transfers. */
  function Fees(b: Block, n: nat): nat
    requires n <= |b.txs|
  {
    if n == 0 then 0
    else
      var tx := b.txs[n - 1];
      Fees(b, n - 1) + if tx.intrinsicGas.Some? then tx.intrinsicGas.value * tx.gasPrice else 0
  }

  /** Before its transfer at `i` the miner could pay for it without the fees earned in this block: the full
      gas, and value and fee. */
  ghost predicate CoveredAt(b: Block, coinbase: Address, s: State, pool: nat, i: nat)
    requires WellFormed(b) && NoContracts(b) && i < |b.txs| && InTurn(b, coinbase, s, pool, i).Some?
  {
    var tx := b.txs[i];
    var own := Get(InTurn(b, coinbase, s, pool, i).value.state, coinbase).balance - Fees(b, i);
    tx.from == coinbase && tx.intrinsicGas.Some? ==>
      own >= tx.gas * tx.gasPrice && own >= tx.value + tx.intrinsicGas.value * tx.gasPrice
  }

  ghost predicate MinerCovers(b: Block, coinbase: Address, s: State, pool: nat, n: nat)
    requires WellFormed(b) && NoContracts(b) && n <= |b.txs|
  {
    forall i | 0 <= i < n && InTurn(b, coinbase, s, pool, i).Some? :: CoveredAt(b, coinbase, s, pool, i)
  }

  /** The two ledgers agree, except that one has yet to pay the miner. */
  ghost predicate Agree(v: World, w: World, coinbase: Address) {
    && v.pool == w.pool && v.used == w.used && v.gasOf == w.gasOf
    && forall c :: Get(v.state, c) == Owed(Get(w.state, c), c, coinbase, w.earnings)
  }

  function Owed(x: Account, c: Address, coinbase: Address, earnings: nat): Account {
    x.(balance := x.balance + if c == coinbase then earnings else 0)
  }

  lemma AgreeAt(v: State, w: State, tx: Tx, gas: nat, coinbase: Address, earnings: nat, o: Account, c: Address)
    requires tx.to.Some? && Transfer1(w, tx, gas).Done?
    requires Get(v, c) == Owed(Get(w, c), c, coinbase, earnings)
    requires o == Moved(Get(v, c), c, tx.from, tx.to.value, coinbase, tx.value, gas * tx.gasPrice)
    ensures var r := Transfer1(w, tx, gas);
            o == Owed(Get(Merge(w, tx, r.from, r.to), c), c, coinbase, earnings + r.fee)
  {
    var r := Transfer1(w, tx, gas);
    MergeMoves(w, tx, gas, coinbase, c);
    AddBalanceAt(Merge(w, tx, r.from, r.to), coinbase, r.fee, c);
    hide Merge, AddBalance, Get;
  }

  /** Where the checks on the sender pass without the fees, both ledgers take the same step. */
  lemma AgreeStep(b: Block, coinbase: Address, v: World, w: World, i: nat)
    requires WellFormed(b) && i < |b.txs| && b.ks[i].Transfer?
    requires Agree(v, w, coinbase) && ApplyTransfer(v.state, v.pool, b.txs[i], coinbase).Applied?
    requires b.txs[i].intrinsicGas.Some? && Transfer1(w.state, b.txs[i], b.txs[i].intrinsicGas.value).Done?
    ensures var o := ApplyTransfer(v.state, v.pool, b.txs[i], coinbase);
            Agree(World(o.state, o.pool, v.used + o.gasUsed, 0, v.gasOf[i := o.gasUsed]), Step(b, w, i), coinbase)
    ensures NeedOf(b, i) <= w.pool && Step(b, w, i).pool == w.pool - NeedOf(b, i)
    ensures Step(b, w, i).earnings == w.earnings + b.txs[i].intrinsicGas.value * b.txs[i].gasPrice
  {
    hide AddBalance, BumpNonce, Merge, Moved, Get;
    var tx := b.txs[i];
    var o := ApplyTransfer(v.state, v.pool, tx, coinbase);
    TransferAgrees(v.state, v.pool, tx, coinbase);
    var gas := tx.intrinsicGas.value;
    var w' := Step(b, w, i);
    forall c
      ensures Get(o.state, c) == Owed(Get(w'.state, c), c, coinbase, w'.earnings)
    {
      AgreeAt(v.state, w.state, tx, gas, coinbase, w.earnings, Get(o.state, c), c);
    }
  }

  /** An accepted transfer also passes the batch executor's checks, unless the miner sends it and needs the
      fees. */
  lemma PassesIffCovered(v: World, w: World, tx: Tx, coinbase: Address)
    requires tx.to.Some? && Resolved(tx) && Agree(v, w, coinbase) && ApplyTransfer(v.state, v.pool, tx, coinbase).Applied?
    ensures tx.intrinsicGas.Some?
    ensures var fee := tx.intrinsicGas.value * tx.gasPrice;
            var own := Get(v.state, coinbase).balance - w.earnings;
            Transfer1(w.state, tx, tx.intrinsicGas.value).Done? <==>
            (tx.from == coinbase ==> own >= tx.gas * tx.gasPrice && own >= tx.value + fee)
  {
    hide AddBalance, BumpNonce, Get;
    TransferAccepted(v.state, v.pool, tx, coinbase);
  }

  lemma AgreeStart(w: World, coinbase: Address)
    requires w.earnings == 0
    ensures Agree(w, w, coinbase)
  {
  }

  /** As long as the miner covers its own transfers, executing in list order for the batch executor agrees
      with one transaction at a time; from the first it does not cover, a success is missing. */
  lemma {:induction false} PrefixAgreesIff(b: Block, coinbase: Address, s: State, pool: nat, n: nat)
    requires WellFormed(b) && NoContracts(b) && n <= |b.txs| && InTurn(b, coinbase, s, pool, n).Some?
    ensures Indices(b, Span(0, n))
    ensures var v, w := InTurn(b, coinbase, s, pool, n).value, Run(b, World(s, pool, 0, 0, map[]), Span(0, n));
            if MinerCovers(b, coinbase, s, pool, n) then
              && Agree(v, w, coinbase) && w.earnings == Fees(b, n)
              && Need(b, Span(0, n)) <= pool && w.pool == pool - Need(b, Span(0, n))
            else exists i | 0 <= i < n :: i !in w.gasOf
    decreases n
  {
    hide ApplyTransfer, Agree, Step, CoveredAt, Transfer1;
    var w0 := World(s, pool, 0, 0, map[]);
    if n == 0 {
      AgreeStart(w0, coinbase);
    } else {
      var m := n - 1;
      PrefixAgreesIff(b, coinbase, s, pool, m);
      var v, w := InTurn(b, coinbase, s, pool, m).value, Run(b, w0, Span(0, m));
      RunConcat(b, w0, Span(0, m), [m]);
      StepGas(b, w, m);
      if MinerCovers(b, coinbase, s, pool, m) {
        CoversMore(b, coinbase, s, pool, m);
        LastStep(b, coinbase, s, pool, v, w, m);
      }
    }
  }

  lemma CoversMore(b: Block, coinbase: Address, s: State, pool: nat, m: nat)
    requires WellFormed(b) && NoContracts(b) && m < |b.txs| && InTurn(b, coinbase, s, pool, m).Some?
    ensures MinerCovers(b, coinbase, s, pool, m + 1) <==>
            MinerCovers(b, coinbase, s, pool, m) && CoveredAt(b, coinbase, s, pool, m)
  {
    hide CoveredAt;
  }

  /** A step records at most its own gas. */
  lemma StepGas(b: Block, w: World, i: nat)
    requires WellFormed(b) && i < |b.txs|
    ensures forall j | j != i :: j in Step(b, w, i).gasOf <==> j in w.gasOf
  {
    hide Transfer1, Merge;
  }

  lemma {:induction false} TurnGas(b: Block, coinbase: Address, s: State, pool: nat, n: nat)
    requires WellFormed(b) && NoContracts(b) && n <= |b.txs| && InTurn(b, coinbase, s, pool, n).Some?
    ensures forall i :: i in InTurn(b, coinbase, s, pool, n).value.gasOf <==> 0 <= i < n
    decreases n
  {
    hide ApplyTransfer;
    if n > 0 {
      TurnGas(b, coinbase, s, pool, n - 1);
    }
  }

  /** The step at `m` after an agreeing prefix. */
  lemma LastStep(b: Block, coinbase: Address, s: State, pool: nat, v: World, w: World, m: nat)
    requires WellFormed(b) && NoContracts(b) && m < |b.txs|
    requires InTurn(b, coinbase, s, pool, m) == Some(v) && InTurn(b, coinbase, s, pool, m + 1).Some?
    requires Agree(v, w, coinbase) && w.earnings == Fees(b, m)
    ensures var v', w' := InTurn(b, coinbase, s, pool, m + 1).value, Step(b, w, m);
            if CoveredAt(b, coinbase, s, pool, m) then
              && Agree(v', w', coinbase) && w'.earnings == Fees(b, m + 1)
              && NeedOf(b, m) <= w.pool && w'.pool == w.pool - NeedOf(b, m)
            else m !in w'.gasOf
  {
    hide ApplyTransfer, Agree;
    var tx := b.txs[m];
    PassesIffCovered(v, w, tx, coinbase);
    if CoveredAt(b, coinbase, s, pool, m) {
      AgreeStep(b, coinbase, v, w, m);
    } else {
      TurnGas(b, coinbase, s, pool, m);
      AgreeGas(v, w, coinbase);
    }
  }

  lemma AgreeGas(v: World, w: World, coinbase: Address)
    requires Agree(v, w, coinbase)
    ensures w.gasOf == v.gasOf
  {
  }

  /** A block of transfers that the transaction-at-a-time processor accepts ends with the same accounts and
      the same gas in the batch executor, if and only if the miner covers each of its own transfers without
      the fees earned in the block; the pool then suffices. */
  lemma AcceptedBlockAgreesIff(b: Block, coinbase: Address, s: State, pool: nat)
    requires WellFormed(b) && NoContracts(b) && InTurn(b, coinbase, s, pool, |b.txs|).Some?
    ensures var v := InTurn(b, coinbase, s, pool, |b.txs|).value;
            var w := CreditMiner(Run(b, World(s, pool, 0, 0, map[]), Span(0, |b.txs|)), coinbase);
            Same(v.state, w.state) && v.used == w.used && v.gasOf == w.gasOf && v.pool == w.pool <==>
            MinerCovers(b, coinbase, s, pool, |b.txs|)
    ensures MinerCovers(b, coinbase, s, pool, |b.txs|) ==> GasSuffices(b, pool)
  {
    hide ApplyTransfer, CoveredAt, InTurn, Run;
    PrefixAgreesIff(b, coinbase, s, pool, |b.txs|);
    TurnGas(b, coinbase, s, pool, |b.txs|);
    var v := InTurn(b, coinbase, s, pool, |b.txs|).value;
    var w := Run(b, World(s, pool, 0, 0, map[]), Span(0, |b.txs|));
    if MinerCovers(b, coinbase, s, pool, |b.txs|) {
      forall c
        ensures Get(CreditMiner(w, coinbase).state, c) == Get(v.state, c)
      {
        assert Get(v.state, c) == Owed(Get(w.state, c), c, coinbase, w.earnings);
      }
    }
  }

  const MINER: Address := 2

  /** Two transfers: the first pays the miner a fee, with the second the miner spends it. */
  function SpentFee(): Block {
    Block([Tx(0, 1, Some(3), 0, 0, 21000, 1, Some(21000)), Tx(1, MINER, Some(3), 0, 21000, 21000, 0, Some(21000))],
          [Kind.Transfer(1, 3), Kind.Transfer(MINER, 3)],
          (tx, s) => Refused(0))
  }

  function Funded(): State {
    map[1 := Account(21000, 0, 0)]
  }

  /** Where the miner sends, agreement can fail. One transaction at a time, a fee earned in this block
      can be spent in it: account 3 receives it. */
  lemma SpentFeeInTurn()
    ensures WellFormed(SpentFee()) && NoContracts(SpentFee())
    ensures var v := InTurn(SpentFee(), MINER, Funded(), 42000, 2); v.Some? && Get(v.value.state, 3).balance == 21000
  {
    hide AddBalance, BumpNonce, ApplyTransfer;
    var b, s := SpentFee(), Funded();
    TransferAccepted(s, 42000, b.txs[0], MINER);
    TransferAgrees(s, 42000, b.txs[0], MINER);
    var v1 := InTurn(b, MINER, s, 42000, 1).value;
    assert Get(v1.state, MINER) == Account(21000, 0, 0) && Get(v1.state, 3) == EMPTY;
    TransferAccepted(v1.state, v1.pool, b.txs[1], MINER);
    TransferAgrees(v1.state, v1.pool, b.txs[1], MINER);
  }

  /** In the batch executor the same fee arrives too late: account 3 receives nothing. */
  lemma SpentFeeInBatches()
    ensures WellFormed(SpentFee())
    ensures var w := Run(SpentFee(), World(Funded(), 42000, 0, 0, map[]), [0, 1]);
            Get(CreditMiner(w, MINER).state, 3).balance == 0
  {
    var b := SpentFee();
    var w0 := World(Funded(), 42000, 0, 0, map[]);
    var w1 := Step(b, w0, 0);
    assert Get(w1.state, MINER) == EMPTY && Get(w1.state, 3) == EMPTY;
    assert Step(b, w1, 1) == w1;
    hide Step;
    assert [0, 1][1..] == [1];
    assert Run(b, w0, [0, 1]) == Run(b, w1, [1]) == Run(b, w1, []);
  }

  /** And one transfer alone can pass in the batch executor and not one at a time: the full gas and
      the value are never asked for together. */
  lemma GasAndValueTogether()
    ensures var s: State := map[1 := Account(42000, 0, 0)];
            var tx := Tx(0, 1, Some(3), 0, 21000, 42000, 1, Some(21000));
            Transfer1(s, tx, 21000).Done? && ApplyTransfer(s, 50000, tx, MINER) == Rejected(InsufficientBalance)
  {
    var s: State := map[1 := Account(42000, 0, 0)];
    AddBalanceAt(s, 1, 0 - 42000, 1);
    BumpNonceAt(AddBalance(s, 1, 0 - 42000), 1, 1);
  }
}
