/** Accounts, plain transfers, and the list-order reading of a block.

    `Run` executes transactions one at a time in a given order; it is the reference that the batch
    executor is compared with. `ReorderedRun` is the heart of that comparison: any order that keeps
    conflicting transactions in list order ends in the same ledger as list order itself. */
module Ledger {
  import opened Common
  import opened Dag
  import opened TxDag

  /** `rest` stands for everything a transfer leaves alone: code and storage, 0 when there is none. */
  datatype Account = Account(balance: int, nonce: nat, rest: nat)

  const EMPTY: Account := Account(0, 0, 0)

  type State = map<Address, Account>

  function Get(s: State, a: Address): Account {
    if a in s then s[a] else EMPTY
  }

  /** Writes an account back; an account left empty is deleted. */
  function Put(s: State, a: Address, account: Account): State {
    if account == EMPTY then s - {a} else s[a := account]
  }

  datatype TxError = OutOfGas | BadSignature | GasPoolEmpty | InsufficientBalance | NonceTooHigh | NonceTooLow

  /** What one transfer worker leaves behind: copies of the accounts to write back, or an error and
      whether the gas taken from the pool has to be returned. */
  datatype Result =
    | Failed(error: TxError, refund: bool)
    | Done(from: Account, to: Account, gasUsed: nat, fee: nat)

  /** One transfer worked out on copies of the accounts in `s`. */
  function Transfer1(s: State, tx: Tx, gas: nat): Result
    requires tx.to.Some?
  {
    var from := Get(s, tx.from);
    if !Resolved(tx) then Failed(BadSignature, true)
    else if tx.gas < gas then Failed(OutOfGas, true)
    else if from.balance < tx.gas * tx.gasPrice then Failed(InsufficientBalance, true)
    else if from.nonce < tx.nonce then Failed(NonceTooHigh, true)
    else if from.nonce > tx.nonce then Failed(NonceTooLow, true)
    else
      var fee := gas * tx.gasPrice;
      if from.balance < tx.value + fee then Failed(InsufficientBalance, true)
      else
        var debited := from.(balance := from.balance - (tx.value + fee), nonce := from.nonce + 1);
        var to := if tx.from == tx.to.value then debited else Get(s, tx.to.value);
        var credited := to.(balance := to.balance + tx.value);
        Done(if tx.from == tx.to.value then credited else debited, credited, gas, fee)
  }

  /** Writes the two copies of a finished transfer back. */
  function Merge(s: State, tx: Tx, from: Account, to: Account): State
    requires tx.to.Some?
  {
    var s1 := if tx.from == tx.to.value then s else Put(s, tx.from, from);
    Put(s1, tx.to.value, to)
  }

  /** A contract call either is refused, keeping some gas of the pool, or runs. */
  datatype CallOutcome = Refused(gasKept: nat) | Ran(state: State, gasUsed: nat)

  /** A block to execute: its transactions, their kinds, and what contract code does. */
  datatype Block = Block(txs: seq<Tx>, ks: seq<Kind>, call: (Tx, State) -> CallOutcome)

  predicate WellFormed(b: Block) {
    && |b.ks| == |b.txs|
    && (forall i | 0 <= i < |b.txs| && !b.ks[i].Contract? :: b.txs[i].to.Some?)
    && (forall i | 0 <= i < |b.txs| :: b.ks[i].Unresolved? <==> !Resolved(b.txs[i]))
    && (forall i | 0 <= i < |b.txs| && b.ks[i].Transfer? ::
          b.ks[i] == Transfer(b.txs[i].from, b.txs[i].to.value))
  }

  /** The account state, the block gas pool, the gas used, the fees owed to the miner, and the gas
      used by each successful transaction. */
  datatype World = World(state: State, pool: nat, used: nat, earnings: nat, gasOf: map<nat, nat>)

  function CallStep(b: Block, w: World, i: nat): World
    requires i < |b.txs|
  {
    var tx := b.txs[i];
    if w.pool < tx.gas then w
    else
      match b.call(tx, w.state)
      case Refused(kept) => w.(pool := w.pool - Min(kept, tx.gas))
      case Ran(state, gas) =>
        var g := Min(gas, tx.gas);
        World(state, w.pool - g, w.used + g, w.earnings, w.gasOf[i := g])
  }

  function TransferStep(b: Block, w: World, i: nat): World
    requires i < |b.txs| && b.txs[i].to.Some?
  {
    var tx := b.txs[i];
    if tx.intrinsicGas.None? || w.pool < tx.intrinsicGas.value then w
    else
      match Transfer1(w.state, tx, tx.intrinsicGas.value)
      case Failed(_, _) => w
      case Done(from, to, gas, fee) =>
        World(Merge(w.state, tx, from, to), w.pool - gas, w.used + gas, w.earnings + fee, w.gasOf[i := gas])
  }

  function Step(b: Block, w: World, i: nat): World
    requires WellFormed(b) && i < |b.txs|
  {
    if b.ks[i].Contract? then CallStep(b, w, i) else TransferStep(b, w, i)
  }

  ghost predicate Indices(b: Block, order: seq<nat>) {
    forall k | 0 <= k < |order| :: order[k] < |b.txs|
  }

  /** Executes the transactions at the given positions one after the other. */
  ghost function Run(b: Block, w: World, order: seq<nat>): World
    requires WellFormed(b) && Indices(b, order)
    decreases |order|
  {
    if order == [] then w else Run(b, Step(b, w, order[0]), order[1..])
  }

  /** The most gas a transaction can draw from the pool. */
  function NeedOf(b: Block, i: nat): nat
    requires i < |b.txs| == |b.ks|
  {
    var tx := b.txs[i];
    if b.ks[i].Contract? then tx.gas else if tx.intrinsicGas.None? then 0 else tx.intrinsicGas.value
  }

  ghost function Need(b: Block, order: seq<nat>): nat
    requires WellFormed(b) && Indices(b, order)
  {
    if order == [] then 0 else NeedOf(b, order[0]) + Need(b, order[1..])
  }

  // ----- Commuting two transactions that do not conflict

  lemma PutCommutes(s: State, a: Address, x: Account, c: Address, y: Account)
    requires a != c
    ensures Put(Put(s, a, x), c, y) == Put(Put(s, c, y), a, x)
  {
  }

  lemma MergeElsewhere(s: State, tx: Tx, from: Account, to: Account, a: Address)
    requires tx.to.Some? && a != tx.from && a != tx.to.value
    ensures Get(Merge(s, tx, from, to), a) == Get(s, a)
  {
  }

  lemma PutMergeCommute(s: State, a: Address, x: Account, tx: Tx, from: Account, to: Account)
    requires tx.to.Some? && a != tx.from && a != tx.to.value
    ensures Put(Merge(s, tx, from, to), a, x) == Merge(Put(s, a, x), tx, from, to)
  {
    hide Put;
    if tx.from != tx.to.value {
      PutCommutes(s, tx.from, from, a, x);
      PutCommutes(Put(s, tx.from, from), tx.to.value, to, a, x);
    } else {
      PutCommutes(s, tx.to.value, to, a, x);
    }
  }

  lemma MergesCommute(s: State, tx1: Tx, f1: Account, t1: Account, tx2: Tx, f2: Account, t2: Account)
    requires tx1.to.Some? && tx2.to.Some?
    requires tx1.from != tx2.from && tx1.from != tx2.to.value
    requires tx1.to.value != tx2.from && tx1.to.value != tx2.to.value
    ensures Merge(Merge(s, tx1, f1, t1), tx2, f2, t2) == Merge(Merge(s, tx2, f2, t2), tx1, f1, t1)
  {
    hide Put;
    if tx2.from != tx2.to.value {
      PutMergeCommute(s, tx2.from, f2, tx1, f1, t1);
      PutMergeCommute(Put(s, tx2.from, f2), tx2.to.value, t2, tx1, f1, t1);
    } else {
      PutMergeCommute(s, tx2.to.value, t2, tx1, f1, t1);
    }
  }

  lemma StepPool(b: Block, w: World, i: nat)
    requires WellFormed(b) && i < |b.txs|
    ensures Step(b, w, i).pool <= w.pool <= Step(b, w, i).pool + NeedOf(b, i)
  {
  }

  lemma StepsCommute(b: Block, w: World, i: nat, j: nat)
    requires WellFormed(b) && i < |b.txs| && j < |b.txs| && i != j
    requires !Conflict(b.ks[i], b.ks[j])
    requires w.pool >= NeedOf(b, i) + NeedOf(b, j)
    ensures Step(b, Step(b, w, i), j) == Step(b, Step(b, w, j), i)
  {
    StepPool(b, w, i);
    StepPool(b, w, j);
    if b.ks[i].Unresolved? {
    } else if b.ks[j].Unresolved? {
    } else {
      TransfersCommute(b, w, i, j);
    }
  }

  lemma TransfersCommute(b: Block, w: World, i: nat, j: nat)
    requires WellFormed(b) && i < |b.txs| && j < |b.txs| && i != j
    requires b.ks[i].Transfer? && b.ks[j].Transfer? && !Conflict(b.ks[i], b.ks[j])
    requires w.pool >= NeedOf(b, i) + NeedOf(b, j)
    ensures Step(b, Step(b, w, i), j) == Step(b, Step(b, w, j), i)
  {
    hide Merge, Put;
    var x, y := b.txs[i], b.txs[j];
    if x.intrinsicGas.Some? && y.intrinsicGas.Some? {
      var rx := Transfer1(w.state, x, x.intrinsicGas.value);
      var ry := Transfer1(w.state, y, y.intrinsicGas.value);
      if rx.Done? {
        ResultElsewhere(w.state, x, rx, y);
      }
      if ry.Done? {
        ResultElsewhere(w.state, y, ry, x);
      }
      if rx.Done? && ry.Done? {
        MergesCommute(w.state, x, rx.from, rx.to, y, ry.from, ry.to);
        assert w.gasOf[i := rx.gasUsed][j := ry.gasUsed] == w.gasOf[j := ry.gasUsed][i := rx.gasUsed];
      }
    }
  }

  /** Writing one transfer back does not change what a transfer on other accounts computes. */
  lemma ResultElsewhere(s: State, tx: Tx, r: Result, other: Tx)
    requires tx.to.Some? && other.to.Some? && r.Done?
    requires tx.from != other.from && tx.from != other.to.value
    requires tx.to.value != other.from && tx.to.value != other.to.value
    ensures forall gas :: Transfer1(Merge(s, tx, r.from, r.to), other, gas) == Transfer1(s, other, gas)
  {
    MergeElsewhere(s, tx, r.from, r.to, other.from);
    MergeElsewhere(s, tx, r.from, r.to, other.to.value);
  }

  // ----- Reordering a whole run

  lemma {:induction false} RunConcat(b: Block, w: World, o1: seq<nat>, o2: seq<nat>)
    requires WellFormed(b) && Indices(b, o1) && Indices(b, o2)
    ensures Indices(b, o1 + o2)
    ensures Run(b, w, o1 + o2) == Run(b, Run(b, w, o1), o2)
    ensures Need(b, o1 + o2) == Need(b, o1) + Need(b, o2)
    decreases |o1|
  {
    if o1 == [] {
      assert o1 + o2 == o2;
    } else {
      RunConcat(b, Step(b, w, o1[0]), o1[1..], o2);
      assert (o1 + o2)[1..] == o1[1..] + o2;
    }
  }

  /** A contract run after others, with gas for it: if the call runs, its state is the new one and it pays for
      the gas it used, up to its limit; if it is refused only gas of the pool is lost. Without gas for it
      nothing happens. */
  lemma ContractRuns(b: Block, w: World, before: seq<nat>, i: nat)
    requires WellFormed(b) && Indices(b, before) && i < |b.txs| && b.ks[i].Contract?
    ensures Indices(b, before + [i])
    ensures var u, v, tx := Run(b, w, before), Run(b, w, before + [i]), b.txs[i];
            if u.pool < tx.gas then v == u
            else
              match b.call(tx, u.state)
              case Ran(s, g) =>
                && v.state == s && v.earnings == u.earnings && v.gasOf == u.gasOf[i := Min(g, tx.gas)]
                && v.used == u.used + Min(g, tx.gas) && v.pool + Min(g, tx.gas) == u.pool
              case Refused(kept) =>
                && v.state == u.state && v.earnings == u.earnings && v.gasOf == u.gasOf
                && v.used == u.used && v.pool + Min(kept, tx.gas) == u.pool
  {
    RunConcat(b, w, before, [i]);
    assert [i][1..] == [];
  }

  /** What an account holds after a transfer of `value` with `fee`. */
  ghost predicate Moves(x: Account, y: Account, sends: bool, receives: bool, value: nat, fee: nat) {
    && y.balance + (if sends then value + fee else 0) == x.balance + (if receives then value else 0)
    && y.nonce == x.nonce + (if sends then 1 else 0) && y.rest == x.rest
  }

  lemma TransferMoves(s: State, tx: Tx, gas: nat)
    requires tx.to.Some?
    ensures var r, from := Transfer1(s, tx, gas), Get(s, tx.from);
            && (r.Done? <==> && tx.from != ZERO_ADDRESS && gas <= tx.gas && from.nonce == tx.nonce
                             && from.balance >= tx.gas * tx.gasPrice && from.balance >= tx.value + gas * tx.gasPrice)
            && (r.Done? ==>
                  && r.gasUsed == gas && r.fee == gas * tx.gasPrice
                  && forall a :: Moves(Get(s, a), Get(Merge(s, tx, r.from, r.to), a), a == tx.from, a == tx.to.value,
                                       tx.value, r.fee))
  {
  }

  /** A transfer run after others, with gas for it, goes through exactly if the sender is known, has the right
      nonce, and covers the full gas as well as value and fee, and the gas limit covers the transfer. It then
      moves value and fee and nothing else; otherwise nothing happens. */
  lemma TransferRuns(b: Block, w: World, before: seq<nat>, i: nat)
    requires WellFormed(b) && Indices(b, before) && i < |b.txs| && !b.ks[i].Contract?
    requires b.txs[i].intrinsicGas.Some? ==> Run(b, w, before).pool >= b.txs[i].intrinsicGas.value
    ensures Indices(b, before + [i])
    ensures var u, v, tx := Run(b, w, before), Run(b, w, before + [i]), b.txs[i];
            var from := Get(u.state, tx.from);
            if && tx.from != ZERO_ADDRESS && tx.intrinsicGas.Some? && tx.intrinsicGas.value <= tx.gas
               && from.nonce == tx.nonce && from.balance >= tx.gas * tx.gasPrice
               && from.balance >= tx.value + tx.intrinsicGas.value * tx.gasPrice
            then
              var gas := tx.intrinsicGas.value;
              var fee := gas * tx.gasPrice;
              && v.used == u.used + gas && v.pool + gas == u.pool && v.earnings == u.earnings + fee
              && v.gasOf == u.gasOf[i := gas]
              && forall a :: Moves(Get(u.state, a), Get(v.state, a), a == tx.from, a == tx.to.value, tx.value, fee)
            else v == u
  {
    hide Transfer1, Merge, Get, Moves;
    RunConcat(b, w, before, [i]);
    assert [i][1..] == [];
    if b.txs[i].intrinsicGas.Some? {
      TransferMoves(Run(b, w, before).state, b.txs[i], b.txs[i].intrinsicGas.value);
    }
  }

  /** No empty account is stored. */
  ghost predicate Tidy(s: State) {
    forall a | a in s :: s[a] != EMPTY
  }

  /** If contract code stores no empty account, none is ever stored. */
  lemma {:induction false} RunTidy(b: Block, w: World, order: seq<nat>)
    requires WellFormed(b) && Indices(b, order) && Tidy(w.state)
    requires forall tx, s | Tidy(s) && b.call(tx, s).Ran? :: Tidy(b.call(tx, s).state)
    ensures Tidy(Run(b, w, order).state)
    decreases |order|
  {
    if order != [] {
      StepTidy(b, w, order[0]);
      RunTidy(b, Step(b, w, order[0]), order[1..]);
    }
  }

  lemma StepTidy(b: Block, w: World, i: nat)
    requires WellFormed(b) && i < |b.txs| && Tidy(w.state)
    requires b.call(b.txs[i], w.state).Ran? ==> Tidy(b.call(b.txs[i], w.state).state)
    ensures Tidy(Step(b, w, i).state)
  {
  }

  lemma {:induction false} RunPool(b: Block, w: World, order: seq<nat>)
    requires WellFormed(b) && Indices(b, order)
    ensures Run(b, w, order).pool <= w.pool <= Run(b, w, order).pool + Need(b, order)
    decreases |order|
  {
    if order != [] {
      StepPool(b, w, order[0]);
      RunPool(b, Step(b, w, order[0]), order[1..]);
    }
  }

  /** A transaction moves to the end past transactions it does not conflict with. */
  lemma {:induction false} MoveToEnd(b: Block, w: World, x: nat, rest: seq<nat>)
    requires WellFormed(b) && x < |b.txs| && Indices(b, rest)
    requires forall k | 0 <= k < |rest| :: rest[k] != x && !Conflict(b.ks[x], b.ks[rest[k]])
    requires w.pool >= NeedOf(b, x) + Need(b, rest)
    ensures Run(b, Step(b, w, x), rest) == Step(b, Run(b, w, rest), x)
    decreases |rest|
  {
    if rest != [] {
      StepsCommute(b, w, x, rest[0]);
      StepPool(b, w, rest[0]);
      MoveToEnd(b, Step(b, w, rest[0]), x, rest[1..]);
    }
  }

  /** `order` lists each of the first `n` transactions once. */
  ghost predicate Permutes(order: seq<nat>, n: nat) {
    Distinct(order) && forall v: nat :: v in order <==> v < n
  }

  /** `order` lists conflicting transactions in list order. */
  ghost predicate KeepsConflicts(b: Block, order: seq<nat>)
    requires WellFormed(b) && Indices(b, order)
  {
    forall p, q | 0 <= p < q < |order| && Conflict(b.ks[order[p]], b.ks[order[q]]) :: order[p] < order[q]
  }

  /** Executing all of the first `n` transactions in any order that keeps conflicting ones in list
      order gives the ledger of list order. */
  lemma {:induction false} ReorderedRun(b: Block, w: World, order: seq<nat>, n: nat)
    requires WellFormed(b) && n <= |b.txs| && Indices(b, order)
    requires Permutes(order, n) && KeepsConflicts(b, order)
    requires w.pool >= Need(b, order)
    ensures Indices(b, Span(0, n)) && Run(b, w, order) == Run(b, w, Span(0, n))
    decreases n
  {
    if n == 0 {
      assert Elements(order) == {};
      DistinctCardinality(order);
    } else {
      hide Step, KeepsConflicts, Permutes, WellFormed, Run, Need;
      var x := n - 1;
      var before, after := RemoveLast(b, order, n);
      NeedApart(b, before, x, after);
      BubbleOut(b, w, before, x, after);
      ReorderedRun(b, w, before + after, x);
      RunOneMore(b, w, x);
    }
  }

  lemma NeedApart(b: Block, before: seq<nat>, x: nat, after: seq<nat>)
    requires WellFormed(b) && Indices(b, before) && x < |b.txs| && Indices(b, after)
    ensures Indices(b, before + after) && Indices(b, before + ([x] + after))
    ensures Need(b, before + ([x] + after)) == Need(b, before) + NeedOf(b, x) + Need(b, after)
    ensures Need(b, before + after) == Need(b, before) + Need(b, after)
  {
    hide Step, Run;
    var w := World(map[], 0, 0, 0, map[]);
    RunConcat(b, w, before, [x] + after);
    RunConcat(b, w, before, after);
    assert ([x] + after)[1..] == after;
  }

  lemma RunOneMore(b: Block, w: World, x: nat)
    requires WellFormed(b) && x < |b.txs|
    ensures Indices(b, Span(0, x)) && Indices(b, Span(0, x + 1))
    ensures Run(b, w, Span(0, x + 1)) == Step(b, Run(b, w, Span(0, x)), x)
  {
    hide Step;
    RunConcat(b, w, Span(0, x), [x]);
    assert [x][1..] == [];
  }

  /** Takes the last transaction out of the order; what follows it cannot conflict with it. */
  lemma RemoveLast(b: Block, order: seq<nat>, n: nat) returns (before: seq<nat>, after: seq<nat>)
    requires WellFormed(b) && 0 < n <= |b.txs| && Indices(b, order)
    requires Permutes(order, n) && KeepsConflicts(b, order)
    ensures order == before + ([n - 1] + after) && Indices(b, before) && Indices(b, after)
    ensures forall k | 0 <= k < |after| :: after[k] != n - 1 && !Conflict(b.ks[n - 1], b.ks[after[k]])
    ensures Permutes(before + after, n - 1)
    ensures Indices(b, before + after) && KeepsConflicts(b, before + after)
  {
    hide KeepsConflicts, WellFormed;
    assert n - 1 in order;
    var p :| 0 <= p < |order| && order[p] == n - 1;
    before, after := order[..p], order[p + 1..];
    AfterLast(b, order, n, p, after);
    DropAt(order, p, n);
    KeepsConflictsDrop(b, order, p);
  }

  lemma AfterLast(b: Block, order: seq<nat>, n: nat, p: nat, after: seq<nat>)
    requires WellFormed(b) && 0 < n <= |b.txs| && Indices(b, order)
    requires Permutes(order, n) && KeepsConflicts(b, order)
    requires p < |order| && order[p] == n - 1 && after == order[p + 1..]
    ensures forall k | 0 <= k < |after| :: after[k] != n - 1 && !Conflict(b.ks[n - 1], b.ks[after[k]])
  {
    hide Conflict;
    forall q | p < q < |order|
      ensures order[q] < n - 1 && !Conflict(b.ks[order[p]], b.ks[order[q]])
    {
      assert order[q] in order;
    }
  }

  /** A permutation without its largest entry. */
  lemma DropAt(s: seq<nat>, p: nat, n: nat)
    requires Permutes(s, n) && p < |s| && s[p] == n - 1
    ensures Permutes(s[..p] + s[p + 1..], n - 1)
  {
    var t := s[..p] + s[p + 1..];
    assert forall k | 0 <= k < |t| :: t[k] == s[if k < p then k else k + 1];
    forall v: nat | v < n - 1
      ensures v in t
    {
      assert v in s;
      var q :| 0 <= q < |s| && s[q] == v;
      assert t[if q < p then q else q - 1] == v;
    }
    forall v | v in t
      ensures v < n - 1
    {
      assert v in s;
    }
  }

  lemma KeepsConflictsDrop(b: Block, order: seq<nat>, p: nat)
    requires WellFormed(b) && Indices(b, order) && KeepsConflicts(b, order) && p < |order|
    ensures Indices(b, order[..p] + order[p + 1..]) && KeepsConflicts(b, order[..p] + order[p + 1..])
  {
    hide WellFormed, Conflict;
    var t := order[..p] + order[p + 1..];
    assert forall k | 0 <= k < |t| :: t[k] == order[if k < p then k else k + 1];
  }

  lemma BubbleOut(b: Block, w: World, before: seq<nat>, x: nat, after: seq<nat>)
    requires WellFormed(b) && Indices(b, before) && x < |b.txs| && Indices(b, after)
    requires forall k | 0 <= k < |after| :: after[k] != x && !Conflict(b.ks[x], b.ks[after[k]])
    requires w.pool >= Need(b, before) + NeedOf(b, x) + Need(b, after)
    ensures Indices(b, before + after) && Indices(b, before + ([x] + after))
    ensures Run(b, w, before + ([x] + after)) == Step(b, Run(b, w, before + after), x)
  {
    var w1 := Run(b, w, before);
    RunConcat(b, w, before, after);
    RunConcat(b, w, before, [x] + after);
    RunPool(b, w, before);
    MoveToEnd(b, w1, x, after);
    assert ([x] + after)[1..] == after;
  }
}
