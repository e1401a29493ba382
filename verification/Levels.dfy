/** What holds of the ledger after every batch: the facts the executor's loop carries along. */
module Levels {
  import opened Dag
  import opened TxDag
  import opened Ledger
  import opened Batch

  ghost predicate NoContracts(b: Block) {
    forall i | 0 <= i < |b.ks| :: !b.ks[i].Contract?
  }

  /** The pool covers the most the whole list can draw. */
  ghost predicate GasSuffices(b: Block, pool: nat)
    requires WellFormed(b)
  {
    pool >= Need(b, Span(0, |b.txs|))
  }

  ghost predicate FundsKept(w: World, w': World) {
    NonNegative(w.state) ==>
      Total(w'.state) + w'.earnings == Total(w.state) + w.earnings && NonNegative(w'.state)
  }

  /** What one batch of transfers does to the ledger. */
  ghost predicate BatchOutcome(b: Block, packing: bool, w: World, w': World, batch: seq<nat>)
    requires WellFormed(b) && Indices(b, batch)
  {
    && (!packing && w.pool >= Need(b, batch) ==> w' == Run(b, w, batch))
    && FundsKept(w, w')
    && w'.pool + w'.used <= w.pool + w.used
    && (!packing ==> w'.pool + w'.used == w.pool + w.used)
  }

  /** The ledger after the transactions in `order`, as far as it is determined. */
  ghost predicate Progress(b: Block, packing: bool, w0: World, w: World, order: seq<nat>)
    requires WellFormed(b)
  {
    && Indices(b, order)
    && (!packing && GasSuffices(b, w0.pool) ==> w == Run(b, w0, order))
    && (NoContracts(b) ==> FundsKept(w0, w))
    && w.pool + w.used <= w0.pool + w0.used
    && (NoContracts(b) && !packing ==> w.pool + w.used == w0.pool + w0.used)
  }

  lemma NeedConcat(b: Block, x: seq<nat>, y: seq<nat>)
    requires WellFormed(b) && Indices(b, x) && Indices(b, y)
    ensures Indices(b, x + y) && Need(b, x + y) == Need(b, x) + Need(b, y)
  {
    RunConcat(b, World(map[], 0, 0, 0, map[]), x, y);
  }

  lemma NeedDrop(b: Block, order: seq<nat>, p: nat)
    requires WellFormed(b) && Indices(b, order) && p < |order|
    ensures Indices(b, order[..p] + order[p + 1..])
    ensures Need(b, order) == Need(b, order[..p] + order[p + 1..]) + NeedOf(b, order[p])
  {
    var before, x, after := order[..p], order[p], order[p + 1..];
    assert order == before + ([x] + after);
    NeedConcat(b, before, [x] + after);
    NeedConcat(b, [x], after);
    NeedConcat(b, before, after);
  }

  lemma {:induction false} NeedWithin(b: Block, order: seq<nat>, n: nat)
    requires WellFormed(b) && n <= |b.txs| && Indices(b, order) && Distinct(order)
    requires forall k | 0 <= k < |order| :: order[k] < n
    ensures Indices(b, Span(0, n)) && Need(b, order) <= Need(b, Span(0, n))
    decreases n
  {
    hide NeedOf, WellFormed;
    if n > 0 {
      NeedConcat(b, Span(0, n - 1), [n - 1]);
      if p :| 0 <= p < |order| && order[p] == n - 1 {
        NeedDrop(b, order, p);
        NeedWithin(b, order[..p] + order[p + 1..], n - 1);
      } else {
        NeedWithin(b, order, n - 1);
      }
    }
  }

  lemma PoolLeft(b: Block, w0: World, order: seq<nat>, batch: seq<nat>)
    requires WellFormed(b) && Indices(b, order) && Indices(b, batch) && Distinct(order + batch)
    requires GasSuffices(b, w0.pool)
    ensures Run(b, w0, order).pool >= Need(b, batch)
  {
    RunPool(b, w0, order);
    RunConcat(b, w0, order, batch);
    NeedWithin(b, order + batch, |b.txs|);
  }

  lemma AdvanceBatch(b: Block, packing: bool, w0: World, w: World, w': World, order: seq<nat>, batch: seq<nat>)
    requires WellFormed(b) && Progress(b, packing, w0, w, order)
    requires Indices(b, batch) && Distinct(order + batch) && BatchOutcome(b, packing, w, w', batch)
    ensures Progress(b, packing, w0, w', order + batch)
  {
    RunConcat(b, w0, order, batch);
    if GasSuffices(b, w0.pool) {
      PoolLeft(b, w0, order, batch);
    }
  }

  lemma AdvanceCall(b: Block, packing: bool, w0: World, w: World, w': World, order: seq<nat>, i: nat)
    requires WellFormed(b) && Progress(b, packing, w0, w, order)
    requires i < |b.txs| && b.ks[i].Contract?
    requires w' == CallStep(b, w, i) || (packing && w' == w)
    ensures Progress(b, packing, w0, w', order + [i])
  {
    RunConcat(b, w0, order, [i]);
  }

  // ----- Batches off the graph

  /** Two transactions of one level never conflict. */
  lemma LevelIndependent(ks: seq<Kind>, done: set<nat>, i: nat, j: nat)
    requires NoGap(ks) && done <= Unlocked(GraphOf(ks), done)
    requires i in Unlocked(GraphOf(ks), done) - done && j in Unlocked(GraphOf(ks), done) - done && i != j
    ensures !Conflict(ks[i], ks[j])
  {
    CompleteIffNoGap(ks);
    var lo, hi := if i < j then i else j, if i < j then j else i;
    assert Conflict(ks[i], ks[j]) <==> Conflict(ks[lo], ks[hi]);
    if Conflict(ks[lo], ks[hi]) {
      UnlockedAfterAncestors(GraphOf(ks), done, lo, hi);
      assert false;
    }
  }

  /** A transaction of the next level comes after every conflicting one handed out before. */
  lemma LevelAfterEarlier(ks: seq<Kind>, done: set<nat>, i: nat, j: nat)
    requires NoGap(ks) && done <= Unlocked(GraphOf(ks), done)
    requires i in done && j in Unlocked(GraphOf(ks), done) - done && Conflict(ks[i], ks[j])
    ensures i < j
  {
    CompleteIffNoGap(ks);
    if j < i {
      assert Conflict(ks[j], ks[i]);
      UnlockedAfterAncestors(GraphOf(ks), done, j, i);
      assert false;
    }
  }

  lemma LevelKeepsConflicts(b: Block, order: seq<nat>, batch: seq<nat>)
    requires WellFormed(b) && NoGap(b.ks) && Indices(b, order) && KeepsConflicts(b, order) && Distinct(order)
    requires Distinct(batch) && Elements(order) <= Unlocked(GraphOf(b.ks), Elements(order))
    requires Elements(batch) == Unlocked(GraphOf(b.ks), Elements(order)) - Elements(order)
    ensures Indices(b, batch) && Indices(b, order + batch) && Distinct(order + batch)
    ensures KeepsConflicts(b, order + batch)
    ensures forall p, q | 0 <= p < q < |batch| :: !Conflict(b.ks[batch[p]], b.ks[batch[q]])
  {
    hide Conflict, Unlocked, NoGap, GraphOf;
    var done := Elements(order);
    forall k | 0 <= k < |batch|
      ensures batch[k] in Unlocked(GraphOf(b.ks), done) - done && batch[k] < |b.txs|
    {
      assert batch[k] in Elements(batch);
      InGraph(b, done, batch[k]);
    }
    forall p, q | 0 <= p < q < |batch|
      ensures !Conflict(b.ks[batch[p]], b.ks[batch[q]])
    {
      LevelIndependent(b.ks, done, batch[p], batch[q]);
    }
    var all := order + batch;
    forall p, q | 0 <= p < q < |all| && Conflict(b.ks[all[p]], b.ks[all[q]])
      ensures all[p] < all[q]
    {
      if p < |order| <= q {
        assert all[p] in Elements(order);
        LevelAfterEarlier(b.ks, done, all[p], all[q]);
      }
    }
  }

  lemma InGraph(b: Block, done: set<nat>, i: nat)
    requires WellFormed(b) && i in Unlocked(GraphOf(b.ks), done)
    ensures i < |b.txs| == |b.ks|
  {
  }

  // ----- Contracts alone in their level

  /** What is handed out by the first `n` levels. */
  ghost function Peel(ks: seq<Kind>, n: nat): set<nat> {
    if n == 0 then {} else Unlocked(GraphOf(ks), Peel(ks, n - 1))
  }

  ghost predicate InLevel(ks: seq<Kind>, n: nat, i: nat) {
    i in Peel(ks, n + 1) && i !in Peel(ks, n)
  }

  /** Every level that holds a contract holds nothing else. */
  ghost predicate ContractsAlone(ks: seq<Kind>) {
    forall n: nat, c: nat, i: nat | InLevel(ks, n, c) && InLevel(ks, n, i) && c < |ks| && ks[c].Contract? :: c == i
  }

  /** No two successive contracts are separated by unresolvable transactions only, and if the list starts
      with a contract every sender is known. */
  ghost predicate ContractsApart(ks: seq<Kind>) {
    NoGap(ks) && (|ks| > 0 && ks[0].Contract? ==> forall i | 0 <= i < |ks| :: !ks[i].Unresolved?)
  }

  lemma {:induction false} PeelGrows(ks: seq<Kind>, n: nat)
    ensures Peel(ks, n) <= Peel(ks, n + 1)
    decreases n
  {
    if n > 0 {
      PeelGrows(ks, n - 1);
    }
  }

  /** A level of the peeling that was not the first has every unresolvable transaction behind it. */
  ghost predicate RootsOut(ks: seq<Kind>, done: set<nat>) {
    done == {} || forall i | 0 <= i < |ks| && ks[i].Unresolved? :: i in done
  }

  /** Peeled on from such a state, a contract is alone in its level. */
  lemma SharedLevelNoContract(ks: seq<Kind>, done: set<nat>, c: nat, i: nat)
    requires ContractsApart(ks) && RootsOut(ks, done) && done <= Unlocked(GraphOf(ks), done)
    requires c in Unlocked(GraphOf(ks), done) - done && i in Unlocked(GraphOf(ks), done) - done && i != c
    ensures !ks[c].Contract?
  {
    hide NoGap;
    LevelIndependent(ks, done, c, i);
    ContractHasPreds(ks, c);
  }

  /** A contract in the level is all there is in it. */
  ghost predicate ContractAlone(b: Block, level: seq<nat>)
    requires |b.ks| == |b.txs| && Indices(b, level)
  {
    |level| > 1 ==> forall k | 0 <= k < |level| :: !b.ks[level[k]].Contract?
  }

  lemma LevelSharing(b: Block, done: set<nat>, level: seq<nat>)
    requires WellFormed(b) && ContractsApart(b.ks) && RootsOut(b.ks, done) && done <= Unlocked(GraphOf(b.ks), done)
    requires Indices(b, level) && Distinct(level) && Elements(level) == Unlocked(GraphOf(b.ks), done) - done
    ensures ContractAlone(b, level) && RootsOut(b.ks, done + Elements(level))
  {
    hide ContractsApart, Unlocked, GraphOf;
    if |level| > 1 {
      forall k | 0 <= k < |level|
        ensures !b.ks[level[k]].Contract?
      {
        var j := if k == 0 then 1 else 0;
        assert level[k] in Elements(level) && level[j] in Elements(level) && level[k] != level[j];
        SharedLevelNoContract(b.ks, done, level[k], level[j]);
      }
    }
    forall i | 0 <= i < |b.ks| && b.ks[i].Unresolved?
      ensures i in done + Elements(level)
    {
      RootUnlocked(b.ks, done, i);
    }
  }

  lemma RootUnlocked(ks: seq<Kind>, done: set<nat>, i: nat)
    requires i < |ks| && ks[i].Unresolved?
    ensures i in Unlocked(GraphOf(ks), done)
  {
  }

  lemma ContractHasPreds(ks: seq<Kind>, c: nat)
    requires c < |ks|
    ensures ks[c].Contract? && c > 0 ==> GraphOf(ks)[c] != [] && GraphOf(ks)[c][0] in GraphOf(ks)[c]
  {
  }

  /** Contracts are alone in their levels if and only if they are apart. */
  lemma ContractsAloneIff(ks: seq<Kind>)
    ensures ContractsAlone(ks) <==> ContractsApart(ks)
  {
    if ContractsApart(ks) {
      forall n: nat, c: nat, i: nat | InLevel(ks, n, c) && InLevel(ks, n, i) && c < |ks| && ks[c].Contract?
        ensures c == i
      {
        ApartAlone(ks, n, c, i);
      }
    } else if a: nat, b: nat :| UnresolvedGap(ks, a, b) {
      GapShares(ks, a, b);
    } else {
      FirstShares(ks);
    }
  }

  lemma ApartAlone(ks: seq<Kind>, n: nat, c: nat, i: nat)
    requires ContractsApart(ks) && InLevel(ks, n, c) && InLevel(ks, n, i) && c < |ks| && ks[c].Contract?
    ensures c == i
  {
    PeelGrows(ks, n);
    if c != i {
      SharedLevelNoContract(ks, Peel(ks, n), c, i);
    }
  }

  /** A leading contract shares the first level with any unresolvable transaction. */
  lemma FirstShares(ks: seq<Kind>)
    requires |ks| > 0 && ks[0].Contract? && exists i | 0 <= i < |ks| :: ks[i].Unresolved?
    ensures !ContractsAlone(ks)
  {
    var i :| 0 <= i < |ks| && ks[i].Unresolved?;
    assert GraphOf(ks)[0] == [] && GraphOf(ks)[i] == [];
    assert InLevel(ks, 0, 0) && InLevel(ks, 0, i);
  }

  /** The contract behind a gap is in the second level, and so is the lowest transaction not in the first. */
  lemma GapShares(ks: seq<Kind>, a: nat, b: nat)
    requires UnresolvedGap(ks, a, b)
    ensures !ContractsAlone(ks)
  {
    if a == 0 {
      assert ks[a + 1].Unresolved?;
      FirstShares(ks);
    } else {
      BehindGap(ks, a, b);
      ContractHasPreds(ks, a);
      var u := LowestNotRoot(ks, a);
      assert InLevel(ks, 1, u);
    }
  }

  lemma BehindGap(ks: seq<Kind>, a: nat, b: nat)
    requires UnresolvedGap(ks, a, b)
    ensures InLevel(ks, 1, b)
  {
    var g := GraphOf(ks);
    assert LastContract(ks, b) == a && g[b] == Span(a + 1, b);
    assert forall u | u in g[b] :: g[u] == [];
    assert a + 1 in g[b];
  }

  lemma {:induction false} LowestNotRoot(ks: seq<Kind>, a: nat) returns (u: nat)
    requires a < |ks| && GraphOf(ks)[a] != []
    ensures u <= a && u in Peel(ks, 2) && u !in Peel(ks, 1)
    decreases a
  {
    var g := GraphOf(ks);
    assert g[a][0] in g[a];
    if v :| v in g[a] && g[v] != [] {
      u := LowestNotRoot(ks, v);
    } else {
      assert forall v | v in g[a] :: v in Peel(ks, 1);
      u := a;
    }
  }

  /** A contract, a transfer and an unresolvable transaction: the contract shares the first level. */
  lemma SharedFirstLevel()
    ensures var ks := [Contract, Transfer(1, 2), Unresolved];
            InLevel(ks, 0, 0) && InLevel(ks, 0, 2) && !ContractsAlone(ks)
  {
    var ks := [Contract, Transfer(1, 2), Unresolved];
    assert ks[2].Unresolved?;
    FirstShares(ks);
    assert GraphOf(ks)[0] == [] && GraphOf(ks)[2] == [];
  }

  /** Two contracts in one level, the second behind an unresolvable transaction. */
  lemma TwoContractsInOneLevel()
    ensures var ks := [Transfer(1, 2), Contract, Unresolved, Contract];
            InLevel(ks, 1, 1) && InLevel(ks, 1, 3)
  {
    var ks := [Transfer(1, 2), Contract, Unresolved, Contract];
    assert UnresolvedGap(ks, 1, 3);
    BehindGap(ks, 1, 3);
    assert GraphOf(ks)[0] == [];
    assert LastContract(ks, 1) == -1 && GraphOf(ks)[1] == Span(0, 1);
    assert 0 in GraphOf(ks)[1];
  }
}
