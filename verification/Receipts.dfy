/** Receipts: collected in batch order, handed on in list order with running gas totals. */
module Receipts {
  import opened Dag
  import opened TxDag

  datatype Receipt = Receipt(txHash: nat, gasUsed: nat, cumulativeGasUsed: nat)

  /** `receipts` holds, for each position in `packed`, the hash and gas of that transaction. */
  ghost predicate Matches(txs: seq<Tx>, gasOf: map<nat, nat>, packed: seq<nat>, receipts: seq<Receipt>) {
    && |receipts| == |packed| && Distinct(packed)
    && (forall i :: i in gasOf <==> i in packed)
    && (forall k | 0 <= k < |packed| ::
          && packed[k] < |txs|
          && receipts[k].txHash == txs[packed[k]].hash
          && receipts[k].gasUsed == gasOf[packed[k]])
  }

  lemma MatchesAppend(txs: seq<Tx>, gasOf: map<nat, nat>, packed: seq<nat>, receipts: seq<Receipt>, i: nat, r: Receipt)
    requires Matches(txs, gasOf, packed, receipts) && i < |txs| && i !in gasOf && r.txHash == txs[i].hash
    ensures Matches(txs, gasOf[i := r.gasUsed], packed + [i], receipts + [r])
  {
  }

  predicate DistinctHashes(txs: seq<Tx>) {
    forall i, j | 0 <= i < j < |txs| :: txs[i].hash != txs[j].hash
  }

  /** The receipts of the first `n` transactions in list order: one per success, with running totals. */
  function SerialReceipts(txs: seq<Tx>, gasOf: map<nat, nat>, n: nat): seq<Receipt>
    requires n <= |txs|
  {
    if n == 0 then []
    else if n - 1 in gasOf then
      SerialReceipts(txs, gasOf, n - 1)
      + [Receipt(txs[n - 1].hash, gasOf[n - 1], GasBefore(gasOf, n))]
    else SerialReceipts(txs, gasOf, n - 1)
  }

  /** The gas used by the successful transactions before position `n`. */
  function GasBefore(gasOf: map<nat, nat>, n: nat): nat {
    if n == 0 then 0 else GasBefore(gasOf, n - 1) + if n - 1 in gasOf then gasOf[n - 1] else 0
  }

  function GasSum(receipts: seq<Receipt>): nat {
    if receipts == [] then 0 else GasSum(receipts[..|receipts| - 1]) + receipts[|receipts| - 1].gasUsed
  }

  lemma GasSumAppend(receipts: seq<Receipt>, r: Receipt)
    ensures GasSum(receipts + [r]) == GasSum(receipts) + r.gasUsed
  {
    assert (receipts + [r])[..|receipts|] == receipts;
  }

  /** Each receipt carries the gas of all receipts up to and including itself. */
  ghost predicate RunningTotals(receipts: seq<Receipt>) {
    forall k | 0 <= k < |receipts| :: receipts[k].cumulativeGasUsed == GasSum(receipts[..k + 1])
  }

  /** The receipt is that of one of the first `n` transactions. */
  ghost predicate Among(txs: seq<Tx>, n: nat, r: Receipt) {
    exists i | 0 <= i < n && i < |txs| :: r.txHash == txs[i].hash
  }

  /** The transaction of `r` comes before that of `s`. */
  ghost predicate Earlier(txs: seq<Tx>, r: Receipt, s: Receipt) {
    forall i, j | 0 <= i < |txs| && 0 <= j < |txs| && r.txHash == txs[i].hash && s.txHash == txs[j].hash :: i < j
  }

  /** Every receipt is that of a transaction of the list, and they stand in the order of those. */
  ghost predicate ListOrder(txs: seq<Tx>, receipts: seq<Receipt>) {
    && (forall k | 0 <= k < |receipts| :: Among(txs, |txs|, receipts[k]))
    && (forall j, k | 0 <= j < k < |receipts| :: Earlier(txs, receipts[j], receipts[k]))
  }

  lemma TotalsAppend(before: seq<Receipt>, r: Receipt)
    requires RunningTotals(before) && r.cumulativeGasUsed == GasSum(before) + r.gasUsed
    ensures RunningTotals(before + [r]) && GasSum(before + [r]) == r.cumulativeGasUsed
  {
    hide GasSum;
    var all := before + [r];
    GasSumAppend(before, r);
    forall k | 0 <= k < |all|
      ensures all[k].cumulativeGasUsed == GasSum(all[..k + 1])
    {
      assert all[..k + 1] == if k < |before| then before[..k + 1] else all;
    }
  }

  lemma {:induction false} SerialTotals(txs: seq<Tx>, gasOf: map<nat, nat>, n: nat)
    requires n <= |txs|
    ensures RunningTotals(SerialReceipts(txs, gasOf, n)) && GasSum(SerialReceipts(txs, gasOf, n)) == GasBefore(gasOf, n)
  {
    if n > 0 {
      hide RunningTotals, GasSum;
      SerialTotals(txs, gasOf, n - 1);
      if n - 1 in gasOf {
        TotalsAppend(SerialReceipts(txs, gasOf, n - 1), Receipt(txs[n - 1].hash, gasOf[n - 1], GasBefore(gasOf, n)));
      }
    }
  }

  lemma {:induction false} SerialAmong(txs: seq<Tx>, gasOf: map<nat, nat>, n: nat)
    requires n <= |txs|
    ensures forall k | 0 <= k < |SerialReceipts(txs, gasOf, n)| :: Among(txs, n, SerialReceipts(txs, gasOf, n)[k])
  {
    if n > 0 {
      SerialAmong(txs, gasOf, n - 1);
    }
  }

  lemma {:induction false} SerialOrder(txs: seq<Tx>, gasOf: map<nat, nat>, n: nat)
    requires n <= |txs| && DistinctHashes(txs)
    ensures ListOrder(txs, SerialReceipts(txs, gasOf, n))
  {
    if n > 0 {
      SerialOrder(txs, gasOf, n - 1);
      SerialAmong(txs, gasOf, n - 1);
      if n - 1 in gasOf {
        var before, all := SerialReceipts(txs, gasOf, n - 1), SerialReceipts(txs, gasOf, n);
        OrderAppend(txs, before, n - 1, all[|before|]);
      }
    }
  }

  lemma OrderAppend(txs: seq<Tx>, before: seq<Receipt>, n: nat, r: Receipt)
    requires n < |txs| && DistinctHashes(txs) && ListOrder(txs, before) && r.txHash == txs[n].hash
    requires forall k | 0 <= k < |before| :: Among(txs, n, before[k])
    ensures ListOrder(txs, before + [r])
  {
    assert Among(txs, |txs|, r);
    forall k | 0 <= k < |before|
      ensures Earlier(txs, before[k], r)
    {
      AmongEarlier(txs, n, before[k], r);
    }
    hide Earlier, Among;
  }

  lemma AmongEarlier(txs: seq<Tx>, n: nat, r: Receipt, s: Receipt)
    requires n < |txs| && DistinctHashes(txs) && Among(txs, n, r) && s.txHash == txs[n].hash
    ensures Earlier(txs, r, s)
  {
    var i :| 0 <= i < n && r.txHash == txs[i].hash;
  }

  /** `m` finds every receipt by its transaction hash. */
  ghost predicate Indexes(m: map<nat, Receipt>, receipts: seq<Receipt>) {
    && (forall j | 0 <= j < |receipts| :: receipts[j].txHash in m && m[receipts[j].txHash] == receipts[j])
    && (forall h | h in m :: exists j | 0 <= j < |receipts| :: receipts[j] == m[h] && receipts[j].txHash == h)
  }

  ghost predicate UniqueHashes(receipts: seq<Receipt>) {
    forall i, j | 0 <= i < j < |receipts| :: receipts[i].txHash != receipts[j].txHash
  }

  method IndexReceipts(receipts: seq<Receipt>) returns (receiptsMap: map<nat, Receipt>)
    requires UniqueHashes(receipts)
    ensures Indexes(receiptsMap, receipts)
  {
    receiptsMap := map[];
    for k := 0 to |receipts|
      invariant Indexes(receiptsMap, receipts[..k])
    {
      receiptsMap := receiptsMap[receipts[k].txHash := receipts[k]];
      assert receipts[..k + 1] == receipts[..k] + [receipts[k]];
      assert receipts[..k + 1][k] == receipts[k];
      assert forall j | 0 <= j < k :: receipts[..k + 1][j] == receipts[..k][j];
    }
    assert receipts[..|receipts|] == receipts;
  }

  /** Puts the receipts into list order and recomputes the running gas totals. */
  method SortReceipts(txs: seq<Tx>, receipts: seq<Receipt>, ghost gasOf: map<nat, nat>, ghost packed: seq<nat>)
    returns (sorted: seq<Receipt>)
    requires DistinctHashes(txs) && Matches(txs, gasOf, packed, receipts)
    ensures sorted == SerialReceipts(txs, gasOf, |txs|)
    ensures ListOrder(txs, sorted) && RunningTotals(sorted) && GasSum(sorted) == GasSum(receipts)
    ensures forall h, g :: Count(sorted, h, g) == Count(receipts, h, g)
    ensures sorted != [] ==> sorted[|sorted| - 1].cumulativeGasUsed == GasSum(receipts)
  {
    hide Count, GasSum, RunningTotals, ListOrder, Matches, DistinctHashes;
    SerialIsSorted(txs, gasOf, packed, receipts);
    MatchesUnique(txs, gasOf, packed, receipts);
    var receiptsMap := IndexReceipts(receipts);
    var cumulativeGasUsed := 0;
    sorted := [];
    for i := 0 to |txs|
      invariant sorted == SerialReceipts(txs, gasOf, i) && cumulativeGasUsed == GasBefore(gasOf, i)
    {
      FindReceipt(txs, gasOf, packed, receipts, receiptsMap, i);
      if txs[i].hash in receiptsMap {
        var r := receiptsMap[txs[i].hash];
        cumulativeGasUsed := cumulativeGasUsed + r.gasUsed;
        sorted := sorted + [r.(cumulativeGasUsed := cumulativeGasUsed)];
      }
    }
  }

  /** The receipts in list order are a permutation of those collected, with running totals up to their gas. */
  lemma SerialIsSorted(txs: seq<Tx>, gasOf: map<nat, nat>, packed: seq<nat>, receipts: seq<Receipt>)
    requires DistinctHashes(txs) && Matches(txs, gasOf, packed, receipts)
    ensures var s := SerialReceipts(txs, gasOf, |txs|);
            && ListOrder(txs, s) && RunningTotals(s) && GasSum(s) == GasSum(receipts)
            && (forall h, g :: Count(s, h, g) == Count(receipts, h, g))
            && (s != [] ==> s[|s| - 1].cumulativeGasUsed == GasSum(receipts))
  {
    hide Count, ListOrder, Matches, DistinctHashes;
    SortKeepsReceipts(txs, gasOf, packed, receipts);
    SerialTotals(txs, gasOf, |txs|);
    SerialOrder(txs, gasOf, |txs|);
    var s := SerialReceipts(txs, gasOf, |txs|);
    assert s != [] ==> s[..|s| - 1 + 1] == s;
  }

  lemma MatchesUnique(txs: seq<Tx>, gasOf: map<nat, nat>, packed: seq<nat>, receipts: seq<Receipt>)
    requires DistinctHashes(txs) && Matches(txs, gasOf, packed, receipts)
    ensures UniqueHashes(receipts)
  {
    forall i, j | 0 <= i < j < |receipts|
      ensures receipts[i].txHash != receipts[j].txHash
    {
      assert packed[i] != packed[j];
    }
  }

  lemma FindReceipt(txs: seq<Tx>, gasOf: map<nat, nat>, packed: seq<nat>, receipts: seq<Receipt>,
                    m: map<nat, Receipt>, i: nat)
    requires DistinctHashes(txs) && Matches(txs, gasOf, packed, receipts) && Indexes(m, receipts) && i < |txs|
    ensures i in gasOf <==> txs[i].hash in m
    ensures i in gasOf ==> m[txs[i].hash].txHash == txs[i].hash && m[txs[i].hash].gasUsed == gasOf[i]
  {
    if i in gasOf {
      assert i in packed;
      var j :| 0 <= j < |packed| && packed[j] == i;
      assert receipts[j].txHash == txs[i].hash;
    }
    if txs[i].hash in m {
      var j :| 0 <= j < |receipts| && receipts[j] == m[txs[i].hash] && receipts[j].txHash == txs[i].hash;
      assert packed[j] == i;
    }
  }

  /** How many receipts carry hash `h` and gas `g`. */
  ghost function Count(receipts: seq<Receipt>, h: nat, g: nat): nat {
    if receipts == [] then 0
    else
      var last := receipts[|receipts| - 1];
      Count(receipts[..|receipts| - 1], h, g) + if last.txHash == h && last.gasUsed == g then 1 else 0
  }

  ghost function CountBefore(txs: seq<Tx>, gasOf: map<nat, nat>, n: nat, h: nat, g: nat): nat
    requires n <= |txs|
  {
    if n == 0 then 0
    else
      CountBefore(txs, gasOf, n - 1, h, g)
      + if n - 1 in gasOf && txs[n - 1].hash == h && gasOf[n - 1] == g then 1 else 0
  }

  lemma {:induction false} SerialCount(txs: seq<Tx>, gasOf: map<nat, nat>, n: nat, h: nat, g: nat)
    requires n <= |txs|
    ensures Count(SerialReceipts(txs, gasOf, n), h, g) == CountBefore(txs, gasOf, n, h, g)
  {
    if n > 0 {
      SerialCount(txs, gasOf, n - 1, h, g);
      if n - 1 in gasOf {
        var all := SerialReceipts(txs, gasOf, n);
        assert all[..|all| - 1] == SerialReceipts(txs, gasOf, n - 1);
      }
    }
  }

  /** Sorting only permutes: every hash keeps its receipts and their gas, and the gas of the list is the
      gas of all receipts together. */
  lemma SortKeepsReceipts(txs: seq<Tx>, gasOf: map<nat, nat>, packed: seq<nat>, receipts: seq<Receipt>)
    requires Matches(txs, gasOf, packed, receipts)
    ensures forall h, g :: Count(SerialReceipts(txs, gasOf, |txs|), h, g) == Count(receipts, h, g)
    ensures GasBefore(gasOf, |txs|) == GasSum(receipts)
  {
    forall h, g
      ensures Count(SerialReceipts(txs, gasOf, |txs|), h, g) == Count(receipts, h, g)
    {
      SerialCount(txs, gasOf, |txs|, h, g);
      PackedCount(txs, gasOf, packed, receipts, h, g);
    }
    PackedCount(txs, gasOf, packed, receipts, 0, 0);
  }

  lemma {:induction false} PackedCount(txs: seq<Tx>, gasOf: map<nat, nat>, packed: seq<nat>,
                                       receipts: seq<Receipt>, h: nat, g: nat)
    requires Matches(txs, gasOf, packed, receipts)
    ensures CountBefore(txs, gasOf, |txs|, h, g) == Count(receipts, h, g)
    ensures GasBefore(gasOf, |txs|) == GasSum(receipts)
    decreases |packed|
  {
    if packed == [] {
      NothingPacked(txs, gasOf, |txs|, h, g);
    } else {
      var m := |packed| - 1;
      MatchesDrop(txs, gasOf, packed, receipts);
      PackedCount(txs, gasOf - {packed[m]}, packed[..m], receipts[..m], h, g);
      OneMore(txs, gasOf, packed[m], |txs|, h, g);
    }
  }

  lemma MatchesDrop(txs: seq<Tx>, gasOf: map<nat, nat>, packed: seq<nat>, receipts: seq<Receipt>)
    requires Matches(txs, gasOf, packed, receipts) && packed != []
    ensures Matches(txs, gasOf - {packed[|packed| - 1]}, packed[..|packed| - 1], receipts[..|packed| - 1])
  {
    var m := |packed| - 1;
    assert forall k | 0 <= k < m :: packed[k] != packed[m];
    forall i
      ensures i in packed[..m] <==> i in packed && i != packed[m]
    {
      assert packed == packed[..m] + [packed[m]];
    }
  }

  lemma {:induction false} NothingPacked(txs: seq<Tx>, gasOf: map<nat, nat>, n: nat, h: nat, g: nat)
    requires n <= |txs| && forall i :: i !in gasOf
    ensures CountBefore(txs, gasOf, n, h, g) == 0 && GasBefore(gasOf, n) == 0
  {
    if n > 0 {
      NothingPacked(txs, gasOf, n - 1, h, g);
    }
  }

  /** One more success adds its own receipt and its own gas, wherever it stands in the list. */
  lemma {:induction false} OneMore(txs: seq<Tx>, gasOf: map<nat, nat>, i: nat, n: nat, h: nat, g: nat)
    requires n <= |txs| && i in gasOf && i < |txs|
    ensures CountBefore(txs, gasOf, n, h, g) ==
            CountBefore(txs, gasOf - {i}, n, h, g) + if i < n && txs[i].hash == h && gasOf[i] == g then 1 else 0
    ensures GasBefore(gasOf, n) == GasBefore(gasOf - {i}, n) + if i < n then gasOf[i] else 0
  {
    if n > 0 {
      OneMore(txs, gasOf, i, n - 1, h, g);
    }
  }
}
