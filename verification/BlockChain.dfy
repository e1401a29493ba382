/** The block chain: all stored blocks, the canonical number-to-hash index, and the lookup from a
    transaction to the number of its block.

    The references are independent of both indexes: the ancestor path of the current block by parent
    hashes, and the highest block on that path that holds a transaction. Stored blocks need not connect
    to the genesis; a block that does not is an error when it would become the head. */
module BlockChain {
  import opened Common

  type Hash = nat
  type TxHash = nat

  datatype Block = Block(number: nat, parent: Hash, txs: seq<TxHash>)

  datatype Status = NonStat | CanonStat

  type Blocks = map<Hash, Block>
  type Canon = map<nat, Hash>
  type Lookup = map<TxHash, nat>

  function Read<K, V>(m: map<K, V>, k: K): Option<V> {
    if k in m then Some(m[k]) else None
  }

  /** A stored block, by hash and number. */
  predicate Has(blocks: Blocks, h: Hash, number: int) {
    h in blocks && blocks[h].number == number
  }

  /** Parent hashes lead from `h` down to the genesis. */
  ghost predicate Connected(blocks: Blocks, genesis: Hash, h: Hash)
    decreases if h in blocks then blocks[h].number else 0
  {
    && h in blocks
    && if blocks[h].number == 0 then h == genesis
       else Has(blocks, blocks[h].parent, blocks[h].number - 1) && Connected(blocks, genesis, blocks[h].parent)
  }

  /** The ancestor of `h` at height `n`. */
  ghost function At(blocks: Blocks, genesis: Hash, h: Hash, n: nat): (a: Hash)
    requires Connected(blocks, genesis, h) && n <= blocks[h].number
    ensures Connected(blocks, genesis, a) && blocks[a].number == n
    decreases blocks[h].number
  {
    if n == blocks[h].number then h else At(blocks, genesis, blocks[h].parent, n)
  }

  lemma {:induction false} AtAt(blocks: Blocks, genesis: Hash, h: Hash, m: nat, n: nat)
    requires Connected(blocks, genesis, h) && n <= m <= blocks[h].number
    ensures At(blocks, genesis, At(blocks, genesis, h, m), n) == At(blocks, genesis, h, n)
    decreases blocks[h].number
  {
    if m < blocks[h].number {
      AtAt(blocks, genesis, blocks[h].parent, m, n);
    }
  }

  lemma ParentAt(blocks: Blocks, genesis: Hash, h: Hash, n: nat)
    requires Connected(blocks, genesis, h) && 0 < n <= blocks[h].number
    ensures blocks[At(blocks, genesis, h, n)].parent == At(blocks, genesis, h, n - 1)
  {
    AtAt(blocks, genesis, h, n, n - 1);
  }

  lemma AtGenesis(blocks: Blocks, genesis: Hash, h: Hash)
    requires Connected(blocks, genesis, h)
    ensures At(blocks, genesis, h, 0) == genesis
  {
  }

  /** The highest block at or below `h` that holds `t`. */
  ghost function LastWith(blocks: Blocks, genesis: Hash, h: Hash, t: TxHash): Option<nat>
    requires Connected(blocks, genesis, h)
    decreases blocks[h].number
  {
    if t in blocks[h].txs then Some(blocks[h].number)
    else if blocks[h].number == 0 then None
    else LastWith(blocks, genesis, blocks[h].parent, t)
  }

  /** `canon` is exactly the ancestor path of `current`. */
  ghost predicate IsPath(blocks: Blocks, genesis: Hash, canon: Canon, current: Hash) {
    && Connected(blocks, genesis, current)
    && (forall n: nat :: n in canon <==> n <= blocks[current].number)
    && (forall n: nat | n <= blocks[current].number :: canon[n] == At(blocks, genesis, current, n))
  }

  /** `lookup` holds exactly the transactions on the path of `current`, each with its highest block. */
  ghost predicate LookupExact(blocks: Blocks, genesis: Hash, lookup: Lookup, current: Hash)
    requires Connected(blocks, genesis, current)
  {
    forall t: TxHash :: Read(lookup, t) == LastWith(blocks, genesis, current, t)
  }

  // ----- Forks

  /** The highest height at or below `k` at which `a` and `b` have the same ancestor. */
  ghost function Fork(blocks: Blocks, genesis: Hash, a: Hash, b: Hash, k: nat): (m: nat)
    requires Connected(blocks, genesis, a) && Connected(blocks, genesis, b)
    requires k <= blocks[a].number && k <= blocks[b].number
    ensures m <= k && At(blocks, genesis, a, m) == At(blocks, genesis, b, m)
    ensures forall n | m < n <= k :: At(blocks, genesis, a, n) != At(blocks, genesis, b, n)
    decreases k
  {
    if At(blocks, genesis, a, k) == At(blocks, genesis, b, k) then k
    else
      AtGenesis(blocks, genesis, a);
      AtGenesis(blocks, genesis, b);
      Fork(blocks, genesis, a, b, k - 1)
  }

  /** The blocks from `h` down to just above height `n`. */
  ghost function Branch(blocks: Blocks, genesis: Hash, h: Hash, n: nat): (s: seq<Hash>)
    requires Connected(blocks, genesis, h)
    ensures forall k | 0 <= k < |s| :: s[k] in blocks
    decreases blocks[h].number
  {
    if blocks[h].number <= n then [] else [h] + Branch(blocks, genesis, blocks[h].parent, n)
  }

  /** Some block of `chain` holds `t`. */
  ghost predicate Holds(blocks: Blocks, chain: seq<Hash>, t: TxHash) {
    exists k | 0 <= k < |chain| :: chain[k] in blocks && t in blocks[chain[k]].txs
  }

  function WriteTxs(lookup: Lookup, txs: seq<TxHash>, number: nat): Lookup {
    map t | t in lookup.Keys + (set x | x in txs) :: if t in txs then number else lookup[t]
  }

  /** Lookup entries of a chain written from its last block to its first. */
  ghost function WriteChain(blocks: Blocks, lookup: Lookup, chain: seq<Hash>): Lookup
    requires forall k | 0 <= k < |chain| :: chain[k] in blocks
    decreases |chain|
  {
    if chain == [] then lookup
    else WriteTxs(WriteChain(blocks, lookup, chain[1..]), blocks[chain[0]].txs, blocks[chain[0]].number)
  }

  /** Writing a branch leaves each of its transactions with the highest block of the branch. */
  lemma {:induction false} WriteBranch(blocks: Blocks, genesis: Hash, lookup: Lookup, h: Hash, n: nat, t: TxHash)
    requires Connected(blocks, genesis, h)
    ensures var chain := Branch(blocks, genesis, h, n);
            Read(WriteChain(blocks, lookup, chain), t) ==
            if Holds(blocks, chain, t) then LastWith(blocks, genesis, h, t) else Read(lookup, t)
    decreases blocks[h].number
  {
    if blocks[h].number > n {
      var p := blocks[h].parent;
      var chain, rest := Branch(blocks, genesis, h, n), Branch(blocks, genesis, p, n);
      WriteBranch(blocks, genesis, lookup, p, n, t);
      assert chain[1..] == rest;
      HoldsCons(blocks, h, rest, t);
    }
  }

  lemma HoldsCons(blocks: Blocks, h: Hash, rest: seq<Hash>, t: TxHash)
    requires h in blocks
    ensures Holds(blocks, [h] + rest, t) <==> t in blocks[h].txs || Holds(blocks, rest, t)
  {
    if t in blocks[h].txs {
      assert ([h] + rest)[0] == h;
    } else if Holds(blocks, rest, t) {
      var k :| 0 <= k < |rest| && rest[k] in blocks && t in blocks[rest[k]].txs;
      assert ([h] + rest)[k + 1] == rest[k];
    }
  }

  /** Off its top branch a path holds what it holds at the fork. */
  lemma {:induction false} LastBelow(blocks: Blocks, genesis: Hash, h: Hash, n: nat, t: TxHash)
    requires Connected(blocks, genesis, h) && n <= blocks[h].number
    requires !Holds(blocks, Branch(blocks, genesis, h, n), t)
    ensures LastWith(blocks, genesis, h, t) == LastWith(blocks, genesis, At(blocks, genesis, h, n), t)
    decreases blocks[h].number
  {
    if blocks[h].number > n {
      HoldsCons(blocks, h, Branch(blocks, genesis, blocks[h].parent, n), t);
      LastBelow(blocks, genesis, blocks[h].parent, n, t);
    }
  }

  // ----- What a reorganisation does to the lookup

  /** The transactions a switch from `old` to `new` drops: in the old branch and not in the new one. */
  ghost predicate Dropped(blocks: Blocks, genesis: Hash, old': Hash, new': Hash, m: nat, t: TxHash)
    requires Connected(blocks, genesis, old') && Connected(blocks, genesis, new')
  {
    Holds(blocks, Branch(blocks, genesis, old', m), t) && !Holds(blocks, Branch(blocks, genesis, new', m), t)
  }

  /** The lookup after the new branch is written and the dropped transactions are deleted. */
  ghost predicate Switched(blocks: Blocks, genesis: Hash, lookup: Lookup, lookup': Lookup, old': Hash, new': Hash, m: nat)
    requires Connected(blocks, genesis, old') && Connected(blocks, genesis, new')
  {
    forall t: TxHash :: Read(lookup', t) ==
      if Dropped(blocks, genesis, old', new', m, t) then None
      else Read(WriteChain(blocks, lookup, Branch(blocks, genesis, new', m)), t)
  }

  /** After a switch the lookup is exact again if and only if no dropped transaction also sits below
      the fork. */
  lemma SwitchExactIff(blocks: Blocks, genesis: Hash, lookup: Lookup, lookup': Lookup, old': Hash, new': Hash, m: nat)
    requires Connected(blocks, genesis, old') && Connected(blocks, genesis, new')
    requires m <= blocks[old'].number && m <= blocks[new'].number
    requires At(blocks, genesis, old', m) == At(blocks, genesis, new', m)
    requires LookupExact(blocks, genesis, lookup, old') && Switched(blocks, genesis, lookup, lookup', old', new', m)
    ensures LookupExact(blocks, genesis, lookup', new') <==>
            forall t: TxHash | Dropped(blocks, genesis, old', new', m, t) ::
              LastWith(blocks, genesis, At(blocks, genesis, new', m), t) == None
  {
    forall t: TxHash
      ensures Read(lookup', t) == LastWith(blocks, genesis, new', t) <==>
              (Dropped(blocks, genesis, old', new', m, t) ==>
                 LastWith(blocks, genesis, At(blocks, genesis, new', m), t) == None)
    {
      SwitchExactAt(blocks, genesis, lookup, lookup', old', new', m, t);
    }
  }

  lemma SwitchExactAt(blocks: Blocks, genesis: Hash, lookup: Lookup, lookup': Lookup, old': Hash, new': Hash, m: nat,
                      t: TxHash)
    requires Connected(blocks, genesis, old') && Connected(blocks, genesis, new')
    requires m <= blocks[old'].number && m <= blocks[new'].number
    requires At(blocks, genesis, old', m) == At(blocks, genesis, new', m)
    requires LookupExact(blocks, genesis, lookup, old') && Switched(blocks, genesis, lookup, lookup', old', new', m)
    ensures Read(lookup', t) == LastWith(blocks, genesis, new', t) <==>
            (Dropped(blocks, genesis, old', new', m, t) ==>
               LastWith(blocks, genesis, At(blocks, genesis, new', m), t) == None)
  {
    WriteBranch(blocks, genesis, lookup, new', m, t);
    if !Holds(blocks, Branch(blocks, genesis, new', m), t) {
      LastBelow(blocks, genesis, new', m, t);
      if !Holds(blocks, Branch(blocks, genesis, old', m), t) {
        LastBelow(blocks, genesis, old', m, t);
      }
    }
  }

  /** A path that holds transaction 7 twice, in blocks 1 and 2, and a branch to block 4 that leaves it
      between the two. */
  const REPEATED: Blocks := map[0 := Block(0, 0, []), 1 := Block(1, 0, [7]), 2 := Block(2, 1, [7]),
                                3 := Block(2, 1, []), 4 := Block(3, 3, [])]

  /** Switching away from the second of two copies loses the first: before the switch the lookup is exact,
      after it transaction 7 is on the path and not in the lookup. */
  lemma RepeatedTransactionLost()
    ensures Connected(REPEATED, 0, 2) && Connected(REPEATED, 0, 4) && Fork(REPEATED, 0, 2, 4, 2) == 1
    ensures LookupExact(REPEATED, 0, map[7 := 2], 2) && Switched(REPEATED, 0, map[7 := 2], map[], 2, 4, 1)
    ensures LastWith(REPEATED, 0, 4, 7) == Some(1) && !LookupExact(REPEATED, 0, map[], 4)
  {
    hide Branch, At, Fork, WriteChain, WriteTxs, Holds, Switched;
    RepeatedFork();
    RepeatedSwitch();
    assert LastWith(REPEATED, 0, 3, 7) == Some(1);
    var none: Lookup := map[];
    assert Read(none, 7) == None;
  }

  lemma RepeatedSwitch()
    ensures Connected(REPEATED, 0, 2) && Connected(REPEATED, 0, 4) && Switched(REPEATED, 0, map[7 := 2], map[], 2, 4, 1)
  {
    hide Branch, At, Fork, WriteTxs, Holds, WriteChain;
    RepeatedFork();
    RepeatedHolds();
    var lookup := map[7 := 2];
    WriteNone(REPEATED, lookup);
    WriteNoTxs(lookup, 2);
    WriteNoTxs(lookup, 3);
    WriteFirst(REPEATED, lookup, [4, 3], 1);
    WriteFirst(REPEATED, lookup, [4, 3], 0);
    assert [4, 3][0..] == [4, 3] && [4, 3][1..] == [3] && [4, 3][2..] == [];
  }

  lemma RepeatedHolds()
    ensures forall t: TxHash :: (Holds(REPEATED, [2], t) <==> t == 7) && !Holds(REPEATED, [4, 3], t)
  {
    assert [2][0] == 2;
  }

  lemma RepeatedFork()
    ensures Connected(REPEATED, 0, 2) && Connected(REPEATED, 0, 4) && Fork(REPEATED, 0, 2, 4, 2) == 1
    ensures Branch(REPEATED, 0, 2, 1) == [2] && Branch(REPEATED, 0, 4, 1) == [4, 3]
  {
    assert Connected(REPEATED, 0, 1);
    assert Connected(REPEATED, 0, 3);
    assert At(REPEATED, 0, 4, 2) == 3 && At(REPEATED, 0, 2, 2) == 2;
    assert At(REPEATED, 0, 3, 1) == 1;
    ForkIs(REPEATED, 0, 2, 4, 2, 1);
  }

  // ----- Walking down a branch

  /** `chain` lists the blocks from `h` down to just above `c`, each the parent of the one before. */
  ghost predicate Leads(blocks: Blocks, h: Hash, chain: seq<Hash>, c: Hash)
    decreases |chain|
  {
    && c in blocks && h in blocks
    && if chain == [] then h == c
       else
         && chain[0] == h && blocks[h].number > 0
         && Has(blocks, blocks[h].parent, blocks[h].number - 1)
         && Leads(blocks, blocks[h].parent, chain[1..], c)
  }

  lemma {:induction false} LeadsOn(blocks: Blocks, h: Hash, chain: seq<Hash>, c: Hash)
    requires Leads(blocks, h, chain, c)
    requires blocks[c].number > 0 && Has(blocks, blocks[c].parent, blocks[c].number - 1)
    ensures Leads(blocks, h, chain + [c], blocks[c].parent)
    decreases |chain|
  {
    if chain == [] {
      assert (chain + [c])[1..] == [];
      assert Leads(blocks, blocks[c].parent, [], blocks[c].parent);
    } else {
      LeadsOn(blocks, blocks[h].parent, chain[1..], c);
      assert (chain + [c])[1..] == chain[1..] + [c];
    }
  }

  /** What the walk has passed is exactly the branch above where it stands. */
  lemma {:induction false} LeadsBranch(blocks: Blocks, genesis: Hash, h: Hash, chain: seq<Hash>, c: Hash)
    requires Leads(blocks, h, chain, c)
    ensures Connected(blocks, genesis, h) <==> Connected(blocks, genesis, c)
    ensures |chain| + blocks[c].number == blocks[h].number
    ensures Connected(blocks, genesis, h) ==>
              At(blocks, genesis, h, blocks[c].number) == c && Branch(blocks, genesis, h, blocks[c].number) == chain
    decreases |chain|
  {
    if chain != [] {
      LeadsBranch(blocks, genesis, blocks[h].parent, chain[1..], c);
      assert chain == [h] + chain[1..];
    }
  }

  lemma {:induction false} LeadsEntry(blocks: Blocks, genesis: Hash, h: Hash, chain: seq<Hash>, c: Hash, k: nat)
    requires Leads(blocks, h, chain, c) && Connected(blocks, genesis, h) && k < |chain|
    ensures k <= blocks[h].number && chain[k] == At(blocks, genesis, h, blocks[h].number - k)
    decreases |chain|
  {
    if k > 0 {
      LeadsEntry(blocks, genesis, blocks[h].parent, chain[1..], c, k - 1);
    }
  }

  /** A common ancestor right below a disagreement is the fork. */
  lemma ForkIs(blocks: Blocks, genesis: Hash, a: Hash, b: Hash, k: nat, m: nat)
    requires Connected(blocks, genesis, a) && Connected(blocks, genesis, b)
    requires m <= k <= blocks[a].number && k <= blocks[b].number
    requires At(blocks, genesis, a, m) == At(blocks, genesis, b, m)
    requires m < k ==> At(blocks, genesis, a, m + 1) != At(blocks, genesis, b, m + 1)
    ensures Fork(blocks, genesis, a, b, k) == m
  {
    var f := Fork(blocks, genesis, a, b, k);
    if m < f {
      AtAt(blocks, genesis, a, f, m + 1);
      AtAt(blocks, genesis, b, f, m + 1);
    }
  }

  /** Two walks that end at one block, having last passed different ones, have found the fork. */
  lemma ForkFound(blocks: Blocks, genesis: Hash, a: Hash, b: Hash, x: seq<Hash>, y: seq<Hash>, c: Hash)
    requires Leads(blocks, a, x, c) && Leads(blocks, b, y, c) && Connected(blocks, genesis, a)
    requires blocks[a].number <= blocks[b].number
    requires x != [] ==> y != [] && x[|x| - 1] != y[|y| - 1]
    ensures Connected(blocks, genesis, b)
    ensures var m := Fork(blocks, genesis, a, b, blocks[a].number);
            x == Branch(blocks, genesis, a, m) && y == Branch(blocks, genesis, b, m)
  {
    hide Leads, Branch, At, Connected, Fork;
    var m := LastPassed(blocks, genesis, a, x, c);
    var m' := LastPassed(blocks, genesis, b, y, c);
    ForkIs(blocks, genesis, a, b, blocks[a].number, m);
  }

  /** Where a walk ends, and the block it passed last. */
  lemma LastPassed(blocks: Blocks, genesis: Hash, h: Hash, chain: seq<Hash>, c: Hash) returns (m: nat)
    requires Leads(blocks, h, chain, c)
    ensures c in blocks && h in blocks && m == blocks[c].number && |chain| + m == blocks[h].number
    ensures Connected(blocks, genesis, h) <==> Connected(blocks, genesis, c)
    ensures Connected(blocks, genesis, h) ==>
              && At(blocks, genesis, h, m) == c && Branch(blocks, genesis, h, m) == chain
              && (chain != [] ==> chain[|chain| - 1] == At(blocks, genesis, h, m + 1))
  {
    m := blocks[c].number;
    LeadsBranch(blocks, genesis, h, chain, c);
    if Connected(blocks, genesis, h) && chain != [] {
      LeadsEntry(blocks, genesis, h, chain, c, |chain| - 1);
      assert blocks[h].number - (|chain| - 1) == m + 1;
    }
  }

  class Chain {
    const genesis: Hash
    var blocks: Blocks
    var canon: Canon
    var lookup: Lookup
    var currentBlock: Hash
    var headHeader: Hash
    var headFastBlock: Hash

    /** The index is the path of the current block, and the three heads agree. */
    ghost predicate Valid()
      reads this
    {
      && IsPath(blocks, genesis, canon, currentBlock)
      && headHeader == headFastBlock == currentBlock
    }

    /** A chain that holds only its genesis block, which has no transactions. */
    constructor (hash: Hash, block: Block)
      requires block.number == 0 && block.txs == []
      ensures genesis == hash && blocks == map[hash := block] && lookup == map[] && currentBlock == hash
      ensures Valid() && LookupExact(blocks, genesis, lookup, currentBlock)
    {
      genesis := hash;
      blocks := map[hash := block];
      canon := map[0 := hash];
      lookup := map[];
      currentBlock, headHeader, headFastBlock := hash, hash, hash;
    }

    /** Walks down from `newHash` to the height of the current block. */
    method ReduceNew(newHash: Hash) returns (ok: bool, newChain: seq<Hash>, newBlock: Hash)
      requires currentBlock in blocks && newHash in blocks
      requires blocks[newHash].number > blocks[currentBlock].number
      ensures Leads(blocks, newHash, newChain, newBlock)
      ensures if ok then blocks[newBlock].number == blocks[currentBlock].number
              else !Connected(blocks, genesis, newHash)
    {
      newChain, newBlock := [], newHash;
      while blocks[newBlock].number != blocks[currentBlock].number
        invariant Leads(blocks, newHash, newChain, newBlock)
        invariant blocks[newBlock].number >= blocks[currentBlock].number
        decreases blocks[newBlock].number
      {
        if !Has(blocks, blocks[newBlock].parent, blocks[newBlock].number - 1) {
          LeadsBranch(blocks, genesis, newHash, newChain, newBlock);
          return false, newChain, newBlock;
        }
        LeadsOn(blocks, newHash, newChain, newBlock);
        newChain := newChain + [newBlock];
        newBlock := blocks[newBlock].parent;
      }
      ok := true;
    }

    /** Finds where the branch of `newHash` leaves the canonical one, collecting both branches and the
        transactions of the old one. Fails exactly if the new branch is not connected. */
    method FindFork(newHash: Hash) returns (ok: bool, oldChain: seq<Hash>, newChain: seq<Hash>, deletedTxs: seq<TxHash>)
      requires Connected(blocks, genesis, currentBlock) && newHash in blocks
      requires blocks[newHash].number > blocks[currentBlock].number
      ensures ok <==> Connected(blocks, genesis, newHash)
      ensures ok ==>
                var m := Fork(blocks, genesis, currentBlock, newHash, blocks[currentBlock].number);
                && oldChain == Branch(blocks, genesis, currentBlock, m)
                && newChain == Branch(blocks, genesis, newHash, m)
                && forall t :: t in deletedTxs <==> Holds(blocks, oldChain, t)
    {
      hide Branch, Holds, Leads, At, Fork;
      var newBlock;
      ok, newChain, newBlock := ReduceNew(newHash);
      oldChain, deletedTxs := [], [];
      if !ok {
        return;
      }
      var oldBlock := currentBlock;
      WalkStarts(blocks, currentBlock);
      while oldBlock != newBlock
        invariant Leads(blocks, newHash, newChain, newBlock) && Leads(blocks, currentBlock, oldChain, oldBlock)
        invariant oldBlock in blocks && newBlock in blocks && blocks[newBlock].number == blocks[oldBlock].number
        invariant oldChain != [] ==> newChain != [] && oldChain[|oldChain| - 1] != newChain[|newChain| - 1]
        invariant forall t :: t in deletedTxs <==> Holds(blocks, oldChain, t)
        decreases blocks[oldBlock].number
      {
        LeadsBranch(blocks, genesis, newHash, newChain, newBlock);
        LeadsBranch(blocks, genesis, currentBlock, oldChain, oldBlock);
        // A block numbered 0 has no parent: the number below wraps around to one no block has.
        if blocks[oldBlock].number == 0 || !Has(blocks, blocks[newBlock].parent, blocks[newBlock].number - 1) {
          return false, oldChain, newChain, deletedTxs;
        }
        LeadsOn(blocks, newHash, newChain, newBlock);
        LeadsOn(blocks, currentBlock, oldChain, oldBlock);
        HoldsSnoc(blocks, oldChain, oldBlock);
        oldChain, newChain := oldChain + [oldBlock], newChain + [newBlock];
        deletedTxs := deletedTxs + blocks[oldBlock].txs;
        oldBlock, newBlock := blocks[oldBlock].parent, blocks[newBlock].parent;
      }
      ForkFound(blocks, genesis, currentBlock, newHash, oldChain, newChain, newBlock);
    }

    /** Puts a block on the index and makes it the head; the header and fast heads follow if the block
        was not canonical already. */
    method Insert(hash: Hash)
      requires hash in blocks
      modifies `canon, `currentBlock, `headHeader, `headFastBlock
      ensures canon == old(canon)[blocks[hash].number := hash] && currentBlock == hash
      ensures if Read(old(canon), blocks[hash].number) != Some(hash) then headHeader == headFastBlock == hash
              else headHeader == old(headHeader) && headFastBlock == old(headFastBlock)
    {
      var updateHeads := Read(canon, blocks[hash].number) != Some(hash);
      canon := canon[blocks[hash].number := hash];
      currentBlock := hash;
      if updateHeads {
        headHeader := hash;
        headFastBlock := hash;
      }
    }

    method WriteTxLookupEntries(hash: Hash)
      requires hash in blocks
      modifies `lookup
      ensures lookup == WriteTxs(old(lookup), blocks[hash].txs, blocks[hash].number)
    {
      hide WriteTxs;
      var txs := blocks[hash].txs;
      WriteNoTxs(lookup, blocks[hash].number);
      for i := 0 to |txs|
        invariant lookup == WriteTxs(old(lookup), txs[..i], blocks[hash].number)
      {
        lookup := lookup[txs[i] := blocks[hash].number];
        WriteOneMore(old(lookup), txs, i, blocks[hash].number);
      }
      assert txs[..|txs|] == txs;
    }

    /** Inserts a branch from its lowest block up. */
    method InsertBranch(newHash: Hash, newChain: seq<Hash>, ghost m: nat) returns (addedTxs: seq<TxHash>)
      requires Connected(blocks, genesis, newHash) && m < blocks[newHash].number
      requires newChain == Branch(blocks, genesis, newHash, m)
      requires forall n: nat | m < n <= blocks[newHash].number :: Read(canon, n) != Some(At(blocks, genesis, newHash, n))
      modifies `canon, `lookup, `currentBlock, `headHeader, `headFastBlock
      ensures lookup == WriteChain(blocks, old(lookup), newChain)
      ensures Laid(blocks, genesis, newHash, old(canon), canon, m, blocks[newHash].number)
      ensures currentBlock == headHeader == headFastBlock == newHash
      ensures forall t :: t in addedTxs <==> Holds(blocks, newChain, t)
    {
      hide Branch, At, Holds, WriteChain, WriteTxs, Laid, TxsUp;
      LaidNone(blocks, genesis, newHash, canon, m);
      addedTxs := [];
      var i := |newChain|;
      BranchEntries(blocks, genesis, newHash, m);
      WriteNone(blocks, lookup);
      assert newChain[i..] == [];
      ghost var top := blocks[newHash].number;
      while i > 0
        invariant 0 <= i <= |newChain|
        invariant lookup == WriteChain(blocks, old(lookup), newChain[i..])
        invariant Laid(blocks, genesis, newHash, old(canon), canon, m, top - i)
        invariant i < |newChain| ==> currentBlock == headHeader == headFastBlock == newChain[i]
        invariant addedTxs == TxsUp(blocks, newChain[i..])
      {
        i := i - 1;
        WriteFirst(blocks, old(lookup), newChain, i);
        LaidMore(blocks, genesis, newHash, old(canon), canon, m, top - i - 1);
        Insert(newChain[i]);
        WriteTxLookupEntries(newChain[i]);
        addedTxs := addedTxs + blocks[newChain[i]].txs;
      }
      assert newChain[0..] == newChain;
      TxsUpHolds(blocks, newChain);
    }

    /** Deletes the lookup entries of transactions that were dropped and not added again. */
    method DeleteDropped(deletedTxs: seq<TxHash>, addedTxs: seq<TxHash>)
      modifies `lookup
      ensures forall t: TxHash :: Read(lookup, t) ==
                if t in deletedTxs && t !in addedTxs then None else Read(old(lookup), t)
    {
      for i := 0 to |deletedTxs|
        invariant forall t: TxHash :: Read(lookup, t) ==
                    if t in deletedTxs[..i] && t !in addedTxs then None else Read(old(lookup), t)
      {
        if deletedTxs[i] !in addedTxs {
          lookup := lookup - {deletedTxs[i]};
        }
        assert deletedTxs[..i + 1] == deletedTxs[..i] + [deletedTxs[i]];
      }
      assert deletedTxs[..|deletedTxs|] == deletedTxs;
    }

    /** Re-routes the canonical chain to a higher block that does not sit on the current one. */
    method Reorg(newHash: Hash) returns (ok: bool)
      requires Valid() && newHash in blocks && blocks[newHash].number > blocks[currentBlock].number
      modifies `canon, `lookup, `currentBlock, `headHeader, `headFastBlock
      ensures ok <==> Connected(blocks, genesis, newHash)
      ensures !ok ==> unchanged(this)
      ensures ok ==> Valid() && currentBlock == newHash
      ensures ok ==>
                Switched(blocks, genesis, old(lookup), lookup, old(currentBlock), newHash,
                         Fork(blocks, genesis, old(currentBlock), newHash, blocks[old(currentBlock)].number))
    {
      hide Branch, At, Holds, WriteChain, WriteTxs, Fork;
      var oldChain, newChain, deletedTxs;
      ok, oldChain, newChain, deletedTxs := FindFork(newHash);
      if !ok {
        return;
      }
      ghost var cur := currentBlock;
      ghost var m := Fork(blocks, genesis, cur, newHash, blocks[cur].number);
      AboveForkDiffers(blocks, genesis, canon, cur, newHash);
      var addedTxs := InsertBranch(newHash, newChain, m);
      JoinedPath(blocks, genesis, old(canon), canon, cur, newHash);
      DeleteDropped(deletedTxs, addedTxs);
    }

    /** Stores a block that is higher than the current one and makes it the head, re-routing the chain if
        the block does not sit on the current one. A lower block is ignored. */
    method WriteBlockWithState(hash: Hash, block: Block) returns (status: Status)
      requires Valid()
      requires hash in blocks ==> blocks[hash] == block
      requires block.parent in blocks ==> block.number == blocks[block.parent].number + 1
      modifies this
      ensures Valid()
      ensures block.number <= old(blocks[currentBlock].number) ==> status == NonStat && unchanged(this)
      ensures block.number > old(blocks[currentBlock].number) ==>
                && blocks == old(blocks)[hash := block]
                && Connected(blocks, genesis, old(currentBlock))
                && (status == CanonStat <==> Connected(blocks, genesis, hash))
                && (status != CanonStat ==> unchanged(`canon, `lookup, `currentBlock, `headHeader, `headFastBlock))
                && (status == CanonStat ==>
                      && currentBlock == hash
                      && Switched(blocks, genesis, old(lookup), lookup, old(currentBlock), hash,
                                  Fork(blocks, genesis, old(currentBlock), hash, blocks[old(currentBlock)].number)))
    {
      hide Branch, At, Holds, WriteChain, WriteTxs, Fork, Switched;
      if block.number <= blocks[currentBlock].number {
        return NonStat;
      }
      ghost var cur := currentBlock;
      GrownPath(blocks, genesis, canon, cur, hash, block);
      blocks := blocks[hash := block];
      if block.parent != currentBlock {
        var ok := Reorg(hash);
        if !ok {
          return NonStat;
        }
        RewriteSwitched(blocks, genesis, old(lookup), lookup, cur, hash);
        WriteTxLookupEntries(hash);
        WriteTxLookupEntries(hash);
        assert canon == canon[block.number := hash] by {
          CanonicalHead(blocks, genesis, canon, hash);
        }
        Insert(hash);
      } else {
        WriteTxLookupEntries(hash);
        WriteTxLookupEntries(hash);
        ExtendLookup(blocks, genesis, old(lookup), cur, hash);
        ExtendPath(blocks, genesis, canon, cur, hash);
        Insert(hash);
      }
      status := CanonStat;
    }

    /** Writes any blocks in any order. The lookup is exact after every one of them if and only if no switch
        on the way loses a transaction; and it is exact if no path of blocks holds a transaction twice. */
    method WriteBlocks(batch: seq<(Hash, Block)>, ghost all: Blocks)
      returns (ghost states: seq<Stored>, ghost lookups: seq<Lookup>)
      requires Valid() && Within(blocks, all) && Numbered(all)
      requires forall i | 0 <= i < |batch| :: batch[i].0 in all && all[batch[i].0] == batch[i].1
      modifies this
      ensures Valid() && Within(blocks, all)
      ensures blocks[currentBlock].number >= old(blocks[currentBlock].number)
      ensures Written(genesis, batch, states, lookups, |batch|)
      ensures states[0] == old(Stored(blocks, currentBlock)) && lookups[0] == old(lookup)
      ensures states[|batch|] == Stored(blocks, currentBlock) && lookups[|batch|] == lookup
      ensures old(LookupExact(blocks, genesis, lookup, currentBlock)) ==>
                ((forall i | 0 <= i <= |batch| :: Exact(genesis, states[i], lookups[i])) <==>
                 (forall i | 0 <= i < |batch| :: !Loses(genesis, states[i], states[i + 1])))
      ensures OncePerPath(all, genesis) && old(LookupExact(blocks, genesis, lookup, currentBlock)) ==>
                LookupExact(blocks, genesis, lookup, currentBlock)
    {
      hide At, Fork, Switched, OncePerPath, LookupExact, Written, Loses, Write, LookupStep;
      ghost var s := Stored(blocks, currentBlock);
      ghost var exact := OncePerPath(all, genesis) && Exact(genesis, s, lookup);
      states, lookups := [s], [lookup];
      WrittenNone(genesis, batch, s, lookup);
      for i := 0 to |batch|
        invariant Valid() && Within(blocks, all)
        invariant blocks[currentBlock].number >= old(blocks[currentBlock].number)
        invariant Written(genesis, batch, states, lookups, i) && |states| == |lookups| == i + 1
        invariant states[0] == s && lookups[0] == old(lookup)
        invariant states[i] == Stored(blocks, currentBlock) && lookups[i] == lookup
        invariant exact ==> Exact(genesis, states[i], lookup)
      {
        var (hash, block) := batch[i];
        var status := WriteBlockWithState(hash, block);
        ghost var s' := Stored(blocks, currentBlock);
        WriteIs(genesis, all, states[i], s', hash, block, status == CanonStat, lookups[i], lookup);
        WrittenMore(genesis, batch, states, lookups, i, s', lookup);
        states, lookups := states + [s'], lookups + [lookup];
      }
      if Exact(genesis, s, old(lookup)) {
        ExactRunIff(genesis, batch, states, lookups);
      }
    }
  }

  // ----- Runs of writes

  datatype Stored = Stored(blocks: Blocks, current: Hash)

  /** The stored blocks and the current one after a write. */
  ghost function Write(genesis: Hash, s: Stored, hash: Hash, block: Block): Stored {
    if s.current in s.blocks && block.number <= s.blocks[s.current].number then s
    else
      var blocks := s.blocks[hash := block];
      Stored(blocks, if Connected(blocks, genesis, hash) then hash else s.current)
  }

  ghost predicate Exact(genesis: Hash, s: Stored, lookup: Lookup) {
    Connected(s.blocks, genesis, s.current) && LookupExact(s.blocks, genesis, lookup, s.current)
  }

  /** The current block changes to a higher one. */
  ghost predicate Switches(genesis: Hash, s: Stored, s': Stored) {
    && Connected(s'.blocks, genesis, s.current) && Connected(s'.blocks, genesis, s'.current)
    && s'.blocks[s.current].number < s'.blocks[s'.current].number
  }

  ghost function ForkOf(genesis: Hash, s: Stored, s': Stored): nat
    requires Switches(genesis, s, s')
  {
    Fork(s'.blocks, genesis, s.current, s'.current, s'.blocks[s.current].number)
  }

  /** The switch drops a transaction that also sits below the fork. */
  ghost predicate Loses(genesis: Hash, s: Stored, s': Stored) {
    Switches(genesis, s, s') &&
    var m := ForkOf(genesis, s, s');
    exists t: TxHash | Dropped(s'.blocks, genesis, s.current, s'.current, m, t) ::
      LastWith(s'.blocks, genesis, At(s'.blocks, genesis, s'.current, m), t) != None
  }

  /** What a write does to the lookup. */
  ghost predicate LookupStep(genesis: Hash, s: Stored, s': Stored, lookup: Lookup, lookup': Lookup) {
    && Connected(s.blocks, genesis, s.current) && Within(s.blocks, s'.blocks)
    && if s'.current == s.current then lookup' == lookup
       else
         && Switches(genesis, s, s')
         && Switched(s'.blocks, genesis, lookup, lookup', s.current, s'.current, ForkOf(genesis, s, s'))
  }

  /** The first `n` writes of a batch, with the states and lookups on the way. */
  ghost predicate Written(genesis: Hash, batch: seq<(Hash, Block)>, states: seq<Stored>, lookups: seq<Lookup>, n: nat) {
    && n <= |batch| && |states| == |lookups| == n + 1
    && forall i | 0 <= i < n ::
         && states[i + 1] == Write(genesis, states[i], batch[i].0, batch[i].1)
         && LookupStep(genesis, states[i], states[i + 1], lookups[i], lookups[i + 1])
  }

  lemma WrittenNone(genesis: Hash, batch: seq<(Hash, Block)>, s: Stored, lookup: Lookup)
    ensures Written(genesis, batch, [s], [lookup], 0)
  {
  }

  lemma WrittenMore(genesis: Hash, batch: seq<(Hash, Block)>, states: seq<Stored>, lookups: seq<Lookup>, n: nat,
                    s: Stored, lookup: Lookup)
    requires Written(genesis, batch, states, lookups, n) && n < |batch| && |states| == |lookups| == n + 1
    requires s == Write(genesis, states[n], batch[n].0, batch[n].1) && LookupStep(genesis, states[n], s, lookups[n], lookup)
    ensures Written(genesis, batch, states + [s], lookups + [lookup], n + 1)
  {
    hide Write, LookupStep;
  }

  /** What a write does is a step of the run; where no path repeats a transaction it keeps the lookup exact. */
  lemma WriteIs(genesis: Hash, all: Blocks, s: Stored, s': Stored, hash: Hash, block: Block, switched: bool,
                lookup: Lookup, lookup': Lookup)
    requires Connected(s.blocks, genesis, s.current) && (hash in s.blocks ==> s.blocks[hash] == block)
    requires Within(s'.blocks, all)
    requires if block.number <= s.blocks[s.current].number then s' == s && lookup' == lookup
             else
               && s'.blocks == s.blocks[hash := block] && Connected(s'.blocks, genesis, s.current)
               && (switched <==> Connected(s'.blocks, genesis, hash))
               && s'.current == (if switched then hash else s.current)
               && if switched then
                    Switched(s'.blocks, genesis, lookup, lookup', s.current, hash,
                             Fork(s'.blocks, genesis, s.current, hash, s'.blocks[s.current].number))
                  else lookup' == lookup
    ensures s' == Write(genesis, s, hash, block) && LookupStep(genesis, s, s', lookup, lookup')
    ensures OncePerPath(all, genesis) && Exact(genesis, s, lookup) ==> Exact(genesis, s', lookup')
  {
    hide At, Fork, Switched, OncePerPath, LookupExact, LastWith;
    if OncePerPath(all, genesis) && Exact(genesis, s, lookup) && s' != s {
      if switched {
        SwitchExactOnce(s.blocks, s'.blocks, all, genesis, lookup, lookup', s.current, hash);
      } else {
        GrownLookup(s.blocks, s'.blocks, genesis, lookup, s.current);
      }
    }
  }

  /** A write keeps an exact lookup exact if and only if it loses nothing. */
  lemma ExactStepIff(genesis: Hash, s: Stored, s': Stored, lookup: Lookup, lookup': Lookup)
    requires LookupStep(genesis, s, s', lookup, lookup') && Exact(genesis, s, lookup)
    ensures Exact(genesis, s', lookup') <==> !Loses(genesis, s, s')
  {
    hide Switched, Branch, Holds, LastWith, LookupExact, At, Fork, Dropped;
    GrownLookup(s.blocks, s'.blocks, genesis, lookup, s.current);
    if s'.current != s.current {
      SwitchExactIff(s'.blocks, genesis, lookup, lookup', s.current, s'.current, ForkOf(genesis, s, s'));
    }
  }

  lemma ExactRunIff(genesis: Hash, batch: seq<(Hash, Block)>, states: seq<Stored>, lookups: seq<Lookup>)
    requires Written(genesis, batch, states, lookups, |batch|) && |states| == |lookups| == |batch| + 1
    requires Exact(genesis, states[0], lookups[0])
    ensures (forall i | 0 <= i <= |batch| :: Exact(genesis, states[i], lookups[i])) <==>
            (forall i | 0 <= i < |batch| :: !Loses(genesis, states[i], states[i + 1]))
  {
    hide Exact, Loses, LookupStep, Write;
    forall i | 0 <= i < |batch| && Exact(genesis, states[i], lookups[i])
      ensures Exact(genesis, states[i + 1], lookups[i + 1]) <==> !Loses(genesis, states[i], states[i + 1])
    {
      ExactStepIff(genesis, states[i], states[i + 1], lookups[i], lookups[i + 1]);
    }
    if forall i | 0 <= i < |batch| :: !Loses(genesis, states[i], states[i + 1]) {
      var k := 0;
      while k < |batch|
        invariant 0 <= k <= |batch| && forall i | 0 <= i <= k :: Exact(genesis, states[i], lookups[i])
      {
        assert Exact(genesis, states[k], lookups[k]);
        assert !Loses(genesis, states[k], states[k + 1]);
        k := k + 1;
      }
    }
  }

  /** Storing one more block changes no path. */
  lemma {:induction false} Grown(blocks: Blocks, all: Blocks, genesis: Hash, h: Hash)
    requires forall x | x in blocks :: x in all && all[x] == blocks[x]
    requires Connected(blocks, genesis, h)
    ensures Connected(all, genesis, h)
    ensures forall n: nat | n <= blocks[h].number :: At(all, genesis, h, n) == At(blocks, genesis, h, n)
    ensures forall t: TxHash :: LastWith(all, genesis, h, t) == LastWith(blocks, genesis, h, t)
    decreases blocks[h].number
  {
    if blocks[h].number > 0 {
      Grown(blocks, all, genesis, blocks[h].parent);
    }
  }

  lemma GrownPath(blocks: Blocks, genesis: Hash, canon: Canon, current: Hash, hash: Hash, block: Block)
    requires IsPath(blocks, genesis, canon, current) && (hash in blocks ==> blocks[hash] == block)
    ensures IsPath(blocks[hash := block], genesis, canon, current)
  {
    Grown(blocks, blocks[hash := block], genesis, current);
  }

  ghost predicate Within(blocks: Blocks, all: Blocks) {
    forall x | x in blocks :: x in all && all[x] == blocks[x]
  }

  /** Every block whose parent is among the blocks is numbered one above it. */
  ghost predicate Numbered(all: Blocks) {
    forall h | h in all && all[h].parent in all :: all[h].number == all[all[h].parent].number + 1
  }

  /** No path from the genesis holds a transaction twice. */
  ghost predicate OncePerPath(all: Blocks, genesis: Hash) {
    forall h: Hash, t: TxHash | Connected(all, genesis, h) && all[h].number > 0 && t in all[h].txs ::
      LastWith(all, genesis, all[h].parent, t) == None
  }

  lemma GrownLookup(blocks: Blocks, all: Blocks, genesis: Hash, lookup: Lookup, h: Hash)
    requires Within(blocks, all) && Connected(blocks, genesis, h) && LookupExact(blocks, genesis, lookup, h)
    ensures Connected(all, genesis, h) && LookupExact(all, genesis, lookup, h)
  {
    Grown(blocks, all, genesis, h);
  }

  lemma {:induction false} AbsentBelow(blocks: Blocks, genesis: Hash, h: Hash, n: nat, t: TxHash)
    requires Connected(blocks, genesis, h) && n <= blocks[h].number && LastWith(blocks, genesis, h, t) == None
    ensures LastWith(blocks, genesis, At(blocks, genesis, h, n), t) == None
    decreases blocks[h].number
  {
    if n < blocks[h].number {
      AbsentBelow(blocks, genesis, blocks[h].parent, n, t);
    }
  }

  lemma {:induction false} OnceAboveFork(blocks: Blocks, genesis: Hash, h: Hash, m: nat, t: TxHash)
    requires OncePerPath(blocks, genesis) && Connected(blocks, genesis, h) && m <= blocks[h].number
    requires Holds(blocks, Branch(blocks, genesis, h, m), t)
    ensures LastWith(blocks, genesis, At(blocks, genesis, h, m), t) == None
    decreases blocks[h].number
  {
    if m < blocks[h].number {
      var p := blocks[h].parent;
      HoldsCons(blocks, h, Branch(blocks, genesis, p, m), t);
      if t in blocks[h].txs {
        AbsentBelow(blocks, genesis, p, m, t);
      } else {
        OnceAboveFork(blocks, genesis, p, m, t);
      }
    }
  }

  lemma OnceWithin(blocks: Blocks, all: Blocks, genesis: Hash)
    requires Within(blocks, all) && OncePerPath(all, genesis)
    ensures OncePerPath(blocks, genesis)
  {
    forall h: Hash, t: TxHash | Connected(blocks, genesis, h) && blocks[h].number > 0 && t in blocks[h].txs
      ensures LastWith(blocks, genesis, blocks[h].parent, t) == None
    {
      Grown(blocks, all, genesis, h);
      Grown(blocks, all, genesis, blocks[h].parent);
    }
  }

  /** Where no path repeats a transaction, a switch keeps the lookup exact. */
  lemma SwitchExactOnce(blocks: Blocks, blocks': Blocks, all: Blocks, genesis: Hash, lookup: Lookup, lookup': Lookup,
                        old': Hash, new': Hash)
    requires Within(blocks, blocks') && Within(blocks', all) && OncePerPath(all, genesis)
    requires Connected(blocks, genesis, old') && Connected(blocks', genesis, old') && Connected(blocks', genesis, new')
    requires blocks'[old'].number < blocks'[new'].number
    requires LookupExact(blocks, genesis, lookup, old')
    requires Switched(blocks', genesis, lookup, lookup', old', new',
                      Fork(blocks', genesis, old', new', blocks'[old'].number))
    ensures LookupExact(blocks', genesis, lookup', new')
  {
    hide Switched, Branch, Holds, LastWith, LookupExact, OncePerPath;
    GrownLookup(blocks, blocks', genesis, lookup, old');
    OnceWithin(blocks', all, genesis);
    var m := Fork(blocks', genesis, old', new', blocks'[old'].number);
    SwitchExactIff(blocks', genesis, lookup, lookup', old', new', m);
    forall t: TxHash | Dropped(blocks', genesis, old', new', m, t)
      ensures LastWith(blocks', genesis, At(blocks', genesis, new', m), t) == None
    {
      OnceAboveFork(blocks', genesis, old', m, t);
    }
  }

  lemma CanonicalHead(blocks: Blocks, genesis: Hash, canon: Canon, h: Hash)
    requires IsPath(blocks, genesis, canon, h)
    ensures Read(canon, blocks[h].number) == Some(h)
  {
  }

  /** Writing the entries of the new head once more changes nothing. */
  lemma RewriteSwitched(blocks: Blocks, genesis: Hash, lookup: Lookup, lookup': Lookup, old': Hash, new': Hash)
    requires Connected(blocks, genesis, old') && Connected(blocks, genesis, new')
    requires blocks[old'].number < blocks[new'].number
    requires Switched(blocks, genesis, lookup, lookup', old', new', Fork(blocks, genesis, old', new', blocks[old'].number))
    ensures WriteTxs(lookup', blocks[new'].txs, blocks[new'].number) == lookup'
  {
    hide Fork, At, WriteTxs, WriteChain, Branch, Holds;
    var m := Fork(blocks, genesis, old', new', blocks[old'].number);
    forall t | t in blocks[new'].txs
      ensures Read(lookup', t) == Some(blocks[new'].number)
    {
      HeadWritten(blocks, genesis, lookup, new', m, t);
    }
    Rewrite(lookup', blocks[new'].txs, blocks[new'].number);
  }

  lemma Rewrite(lookup: Lookup, txs: seq<TxHash>, number: nat)
    requires forall t | t in txs :: Read(lookup, t) == Some(number)
    ensures WriteTxs(lookup, txs, number) == lookup
  {
  }

  lemma HeadWritten(blocks: Blocks, genesis: Hash, lookup: Lookup, h: Hash, n: nat, t: TxHash)
    requires Connected(blocks, genesis, h) && n < blocks[h].number && t in blocks[h].txs
    ensures var chain := Branch(blocks, genesis, h, n);
            Holds(blocks, chain, t) && Read(WriteChain(blocks, lookup, chain), t) == Some(blocks[h].number)
  {
    HoldsCons(blocks, h, Branch(blocks, genesis, blocks[h].parent, n), t);
    WriteBranch(blocks, genesis, lookup, h, n, t);
  }

  /** Extending the current block is the switch whose old branch is empty. */
  lemma ExtendLookup(blocks: Blocks, genesis: Hash, lookup: Lookup, old': Hash, new': Hash)
    requires Connected(blocks, genesis, old') && new' in blocks
    requires blocks[new'].parent == old' && blocks[new'].number == blocks[old'].number + 1
    ensures Connected(blocks, genesis, new')
    ensures var n := blocks[new'].number;
            var once := WriteTxs(lookup, blocks[new'].txs, n);
            var m := Fork(blocks, genesis, old', new', blocks[old'].number);
            WriteTxs(once, blocks[new'].txs, n) == once && Switched(blocks, genesis, lookup, once, old', new', m)
  {
    hide At, Fork, Branch, Holds, WriteTxs, WriteChain;
    var m := blocks[old'].number;
    ExtendBranch(blocks, genesis, old', new');
    ExtendWrites(blocks, lookup, new');
    WriteNone(blocks, lookup);
    forall t: TxHash
      ensures !Holds(blocks, [], t)
    {
      HoldsNone(blocks, t);
    }
  }

  /** The branches above the former head are empty and the new head alone. */
  lemma ExtendBranch(blocks: Blocks, genesis: Hash, old': Hash, new': Hash)
    requires Connected(blocks, genesis, old') && Connected(blocks, genesis, new')
    requires blocks[new'].parent == old' && blocks[new'].number == blocks[old'].number + 1
    ensures Fork(blocks, genesis, old', new', blocks[old'].number) == blocks[old'].number
    ensures Branch(blocks, genesis, old', blocks[old'].number) == []
    ensures Branch(blocks, genesis, new', blocks[old'].number) == [new']
  {
    var m := blocks[old'].number;
    assert At(blocks, genesis, old', m) == old';
    assert At(blocks, genesis, new', m) == At(blocks, genesis, old', m);
    var rest := Branch(blocks, genesis, old', m);
    assert rest == [];
    assert Branch(blocks, genesis, new', m) == [new'] + rest;
  }

  lemma ExtendWrites(blocks: Blocks, lookup: Lookup, h: Hash)
    requires h in blocks
    ensures var once := WriteTxs(lookup, blocks[h].txs, blocks[h].number);
            WriteTxs(once, blocks[h].txs, blocks[h].number) == once && WriteChain(blocks, lookup, [h]) == once
  {
    hide Holds;
    assert [h][1..] == [];
    assert WriteChain(blocks, lookup, []) == lookup;
    Rewrite(WriteTxs(lookup, blocks[h].txs, blocks[h].number), blocks[h].txs, blocks[h].number);
  }

  lemma HoldsNone(blocks: Blocks, t: TxHash)
    ensures !Holds(blocks, [], t)
  {
  }

  lemma ExtendPath(blocks: Blocks, genesis: Hash, canon: Canon, old': Hash, new': Hash)
    requires IsPath(blocks, genesis, canon, old') && new' in blocks
    requires blocks[new'].parent == old' && blocks[new'].number == blocks[old'].number + 1
    ensures IsPath(blocks, genesis, canon[blocks[new'].number := new'], new')
    ensures Read(canon, blocks[new'].number) == None
  {
  }

  lemma {:induction false} BranchEntries(blocks: Blocks, genesis: Hash, h: Hash, n: nat)
    requires Connected(blocks, genesis, h) && n <= blocks[h].number
    ensures var s := Branch(blocks, genesis, h, n);
            && |s| == blocks[h].number - n && (s != [] ==> s[0] == h)
            && forall k | 0 <= k < |s| :: s[k] == At(blocks, genesis, h, blocks[h].number - k)
    decreases blocks[h].number
  {
    if blocks[h].number > n {
      BranchEntries(blocks, genesis, blocks[h].parent, n);
    }
  }

  /** `canon'` is `canon` with the ancestors of `h` at heights `m + 1` to `top` written over it. */
  ghost predicate Laid(blocks: Blocks, genesis: Hash, h: Hash, canon: Canon, canon': Canon, m: nat, top: int)
    requires Connected(blocks, genesis, h) && top <= blocks[h].number
  {
    forall n: nat :: Read(canon', n) == if m < n <= top then Some(At(blocks, genesis, h, n)) else Read(canon, n)
  }

  lemma LaidNone(blocks: Blocks, genesis: Hash, h: Hash, canon: Canon, m: nat)
    requires Connected(blocks, genesis, h) && m <= blocks[h].number
    ensures Laid(blocks, genesis, h, canon, canon, m, m)
  {
  }

  lemma LaidMore(blocks: Blocks, genesis: Hash, h: Hash, canon: Canon, canon': Canon, m: nat, top: int)
    requires Connected(blocks, genesis, h) && m <= top < blocks[h].number
    requires Laid(blocks, genesis, h, canon, canon', m, top)
    ensures Laid(blocks, genesis, h, canon, canon'[top + 1 := At(blocks, genesis, h, top + 1)], m, top + 1)
    ensures Read(canon', top + 1) == Read(canon, top + 1)
  {
  }

  lemma WriteNoTxs(lookup: Lookup, number: nat)
    ensures WriteTxs(lookup, [], number) == lookup
  {
  }

  lemma WriteOneMore(lookup: Lookup, txs: seq<TxHash>, i: nat, number: nat)
    requires i < |txs|
    ensures WriteTxs(lookup, txs[..i + 1], number) == WriteTxs(lookup, txs[..i], number)[txs[i] := number]
  {
    assert txs[..i + 1] == txs[..i] + [txs[i]];
  }

  /** The transactions of a chain, from its last block to its first. */
  ghost function TxsUp(blocks: Blocks, chain: seq<Hash>): seq<TxHash>
    requires forall k | 0 <= k < |chain| :: chain[k] in blocks
    decreases |chain|
  {
    if chain == [] then [] else TxsUp(blocks, chain[1..]) + blocks[chain[0]].txs
  }

  lemma {:induction false} TxsUpHolds(blocks: Blocks, chain: seq<Hash>)
    requires forall k | 0 <= k < |chain| :: chain[k] in blocks
    ensures forall t :: t in TxsUp(blocks, chain) <==> Holds(blocks, chain, t)
    decreases |chain|
  {
    if chain != [] {
      TxsUpHolds(blocks, chain[1..]);
      assert chain == [chain[0]] + chain[1..];
      forall t
        ensures Holds(blocks, chain, t) <==> t in blocks[chain[0]].txs || Holds(blocks, chain[1..], t)
      {
        HoldsCons(blocks, chain[0], chain[1..], t);
      }
    }
  }

  lemma WriteNone(blocks: Blocks, lookup: Lookup)
    ensures WriteChain(blocks, lookup, []) == lookup && TxsUp(blocks, []) == []
  {
  }

  lemma WriteFirst(blocks: Blocks, lookup: Lookup, chain: seq<Hash>, i: nat)
    requires i < |chain| && forall k | 0 <= k < |chain| :: chain[k] in blocks
    ensures WriteChain(blocks, lookup, chain[i..]) ==
            WriteTxs(WriteChain(blocks, lookup, chain[i + 1..]), blocks[chain[i]].txs, blocks[chain[i]].number)
    ensures TxsUp(blocks, chain[i..]) == TxsUp(blocks, chain[i + 1..]) + blocks[chain[i]].txs
  {
    assert chain[i..][1..] == chain[i + 1..];
  }

  /** Above the fork the new branch differs from what is canonical. */
  lemma AboveForkDiffers(blocks: Blocks, genesis: Hash, canon: Canon, current: Hash, h: Hash)
    requires IsPath(blocks, genesis, canon, current) && Connected(blocks, genesis, h)
    requires blocks[h].number > blocks[current].number
    ensures var m := Fork(blocks, genesis, current, h, blocks[current].number);
            forall n: nat | m < n <= blocks[h].number :: Read(canon, n) != Some(At(blocks, genesis, h, n))
  {
  }

  /** Old entries up to the fork and new ones above it make up the path of the new head. */
  lemma JoinedPath(blocks: Blocks, genesis: Hash, canon: Canon, canon': Canon, current: Hash, h: Hash)
    requires IsPath(blocks, genesis, canon, current) && Connected(blocks, genesis, h)
    requires blocks[h].number > blocks[current].number
    requires var m := Fork(blocks, genesis, current, h, blocks[current].number);
             Laid(blocks, genesis, h, canon, canon', m, blocks[h].number)
    ensures IsPath(blocks, genesis, canon', h)
  {
    var m := Fork(blocks, genesis, current, h, blocks[current].number);
    forall n: nat
      ensures n in canon' <==> n <= blocks[h].number
      ensures n <= blocks[h].number ==> Read(canon', n) == Some(At(blocks, genesis, h, n))
    {
      if n <= m {
        AtAt(blocks, genesis, current, m, n);
        AtAt(blocks, genesis, h, m, n);
      }
      assert Read(canon', n) == if m < n <= blocks[h].number then Some(At(blocks, genesis, h, n)) else Read(canon, n);
    }
  }

  lemma WalkStarts(blocks: Blocks, h: Hash)
    requires h in blocks
    ensures Leads(blocks, h, [], h) && forall t :: !Holds(blocks, [], t)
  {
  }

  lemma HoldsSnoc(blocks: Blocks, chain: seq<Hash>, h: Hash)
    requires h in blocks
    ensures forall t :: Holds(blocks, chain + [h], t) <==> Holds(blocks, chain, t) || t in blocks[h].txs
  {
    forall t
      ensures Holds(blocks, chain + [h], t) <==> Holds(blocks, chain, t) || t in blocks[h].txs
    {
      if Holds(blocks, chain, t) {
        var k :| 0 <= k < |chain| && chain[k] in blocks && t in blocks[chain[k]].txs;
        assert (chain + [h])[k] == chain[k];
      } else if t in blocks[h].txs {
        assert (chain + [h])[|chain|] == h;
      }
    }
  }
}
