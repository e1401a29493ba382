/** Turning a block's transactions into a dependency graph.

    Only three things about a transaction matter to the graph: whether its sender could be recovered,
    whether it runs contract code, and otherwise which two accounts it touches. */
module TxDag {
  import opened Common
  import opened Dag

  type Address = nat

  /** What a signature that cannot be recovered yields. */
  const ZERO_ADDRESS: Address := 0

  datatype Tx = Tx(hash: nat, from: Address, to: Option<Address>, nonce: nat, value: nat,
                   gas: nat, gasPrice: nat, intrinsicGas: Option<nat>)

  /** What the executor knows about code before the block runs: the precompiled addresses and those
      with code in the state, the addresses created by earlier lists, and the creation rule. */
  datatype CodeView = CodeView(code: set<Address>, cache: set<Address>, create: (Address, nat) -> Address)

  datatype Kind = Unresolved | Contract | Transfer(from: Address, to: Address)

  predicate Resolved(tx: Tx) {
    tx.from != ZERO_ADDRESS
  }

  /** Some resolvable creation among the first `i` transactions creates `a`. */
  predicate CreatedBefore(env: CodeView, txs: seq<Tx>, i: nat, a: Address)
    requires i <= |txs|
  {
    exists k | 0 <= k < i :: Resolved(txs[k]) && txs[k].to.None? && env.create(txs[k].from, txs[k].nonce) == a
  }

  function KindAt(env: CodeView, txs: seq<Tx>, i: nat): Kind
    requires i < |txs|
  {
    var tx := txs[i];
    if !Resolved(tx) then Unresolved
    else if tx.to.None? || tx.to.value in env.code + env.cache || CreatedBefore(env, txs, i, tx.to.value) then Contract
    else Transfer(tx.from, tx.to.value)
  }

  function Kinds(env: CodeView, txs: seq<Tx>): (ks: seq<Kind>)
    ensures |ks| == |txs| && forall i | 0 <= i < |txs| :: ks[i] == KindAt(env, txs, i)
  {
    seq(|txs|, i requires 0 <= i < |txs| => KindAt(env, txs, i))
  }

  predicate Uses(k: Kind, a: Address) {
    k.Transfer? && (k.from == a || k.to == a)
  }

  /** Two transactions whose order can matter. */
  predicate Conflict(k1: Kind, k2: Kind) {
    && !k1.Unresolved? && !k2.Unresolved?
    && (k1.Contract? || k2.Contract? || Uses(k1, k2.from) || Uses(k1, k2.to))
  }

  /** The last contract before `j`, or -1. */
  function LastContract(ks: seq<Kind>, j: nat): (l: int)
    requires j <= |ks|
    ensures -1 <= l < j && (l >= 0 ==> ks[l].Contract?)
    ensures forall i | l < i < j :: !ks[i].Contract?
  {
    if j == 0 then -1 else if ks[j - 1].Contract? then j - 1 else LastContract(ks, j - 1)
  }

  /** The last transfer before `j` and after every contract before `j` that touches `a`, or -1. */
  function LastUse(ks: seq<Kind>, j: nat, a: Address): (u: int)
    requires j <= |ks|
    ensures -1 <= u < j && (u >= 0 ==> LastContract(ks, j) < u && Uses(ks[u], a))
    ensures forall i | LastContract(ks, j) < i < j && Uses(ks[i], a) :: i <= u
  {
    if j == 0 || ks[j - 1].Contract? then -1
    else if Uses(ks[j - 1], a) then j - 1
    else LastUse(ks, j - 1, a)
  }

  function Span(lo: nat, hi: nat): (s: seq<nat>)
    requires lo <= hi
    ensures |s| == hi - lo && (forall u :: u in s <==> lo <= u < hi)
    ensures forall k | 0 <= k < |s| :: s[k] == lo + k
    decreases hi
  {
    if lo == hi then [] else Span(lo, hi - 1) + [hi - 1]
  }

  lemma SpanNone(lo: nat)
    ensures Span(lo, lo) == []
  {
  }

  lemma SpanMore(lo: nat, hi: nat)
    requires lo <= hi
    ensures Span(lo, hi + 1) == Span(lo, hi) + [hi]
  {
  }

  function Opt(u: int): (s: seq<nat>) {
    if u >= 0 then [u] else []
  }

  /** The edges into vertex `j`, in the order the graph builder records them. */
  function Preds(ks: seq<Kind>, j: nat): (s: seq<nat>)
    requires j < |ks|
    ensures forall u | u in s :: u < j
  {
    var l := LastContract(ks, j);
    match ks[j]
    case Unresolved => []
    case Contract => if j == 0 then [] else if j - l > 1 then Span(l + 1, j) else [l]
    case Transfer(from, to) =>
      var found := Opt(LastUse(ks, j, from)) + Opt(LastUse(ks, j, to));
      if found == [] then Opt(l) else found
  }

  function GraphOf(ks: seq<Kind>): (g: Graph)
    ensures |g| == |ks| && Ascending(g)
    ensures forall j | 0 <= j < |ks| :: g[j] == Preds(ks, j)
  {
    seq(|ks|, j requires 0 <= j < |ks| => Preds(ks, j))
  }

  /** Between two successive contracts there are transactions, all of them unresolvable. */
  ghost predicate UnresolvedGap(ks: seq<Kind>, a: nat, b: nat) {
    && a + 1 < b < |ks| && ks[a].Contract? && ks[b].Contract?
    && forall i | a < i < b :: ks[i].Unresolved?
  }

  ghost predicate NoGap(ks: seq<Kind>) {
    !exists a: nat, b: nat :: UnresolvedGap(ks, a, b)
  }

  ghost predicate Complete(ks: seq<Kind>) {
    forall i, j | 0 <= i < j < |ks| && Conflict(ks[i], ks[j]) :: Reaches(GraphOf(ks), i, j)
  }

  /** The graph orders every two conflicting transactions exactly when no two successive contracts
      are separated by unresolvable transactions only. */
  lemma CompleteIffNoGap(ks: seq<Kind>)
    ensures Complete(ks) <==> NoGap(ks)
  {
    if a: nat, b: nat :| UnresolvedGap(ks, a, b) {
      GapUnordered(ks, a, b);
      assert Conflict(ks[a], ks[b]);
    } else {
      forall i, j | 0 <= i < j < |ks| && Conflict(ks[i], ks[j])
        ensures Reaches(GraphOf(ks), i, j)
      {
        ConflictReaches(ks, i, j);
      }
    }
  }

  /** No edge is drawn without need: it joins two conflicting transactions, or an unresolvable one with the
      contract after it. */
  lemma EdgesNeeded(ks: seq<Kind>, u: nat, j: nat)
    requires j < |ks| && u in GraphOf(ks)[j]
    ensures u < j && (Conflict(ks[u], ks[j]) || (ks[u].Unresolved? && ks[j].Contract?))
  {
    assert u in Preds(ks, j);
  }

  lemma GapUnordered(ks: seq<Kind>, a: nat, b: nat)
    requires UnresolvedGap(ks, a, b)
    ensures !Reaches(GraphOf(ks), a, b)
  {
    var g := GraphOf(ks);
    assert LastContract(ks, b) == a;
    assert forall k | k in g[b] :: a < k && g[k] == [];
  }

  /** Every transfer hangs, directly or through earlier transfers, off the last contract before it. */
  lemma {:induction false} ContractReachesTransfer(ks: seq<Kind>, j: nat)
    requires j < |ks| && ks[j].Transfer? && LastContract(ks, j) >= 0
    ensures Reaches(GraphOf(ks), LastContract(ks, j), j)
    decreases j
  {
    var g, l := GraphOf(ks), LastContract(ks, j);
    if LastUse(ks, j, ks[j].from) >= 0 || LastUse(ks, j, ks[j].to) >= 0 {
      var k := Preds(ks, j)[0];
      assert k in g[j] && l < k < j && ks[k].Transfer?;
      SameSegment(ks, k, j);
      ContractReachesTransfer(ks, k);
    }
  }

  /** No contract lies between `i` and `j`, so both see the same last contract. */
  lemma SameSegment(ks: seq<Kind>, i: nat, j: nat)
    requires LastContract.requires(ks, j) && LastContract(ks, j) < i <= j
    ensures LastContract(ks, i) == LastContract(ks, j)
  {
  }

  lemma ContractReachesContract(ks: seq<Kind>, b: nat)
    requires b < |ks| && ks[b].Contract? && LastContract(ks, b) >= 0
    requires NoGap(ks)
    ensures Reaches(GraphOf(ks), LastContract(ks, b), b)
  {
    var g, a := GraphOf(ks), LastContract(ks, b);
    if b - a > 1 {
      assert !UnresolvedGap(ks, a, b);
      var t :| a < t < b && !ks[t].Unresolved?;
      SameSegment(ks, t, b);
      ContractReachesTransfer(ks, t);
      assert t in g[b];
    }
  }

  lemma {:induction false} ContractReachesLater(ks: seq<Kind>, i: nat, j: nat)
    requires i < j < |ks| && ks[i].Contract? && !ks[j].Unresolved?
    requires NoGap(ks)
    ensures Reaches(GraphOf(ks), i, j)
    decreases j
  {
    var l := LastContract(ks, j);
    if ks[j].Transfer? {
      ContractReachesTransfer(ks, j);
    } else {
      ContractReachesContract(ks, j);
    }
    if l != i {
      ContractReachesLater(ks, i, l);
      ReachesTransitive(GraphOf(ks), i, l, j);
    }
  }

  lemma TransferReachesContract(ks: seq<Kind>, i: nat, j: nat)
    requires i < j < |ks| && ks[i].Transfer? && ks[j].Contract?
    requires NoGap(ks)
    ensures Reaches(GraphOf(ks), i, j)
    decreases j
  {
    var l := LastContract(ks, j);
    if i > l {
      assert i in GraphOf(ks)[j];
    } else {
      TransferReachesContract(ks, i, l);
      ContractReachesLater(ks, l, j);
      ReachesTransitive(GraphOf(ks), i, l, j);
    }
  }

  /** Two transfers on one account are linked through the transfers on it in between. */
  lemma {:induction false} SharedAccountReaches(ks: seq<Kind>, i: nat, j: nat, a: Address)
    requires LastContract.requires(ks, j) && LastContract(ks, j) < i < j < |ks| && Uses(ks[i], a) && Uses(ks[j], a)
    ensures Reaches(GraphOf(ks), i, j)
    decreases j
  {
    hide LastUse, LastContract, Preds;
    var k := LastUse(ks, j, a);
    LastUseLinks(ks, j, a);
    assert i <= k;
    if i < k {
      SameSegment(ks, k, j);
      SharedAccountReaches(ks, i, k, a);
    }
  }

  lemma LastUseLinks(ks: seq<Kind>, j: nat, a: Address)
    requires j < |ks| && Uses(ks[j], a)
    ensures LastUse(ks, j, a) >= 0 ==> LastUse(ks, j, a) in GraphOf(ks)[j]
  {
    hide LastUse, LastContract;
  }

  lemma ConflictReaches(ks: seq<Kind>, i: nat, j: nat)
    requires i < j < |ks| && Conflict(ks[i], ks[j])
    requires NoGap(ks)
    ensures Reaches(GraphOf(ks), i, j)
  {
    var l := LastContract(ks, j);
    if ks[i].Contract? {
      ContractReachesLater(ks, i, j);
    } else if ks[j].Contract? {
      TransferReachesContract(ks, i, j);
    } else if l < i {
      SharedAccountReaches(ks, i, j, if Uses(ks[i], ks[j].from) then ks[j].from else ks[j].to);
    } else {
      TransferReachesContract(ks, i, l);
      ContractReachesLater(ks, l, j);
      ReachesTransitive(GraphOf(ks), i, l, j);
    }
  }

  /** A graph under construction towards `target`: all edges into vertices below `i`, the edges `into`
      vertex `i`, and nothing above. */
  ghost predicate Building(target: Graph, g: Graph, i: nat, into: seq<nat>) {
    && |g| == |target|
    && (forall j | 0 <= j < |g| :: g[j] == if j < i then target[j] else if j == i then into else [])
  }

  lemma BuildingStart(target: Graph, g: Graph)
    requires |g| == |target| && forall j | 0 <= j < |g| :: g[j] == []
    ensures Building(target, g, 0, [])
  {
  }

  lemma BuildingNext(target: Graph, g: Graph, i: nat)
    requires i < |target| && Building(target, g, i, target[i])
    ensures Building(target, g, i + 1, [])
  {
  }

  lemma BuildingDone(target: Graph, g: Graph)
    requires Building(target, g, |target|, [])
    ensures g == target
  {
  }

  /** `m` maps exactly the accounts touched since the last contract to their last transfer. */
  ghost predicate Tracks(ks: seq<Kind>, j: nat, m: map<Address, nat>)
    requires j <= |ks|
  {
    forall a: Address :: if a in m then m[a] == LastUse(ks, j, a) else LastUse(ks, j, a) == -1
  }

  lemma TracksStep(ks: seq<Kind>, j: nat, m: map<Address, nat>)
    requires j < |ks| && Tracks(ks, j, m)
    ensures match ks[j]
            case Unresolved => Tracks(ks, j + 1, m) && Preds(ks, j) == []
            case Contract => Tracks(ks, j + 1, map[])
            case Transfer(from, to) => Tracks(ks, j + 1, m[from := j][to := j])
    ensures LastContract(ks, j + 1) == if ks[j].Contract? then j else LastContract(ks, j)
  {
  }

  ghost predicate Caches(env: CodeView, txs: seq<Tx>, j: nat, cache: set<Address>)
    requires j <= |txs|
  {
    forall a :: a in cache <==> a in env.cache || CreatedBefore(env, txs, j, a)
  }

  lemma CachesStep(env: CodeView, txs: seq<Tx>, j: nat, cache: set<Address>)
    requires j < |txs| && Caches(env, txs, j, cache)
    ensures Caches(env, txs, j + 1,
                   if Resolved(txs[j]) && txs[j].to.None? then cache + {env.create(txs[j].from, txs[j].nonce)} else cache)
  {
    forall a
      ensures CreatedBefore(env, txs, j + 1, a) <==>
              CreatedBefore(env, txs, j, a) ||
              (Resolved(txs[j]) && txs[j].to.None? && env.create(txs[j].from, txs[j].nonce) == a)
    {
    }
  }

  lemma KindFromCache(env: CodeView, txs: seq<Tx>, j: nat, cache: set<Address>)
    requires j < |txs| && Caches(env, txs, j, cache)
    ensures KindAt(env, txs, j) ==
            if txs[j].from == ZERO_ADDRESS then Unresolved
            else if txs[j].to.None? || txs[j].to.value in cache || txs[j].to.value in env.code then Contract
            else Transfer(txs[j].from, txs[j].to.value)
  {
  }

  lemma ScanStart(env: CodeView, txs: seq<Tx>, ks: seq<Kind>)
    ensures Tracks(ks, 0, map[]) && LastContract(ks, 0) == -1 && Caches(env, txs, 0, env.cache)
  {
  }

  class TxDag {
    var dag: Dag
    var contracts: set<nat>

    constructor ()
      ensures fresh(dag)
    {
      dag := new Dag(0);
      contracts := {};
    }

    ghost predicate Ready(target: Graph, index: nat, into: seq<nat>)
      reads this, dag
    {
      dag.Valid() && dag.Fresh() && dag.size == |target| && Building(target, dag.Edges(), index, into)
    }

    method Link(ghost target: Graph, from: nat, index: nat, ghost into: seq<nat>)
      requires from < |target| && index < |target| && Ready(target, index, into)
      modifies dag
      ensures Ready(target, index, into + [from])
    {
      dag.AddEdge(from, index);
    }

    /** Draws the edges of one contract: from everything since the previous contract, or from the
        previous contract itself when it is the direct neighbour. */
    method LinkContract(ghost target: Graph, ghost ks: seq<Kind>, index: nat, latest: int)
      requires index < |ks| == |target| && ks[index].Contract? && latest == LastContract(ks, index)
      requires Ready(target, index, [])
      modifies dag
      ensures Ready(target, index, Preds(ks, index))
    {
      hide LastContract, Dag.Valid, Dag.Fresh, Dag.Edges, Building, Span;
      SpanNone(latest + 1);
      if index > 0 {
        if index - latest > 1 {
          for begin := latest + 1 to index
            invariant Ready(target, index, Span(latest + 1, begin))
          {
            Link(target, begin, index, Span(latest + 1, begin));
            SpanMore(latest + 1, begin);
          }
        } else if index - latest == 1 {
          Link(target, latest, index, []);
          assert [] + [latest] == [latest];
        }
      }
    }

    /** Draws the edges of one transfer: from the last transfers on its two accounts, or else from
        the previous contract. */
    method LinkTransfer(ghost target: Graph, ghost ks: seq<Kind>, index: nat, latest: int,
                        from: Address, to: Address, lastUse: map<Address, nat>)
      requires index < |ks| == |target| && ks[index] == Transfer(from, to) && latest == LastContract(ks, index)
      requires Tracks(ks, index, lastUse) && Ready(target, index, [])
      modifies dag
      ensures Ready(target, index, Preds(ks, index))
    {
      hide LastUse, LastContract, Dag.Valid, Dag.Fresh, Dag.Edges, Building;
      var found := 0;
      ghost var into := [];
      if from in lastUse {
        Link(target, lastUse[from], index, into);
        found, into := found + 1, into + [lastUse[from]];
      }
      if to in lastUse {
        Link(target, lastUse[to], index, into);
        found, into := found + 1, into + [lastUse[to]];
      }
      assert into == Opt(LastUse(ks, index, from)) + Opt(LastUse(ks, index, to));
      if found == 0 && latest >= 0 {
        Link(target, latest, index, into);
        assert into + [latest] == [latest];
      }
    }

    /** Builds the graph of a transaction list. */
    method MakeDagGraph(env: CodeView, txs: seq<Tx>)
      modifies this
      ensures fresh(dag) && dag.Valid() && dag.Fresh() && dag.size == |txs|
      ensures dag.Edges() == GraphOf(Kinds(env, txs))
      ensures forall i :: i in contracts <==> 0 <= i < |txs| && Kinds(env, txs)[i].Contract?
    {
      hide KindAt, CreatedBefore, LastContract, LastUse, Preds, Tracks, Caches, Dag.Valid, Dag.Fresh, Building;
      ghost var ks := Kinds(env, txs);
      ghost var target := GraphOf(ks);
      ScanStart(env, txs, ks);
      dag := new Dag(|txs|);
      BuildingStart(target, dag.Edges());
      contracts := {};
      var cache := env.cache;
      var transferAddressMap: map<Address, nat> := map[];
      var latest := -1;
      for index := 0 to |txs|
        invariant fresh(dag) && Ready(target, index, [])
        invariant latest == LastContract(ks, index)
        invariant Tracks(ks, index, transferAddressMap)
        invariant forall i :: i in contracts <==> 0 <= i < index && ks[i].Contract?
        invariant Caches(env, txs, index, cache)
      {
        var tx := txs[index];
        TracksStep(ks, index, transferAddressMap);
        CachesStep(env, txs, index, cache);
        KindFromCache(env, txs, index, cache);
        if tx.from == ZERO_ADDRESS {
          BuildingNext(target, dag.Edges(), index);
          continue;
        }
        var isContract := tx.to.None? || tx.to.value in cache || tx.to.value in env.code;
        if tx.to.None? {
          cache := cache + {env.create(tx.from, tx.nonce)};
        }
        if isContract {
          contracts := contracts + {index};
          LinkContract(target, ks, index, latest);
          latest := index;
          transferAddressMap := map[];
        } else {
          LinkTransfer(target, ks, index, latest, tx.from, tx.to.value, transferAddressMap);
          transferAddressMap := transferAddressMap[tx.from := index];
          transferAddressMap := transferAddressMap[tx.to.value := index];
        }
        BuildingNext(target, dag.Edges(), index);
      }
      BuildingDone(target, dag.Edges());
    }
  }
}
