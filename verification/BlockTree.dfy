/** The tree of certified blocks above the last committed one.

    The nodes are objects linked to their parents and children; `live` holds the hashes of those that are in
    the tree. A node that was removed may still be pointed at, but not by a live one. */
module BlockTree {
  import opened ChainLog
  import opened Common

  /** `rank` is the view the block was certified in plus one, wrapping around so that the genesis ranks
      lowest. */
  datatype Ext = Ext(block: Block, rank: U64, qc: Option<QuorumCert>, parent: Option<Hash>, children: set<Hash>)

  type Exts = map<Hash, Ext>

  function Pred(n: U64): U64 {
    if n == 0 then 0xFFFF_FFFF_FFFF_FFFF else n - 1
  }

  function Rank(block: Block, view: U64): U64 {
    if block.number == 0 then 0 else Succ(view)
  }

  /** Every live node but the root sits on a live parent, and links run both ways. Nothing but the root is at
      the height of the root or below. */
  ghost predicate Shape(exts: Exts, live: set<Hash>, root: Hash) {
    && live <= exts.Keys && root in live && exts[root].parent == None
    && (forall h | h in live :: exts[h].block.hash == h)
    && (forall h | h in live && h != root :: exts[h].block.number > exts[root].block.number)
    && (forall h | h in live && h != root :: OnParent(exts, live, h))
    && (forall p | p in live :: exts[p].children == ChildrenOf(exts, live, root, p))
  }

  ghost function ChildrenOf(exts: Exts, live: set<Hash>, root: Hash, p: Hash): set<Hash>
    requires live <= exts.Keys
  {
    set h | h in live && h != root && exts[h].block.parent == p
  }

  ghost predicate OnParent(exts: Exts, live: set<Hash>, h: Hash)
    requires h in exts && live <= exts.Keys
  {
    var p := exts[h].block.parent;
    p in live && exts[p].block.number + 1 == exts[h].block.number && exts[h].parent == Some(p)
  }

  /** `h` is `a` or one of its descendants. */
  ghost predicate Descends(exts: Exts, live: set<Hash>, root: Hash, a: Hash, h: Hash)
    requires Shape(exts, live, root)
    decreases if h in live then exts[h].block.number else 0
  {
    h in live &&
    (h == a || (h != root && assert OnParent(exts, live, h); Descends(exts, live, root, a, exts[h].block.parent)))
  }

  /** The parent of `hash` is live, one below. */
  predicate HasParent(exts: Exts, live: set<Hash>, hash: Hash)
    requires hash in exts
  {
    var b := exts[hash].block;
    b.parent in live && b.parent in exts && exts[b.parent].block.number == Pred(b.number)
  }

  predicate IsChild(exts: Exts, hash: Hash, c: Hash)
    requires hash in exts
  {
    c in exts && exts[c].block.number == Succ(exts[hash].block.number) && exts[c].block.parent == hash
  }

  /** `hash` linked to its parent. */
  function LinkUp(exts: Exts, live: set<Hash>, hash: Hash): Exts
    requires hash in exts
  {
    if !HasParent(exts, live, hash) then exts
    else
      var p := exts[hash].block.parent;
      var down := exts[p := exts[p].(children := exts[p].children + {hash})];
      down[hash := down[hash].(parent := Some(p))]
  }

  ghost predicate Links(exts: Exts, live: set<Hash>, root: Hash, block: Block) {
    && block.parent in live && block.parent in exts && exts[block.parent].block.number + 1 == block.number
    && root in exts && exts[root].block.number < block.number < 0xFFFF_FFFF_FFFF_FFFF && block.hash !in live
  }

  function NewExt(block: Block, qc: QuorumCert): Ext {
    Ext(block, Rank(block, qc.view), Some(qc), None, {})
  }

  /** A new block cannot have children yet. */
  lemma NoChildYet(exts: Exts, live: set<Hash>, root: Hash, block: Block, qc: QuorumCert, c: Hash)
    requires Shape(exts, live, root) && Links(exts, live, root, block) && c in live + {block.hash}
    ensures !IsChild(exts[block.hash := NewExt(block, qc)], block.hash, c)
  {
    assert c in live && c != root ==> OnParent(exts, live, c);
  }

  /** The nodes with a new block linked to its parent. */
  function Added(exts: Exts, block: Block, qc: QuorumCert): Exts
    requires block.parent in exts
  {
    var p := exts[block.parent];
    exts[block.hash := NewExt(block, qc).(parent := Some(block.parent))]
        [block.parent := p.(children := p.children + {block.hash})]
  }

  /** Linking it to its parent is all there is to do. */
  lemma AddedShape(exts: Exts, live: set<Hash>, root: Hash, block: Block, qc: QuorumCert)
    requires Shape(exts, live, root) && Links(exts, live, root, block)
    ensures var exts' := exts[block.hash := NewExt(block, qc)];
            var live' := live + {block.hash};
            && (forall c | c in live' :: !IsChild(exts', block.hash, c))
            && LinkUp(exts', live', block.hash) == Added(exts, block, qc)
            && Shape(Added(exts, block, qc), live', root)
            && AllLinked(Added(exts, block, qc), live', root)
            && Added(exts, block, qc)[root].block == exts[root].block
            && Added(exts, block, qc)[block.hash].block == block
  {
    hide IsChild, ChildrenOf;
    forall c | c in live + {block.hash}
      ensures !IsChild(exts[block.hash := NewExt(block, qc)], block.hash, c)
    {
      NoChildYet(exts, live, root, block, qc, c);
    }
    LinkedShape(exts, live, root, block, qc);
    assert Pred(block.number) == exts[block.parent].block.number;
  }

  lemma LinkedShape(exts: Exts, live: set<Hash>, root: Hash, block: Block, qc: QuorumCert)
    requires Shape(exts, live, root) && Links(exts, live, root, block)
    ensures Shape(Added(exts, block, qc), live + {block.hash}, root)
    ensures AllLinked(Added(exts, block, qc), live + {block.hash}, root)
  {
    hide Added, ChildrenOf;
    var added, live' := Added(exts, block, qc), live + {block.hash};
    AddedBlocks(exts, live, root, block, qc);
    forall h | h in live' && h != root
      ensures OnParent(added, live', h)
    {
      AddedOnParent(exts, live, root, block, qc, h);
    }
    forall p | p in live'
      ensures added[p].children == ChildrenOf(added, live', root, p)
    {
      AddedChildren(exts, live, root, block, qc, p);
    }
  }

  lemma AddedBlocks(exts: Exts, live: set<Hash>, root: Hash, block: Block, qc: QuorumCert)
    requires Links(exts, live, root, block) && live <= exts.Keys
    ensures var added := Added(exts, block, qc);
            && added.Keys == exts.Keys + {block.hash} && added[block.hash].block == block
            && added[block.hash].parent == Some(block.parent)
            && (forall h | h in live :: added[h].block == exts[h].block && added[h].parent == exts[h].parent)
            && (forall h | h in exts && h != block.hash :: added[h].block == exts[h].block)
  {
  }

  lemma AddedOnParent(exts: Exts, live: set<Hash>, root: Hash, block: Block, qc: QuorumCert, h: Hash)
    requires Shape(exts, live, root) && Links(exts, live, root, block) && h in live + {block.hash} && h != root
    ensures h in Added(exts, block, qc) && live + {block.hash} <= Added(exts, block, qc).Keys
    ensures OnParent(Added(exts, block, qc), live + {block.hash}, h)
  {
    hide Added, ChildrenOf;
    AddedBlocks(exts, live, root, block, qc);
    assert h in live ==> OnParent(exts, live, h);
  }

  lemma AddedChildren(exts: Exts, live: set<Hash>, root: Hash, block: Block, qc: QuorumCert, p: Hash)
    requires Shape(exts, live, root) && Links(exts, live, root, block) && p in live + {block.hash}
    ensures p in Added(exts, block, qc) && live + {block.hash} <= Added(exts, block, qc).Keys
    ensures Added(exts, block, qc)[p].children == ChildrenOf(Added(exts, block, qc), live + {block.hash}, root, p)
  {
    var added, live' := Added(exts, block, qc), live + {block.hash};
    AddedBlocks(exts, live, root, block, qc);
    if p in live {
      assert ChildrenOf(added, live', root, p) ==
             ChildrenOf(exts, live, root, p) + if p == block.parent then {block.hash} else {};
    } else {
      forall h | h in live && h != root
        ensures exts[h].block.parent != p
      {
        assert OnParent(exts, live, h);
      }
      assert ChildrenOf(added, live', root, p) == {};
    }
  }

  /** Every live node but the root points at its parent. */
  ghost predicate AllLinked(exts: Exts, live: set<Hash>, root: Hash) {
    forall h | h in live && h in exts && h != root :: exts[h].parent == Some(exts[h].block.parent)
  }

  class Tree {
    var exts: Exts
    var live: set<Hash>
    var root: Hash

    ghost predicate Valid()
      reads this
    {
      Shape(exts, live, root)
    }

    constructor (block: Block, qc: Option<QuorumCert>)
      requires block.number > 0 ==> qc.Some?
      ensures Valid() && root == block.hash && live == {root} && exts.Keys == {root}
      ensures exts[root].block == block && exts[root].qc == qc
      ensures exts[root].rank == if block.number == 0 then 0 else Succ(qc.value.view)
    {
      exts := map[block.hash := Ext(block, if block.number == 0 then 0 else Rank(block, qc.value.view), qc, None, {})];
      live := {block.hash};
      root := block.hash;
    }

    /** A live block by hash and number. */
    predicate Has(hash: Hash, number: U64)
      reads this
    {
      hash in live && hash in exts && exts[hash].block.number == number
    }

    /** The block is alone at its height and its parent is not live. */
    ghost predicate Detached(block: Block)
      reads this
    {
      && live <= exts.Keys && block.hash !in live
      && (forall h | h in live :: exts[h].block.number != block.number)
      && !(block.parent in live && exts[block.parent].block.number == Pred(block.number))
    }

    /** The block is above everything in the tree. */
    ghost predicate Topmost(block: Block)
      reads this
    {
      && live <= exts.Keys && block.hash !in live && block.number < 0xFFFF_FFFF_FFFF_FFFF
      && (forall h | h in live :: exts[h].block.number < block.number)
    }

    /** The tree can be cut back to `hash`: it is a tree, or nothing else is at that height. */
    ghost predicate Prunable(hash: Hash)
      reads this
    {
      && live <= exts.Keys && root in live && hash in live
      && (Valid() || (Level(exts, live, exts[hash].block.number) == {hash} && Lowest(exts, live, root)))
    }

    /** Links a live node to its parent and to one child, if they are live. */
    method FixTree(hash: Hash)
      requires live <= exts.Keys && hash in live
      modifies `exts
      ensures exts.Keys == old(exts).Keys
      ensures forall h | h in exts ::
                exts[h].block == old(exts)[h].block && exts[h].qc == old(exts)[h].qc && exts[h].rank == old(exts)[h].rank
      ensures (forall c | c in live :: !IsChild(old(exts), hash, c)) ==> exts == LinkUp(old(exts), live, hash)
      ensures !HasParent(old(exts), live, hash) ==> exts[hash].parent == old(exts)[hash].parent
    {
      exts := LinkUp(exts, live, hash);
      if c :| c in live && IsChild(exts, hash, c) {
        exts := exts[c := exts[c].(parent := Some(hash))];
        exts := exts[hash := exts[hash].(children := exts[hash].children + {c})];
      }
    }

    /** A live node at the height of `hash` of the highest rank, among those with a parent and `hash`. */
    method MaxBlock(hash: Hash) returns (max: Hash)
      requires live <= exts.Keys && hash in live
      ensures max in live && exts[max].block.number == exts[hash].block.number
      ensures max == hash || exts[max].parent.Some?
      ensures forall e | e in live && exts[e].block.number == exts[hash].block.number && exts[e].parent.Some? ::
                exts[e].rank <= exts[max].rank
    {
      max := hash;
      var rest := live;
      while rest != {}
        invariant rest <= live && max in live && exts[max].block.number == exts[hash].block.number
        invariant max == hash || exts[max].parent.Some?
        invariant forall e | e in live - rest && exts[e].block.number == exts[hash].block.number && exts[e].parent.Some? ::
                    exts[e].rank <= exts[max].rank
        decreases |rest|
      {
        var e :| e in rest;
        rest := rest - {e};
        if exts[e].block.number == exts[hash].block.number && exts[max].rank < exts[e].rank && exts[e].parent.Some? {
          max := e;
        }
      }
    }

    /** Adds a certified block. Returns the block of the highest view at its height and the parent of that
        one; nothing if the block is there already. */
    method InsertQCBlock(block: Block, qc: QuorumCert) returns (lock: Option<Hash>, commit: Option<Hash>)
      requires live <= exts.Keys && root in live
      requires block.hash in exts ==> exts[block.hash].block == block
      modifies this
      ensures root == old(root) && live <= exts.Keys
      ensures block.hash in old(live) ==> lock == commit == None && unchanged(this)
      ensures block.hash !in old(live) ==>
                && live == old(live) + {block.hash} && lock.Some? && lock.value in live
                && exts[lock.value].block.number == block.number
                && (lock.value == block.hash || exts[lock.value].parent.Some?)
                && (forall e | e in live && exts[e].block.number == block.number && exts[e].parent.Some? ::
                      exts[e].rank <= exts[lock.value].rank)
                && commit == if lock.value == root then lock else exts[lock.value].parent
      ensures block.hash !in old(live) ==>
                && exts[block.hash].block == block && exts[block.hash].qc == Some(qc)
                && exts[block.hash].rank == (if block.number == 0 then 0 else Succ(qc.view))
                && forall h | h in old(live) :: exts[h].block == old(exts)[h].block && exts[h].rank == old(exts)[h].rank
      ensures old(Valid() && Links(exts, live, root, block)) ==>
                && Valid() && live == old(live) + {block.hash}
                && exts == Added(old(exts), block, qc)
                && lock.Some? && lock.value in live && exts[lock.value].block.number == block.number
                && (forall h | h in live && exts[h].block.number == block.number :: exts[h].rank <= exts[lock.value].rank)
                && commit == Some(exts[lock.value].block.parent)
      ensures old(Detached(block)) ==>
                lock == Some(block.hash) && commit == None && block.hash in live && exts[block.hash].qc == Some(qc)
      ensures old(Topmost(block)) ==>
                && live == old(live) + {block.hash} && lock == Some(block.hash) && commit == exts[block.hash].parent
                && exts == LinkUp(old(exts)[block.hash := NewExt(block, qc)], live, block.hash)
    {
      hide LinkUp, Shape, Added;
      if block.hash in live {
        return None, None;
      }
      ghost var links := Valid() && Links(exts, live, root, block);
      if links {
        AddedShape(exts, live, root, block, qc);
      }
      exts := exts[block.hash := NewExt(block, qc)];
      live := live + {block.hash};
      FixTree(block.hash);
      var max := MaxBlock(block.hash);
      lock := Some(max);
      if max == root {
        return lock, lock;
      }
      commit := exts[max].parent;
    }

    /** Removes the descendants of a node; `all` is what was live before pruning began. */
    method PruneBranch(ghost all: set<Hash>, ghost top: nat, x: Hash)
      requires all <= exts.Keys && Shape(exts, all, root) && x in all
      requires forall h | h in all :: exts[h].block.number <= top
      modifies `live
      ensures live == old(live) - Under(exts, all, root, x)
      decreases top - exts[x].block.number
    {
      hide Shape, Under, Family;
      var rest := exts[x].children;
      ghost var done: set<Hash> := {};
      FamilyNone(exts, all, root);
      while rest != {}
        invariant rest <= exts[x].children && done == exts[x].children - rest
        invariant live == old(live) - Family(exts, all, root, done)
        decreases |rest|
      {
        var e :| e in rest;
        rest := rest - {e};
        ChildAbove(exts, all, root, x, e);
        live := live - {e};
        PruneBranch(all, top, e);
        FamilyMore(exts, all, root, done, e);
        done := done + {e};
      }
      assert done == exts[x].children;
      FamilyOfChildren(exts, all, root, x);
    }

    /** Makes `hash` the root: what remains of a tree is exactly its descendants, and otherwise what is not
        lower. */
    method PruneBlock(hash: Hash)
      requires Prunable(hash)
      modifies this
      ensures root == hash && exts == old(exts)[hash := old(exts)[hash].(parent := None)]
      ensures old(Valid()) ==> Valid() && live == Family(old(exts), old(live), old(root), {hash})
      ensures Level(old(exts), old(live), old(exts)[hash].block.number) == {hash} ==>
                live == Above(old(exts), old(live), old(exts)[hash].block.number)
    {
      hide Shape, Under, Family, Level, Above;
      ghost var all, tree := live, Valid();
      if tree {
        ShapeKeys(exts, live, root);
        KeptIsFamily(exts, all, root, hash);
        KeptShape(exts, all, root, hash);
      }
      var number := exts[hash].block.number;
      DropBelow(number);
      PruneOthers(all, hash);
      root := hash;
      exts := exts[hash := exts[hash].(parent := None)];
    }

    /** Removes every other node of the level of `hash` and its descendants. */
    method PruneOthers(ghost all: set<Hash>, hash: Hash)
      requires all <= exts.Keys && hash in all && live == Above(exts, all, exts[hash].block.number)
      requires Shape(exts, all, root) || Level(exts, all, exts[hash].block.number) == {hash}
      modifies `live
      ensures Shape(exts, all, root) ==>
                live == old(live) - Family(exts, all, root, Level(exts, all, exts[hash].block.number) - {hash})
      ensures Level(exts, all, exts[hash].block.number) == {hash} ==> live == old(live)
    {
      hide Shape, Under, Family, Level, Above, Removed;
      LevelOfAbove(exts, all, exts[hash].block.number);
      var rest := Level(exts, live, exts[hash].block.number);
      ghost var level := rest;
      ghost var top := Top(exts, all);
      ghost var done: set<Hash> := {};
      ghost var tree := Shape(exts, all, root);
      RemovedEnds(level, hash);
      if tree {
        FamilyNone(exts, all, root);
      }
      while rest != {}
        invariant Removed(level, rest, hash, done) && (tree ==> live == old(live) - Family(exts, all, root, done))
        invariant level == {hash} ==> live == old(live)
        decreases |rest|
      {
        var h :| h in rest;
        RemovedMore(level, rest, hash, done, h);
        rest := rest - {h};
        if h != hash {
          live := live - {h};
          PruneBranch(all, top, h);
          FamilyMore(exts, all, root, done, h);
          done := done + {h};
        }
      }
    }

    /** Removes the levels from the root up to below `number`. */
    method DropBelow(number: U64)
      requires live <= exts.Keys && root in live && Lowest(exts, live, root)
      modifies `live
      ensures live == Above(exts, old(live), number)
    {
      var n: nat := exts[root].block.number;
      while n < number
        invariant live == set h | h in old(live) && (exts[h].block.number >= n || exts[h].block.number >= number)
      {
        live := set h | h in live && exts[h].block.number != n;
        n := n + 1;
      }
    }
  }

  // ----- Descent

  /** The descendants of `x`, without `x`. */
  ghost function Under(exts: Exts, live: set<Hash>, root: Hash, x: Hash): set<Hash>
    requires Shape(exts, live, root)
  {
    set h | h in live && h != x && Descends(exts, live, root, x, h)
  }

  ghost predicate DescendsAny(exts: Exts, live: set<Hash>, root: Hash, es: set<Hash>, h: Hash)
    requires Shape(exts, live, root)
  {
    exists e | e in es :: Descends(exts, live, root, e, h)
  }

  /** What descends from one of `es`. */
  ghost function Family(exts: Exts, live: set<Hash>, root: Hash, es: set<Hash>): set<Hash>
    requires Shape(exts, live, root)
  {
    set h | h in live && DescendsAny(exts, live, root, es, h)
  }

  lemma FamilyNone(exts: Exts, live: set<Hash>, root: Hash)
    requires Shape(exts, live, root)
    ensures Family(exts, live, root, {}) == {}
  {
  }

  lemma FamilyMore(exts: Exts, live: set<Hash>, root: Hash, es: set<Hash>, e: Hash)
    requires Shape(exts, live, root) && e in live
    ensures Family(exts, live, root, es + {e}) == Family(exts, live, root, es) + {e} + Under(exts, live, root, e)
  {
    hide Shape, Descends;
    DescendsSelf(exts, live, root, e);
    forall h | h in live
      ensures DescendsAny(exts, live, root, es + {e}, h) <==>
              DescendsAny(exts, live, root, es, h) || Descends(exts, live, root, e, h)
    {
      if DescendsAny(exts, live, root, es, h) {
        var d :| d in es && Descends(exts, live, root, d, h);
        assert d in es + {e};
      }
    }
  }

  lemma DescendsSelf(exts: Exts, live: set<Hash>, root: Hash, e: Hash)
    requires Shape(exts, live, root) && e in live
    ensures Descends(exts, live, root, e, e)
  {
  }

  lemma ChildAbove(exts: Exts, live: set<Hash>, root: Hash, x: Hash, e: Hash)
    requires Shape(exts, live, root) && x in live && e in exts[x].children
    ensures e in live && e in exts && exts[e].block.number == exts[x].block.number + 1
  {
    assert e in ChildrenOf(exts, live, root, x);
    assert OnParent(exts, live, e);
  }

  /** Below a node is what descends from its children. */
  lemma FamilyOfChildren(exts: Exts, live: set<Hash>, root: Hash, x: Hash)
    requires Shape(exts, live, root) && x in live && x in exts
    ensures Family(exts, live, root, exts[x].children) == Under(exts, live, root, x)
  {
    hide Shape, Descends;
    forall h | h in live
      ensures DescendsAny(exts, live, root, exts[x].children, h) <==> h != x && Descends(exts, live, root, x, h)
    {
      DescendsByChild(exts, live, root, x, h);
    }
  }

  lemma {:induction false} DescendsByChild(exts: Exts, live: set<Hash>, root: Hash, x: Hash, h: Hash)
    requires Shape(exts, live, root) && x in live && h in live
    ensures DescendsAny(exts, live, root, exts[x].children, h) <==> h != x && Descends(exts, live, root, x, h)
    decreases exts[h].block.number
  {
    DescentRises(exts, live, root, x, h);
    forall e | e in exts[x].children
      ensures !Descends(exts, live, root, e, x)
    {
      ChildAbove(exts, live, root, x, e);
      DescentRises(exts, live, root, e, x);
    }
    if h != root {
      assert OnParent(exts, live, h);
      var p := exts[h].block.parent;
      if h in exts[x].children {
        assert h in ChildrenOf(exts, live, root, x);
        assert Descends(exts, live, root, h, h);
      } else {
        assert h !in ChildrenOf(exts, live, root, x);
        DescendsByChild(exts, live, root, x, p);
      }
    }
  }

  lemma {:induction false} DescentRises(exts: Exts, live: set<Hash>, root: Hash, a: Hash, h: Hash)
    requires Shape(exts, live, root) && a in live && h in live
    ensures Descends(exts, live, root, a, h) ==> h == a || exts[h].block.number > exts[a].block.number
    decreases exts[h].block.number
  {
    if h != root {
      assert OnParent(exts, live, h);
      DescentRises(exts, live, root, a, exts[h].block.parent);
    }
  }

  // ----- Pruning

  lemma ShapeKeys(exts: Exts, live: set<Hash>, root: Hash)
    requires Shape(exts, live, root)
    ensures live <= exts.Keys && root in live && Lowest(exts, live, root)
  {
  }

  ghost predicate Lowest(exts: Exts, live: set<Hash>, root: Hash) {
    root in exts && forall h | h in live && h in exts :: exts[h].block.number >= exts[root].block.number
  }

  /** Of `level`, all but `rest` and `hash` are removed. */
  ghost predicate Removed(level: set<Hash>, rest: set<Hash>, hash: Hash, done: set<Hash>) {
    rest <= level && done == level - rest - {hash}
  }

  lemma RemovedEnds(level: set<Hash>, hash: Hash)
    ensures Removed(level, level, hash, {})
    ensures forall done | Removed(level, {}, hash, done) :: done == level - {hash}
  {
  }

  lemma RemovedMore(level: set<Hash>, rest: set<Hash>, hash: Hash, done: set<Hash>, h: Hash)
    requires Removed(level, rest, hash, done) && h in rest
    ensures h in level && Removed(level, rest - {h}, hash, if h == hash then done else done + {h})
  {
  }

  lemma LevelOfAbove(exts: Exts, live: set<Hash>, n: nat)
    requires live <= exts.Keys
    ensures Above(exts, live, n) <= exts.Keys && Level(exts, live, n) <= live
    ensures Level(exts, Above(exts, live, n), n) == Level(exts, live, n)
  {
  }

  function Level(exts: Exts, live: set<Hash>, n: nat): set<Hash>
    requires live <= exts.Keys
  {
    set h | h in live && exts[h].block.number == n
  }

  ghost function Above(exts: Exts, live: set<Hash>, n: nat): set<Hash>
    requires live <= exts.Keys
  {
    set h | h in live && exts[h].block.number >= n
  }

  ghost function Top(exts: Exts, live: set<Hash>): (top: nat)
    requires live <= exts.Keys
    ensures forall h | h in live :: exts[h].block.number <= top
  {
    0xFFFF_FFFF_FFFF_FFFF
  }

  /** Every node above a level descends from one node of the level. */
  lemma {:induction false} LevelAncestor(exts: Exts, live: set<Hash>, root: Hash, n: nat, h: Hash) returns (a: Hash)
    requires Shape(exts, live, root) && h in live && exts[root].block.number <= n <= exts[h].block.number
    ensures a in live && exts[a].block.number == n && Descends(exts, live, root, a, h)
    decreases exts[h].block.number
  {
    if exts[h].block.number == n {
      a := h;
    } else {
      assert OnParent(exts, live, h);
      a := LevelAncestor(exts, live, root, n, exts[h].block.parent);
    }
  }

  lemma {:induction false} LevelAncestorUnique(exts: Exts, live: set<Hash>, root: Hash, a: Hash, b: Hash, h: Hash)
    requires Shape(exts, live, root) && a in live && b in live && exts[a].block.number == exts[b].block.number
    requires Descends(exts, live, root, a, h) && Descends(exts, live, root, b, h)
    ensures a == b
    decreases exts[h].block.number
  {
    if h == a {
      DescentRises(exts, live, root, b, h);
    } else if h == b {
      DescentRises(exts, live, root, a, h);
    } else {
      assert OnParent(exts, live, h);
      LevelAncestorUnique(exts, live, root, a, b, exts[h].block.parent);
    }
  }

  /** What is left after the lower levels and the other families of the level are gone. */
  lemma KeptIsFamily(exts: Exts, live: set<Hash>, root: Hash, hash: Hash)
    requires live <= exts.Keys && Shape(exts, live, root) && hash in live
    ensures var n := exts[hash].block.number;
            Above(exts, live, n) - Family(exts, live, root, Level(exts, live, n) - {hash}) == Family(exts, live, root, {hash})
  {
    var others := Level(exts, live, exts[hash].block.number) - {hash};
    forall h | h in live
      ensures exts[h].block.number >= exts[hash].block.number && !DescendsAny(exts, live, root, others, h) <==>
              DescendsAny(exts, live, root, {hash}, h)
    {
      OneFamily(exts, live, root, hash, h);
    }
  }

  lemma OneFamily(exts: Exts, live: set<Hash>, root: Hash, hash: Hash, h: Hash)
    requires live <= exts.Keys && Shape(exts, live, root) && hash in live && h in live
    ensures var others := Level(exts, live, exts[hash].block.number) - {hash};
            exts[h].block.number >= exts[hash].block.number && !DescendsAny(exts, live, root, others, h) <==>
            DescendsAny(exts, live, root, {hash}, h)
  {
    var n := exts[hash].block.number;
    DescentRises(exts, live, root, hash, h);
    assert DescendsAny(exts, live, root, {hash}, h) <==> Descends(exts, live, root, hash, h) by {
      assert hash in {hash};
    }
    if exts[h].block.number >= n {
      var a := LevelAncestor(exts, live, root, n, h);
      assert a in Level(exts, live, n);
      forall b | b in Level(exts, live, n) && Descends(exts, live, root, b, h)
        ensures b == a
      {
        LevelAncestorUnique(exts, live, root, a, b, h);
      }
    }
  }

  /** The family of a node is a tree with that node as its root. */
  lemma KeptShape(exts: Exts, live: set<Hash>, root: Hash, hash: Hash)
    requires live <= exts.Keys && Shape(exts, live, root) && hash in live
    ensures Shape(exts[hash := exts[hash].(parent := None)], Family(exts, live, root, {hash}), hash)
  {
    var exts', live' := exts[hash := exts[hash].(parent := None)], Family(exts, live, root, {hash});
    forall h
      ensures h in live' <==> Descends(exts, live, root, hash, h)
    {
      assert hash in {hash};
    }
    forall h | h in live' && h != hash
      ensures OnParent(exts', live', h) && exts'[h].block.number > exts'[hash].block.number
    {
      DescentRises(exts, live, root, hash, h);
      assert OnParent(exts, live, h);
    }
    forall p | p in live'
      ensures exts'[p].children == ChildrenOf(exts', live', hash, p)
    {
      KeptChildren(exts, live, root, hash, p);
    }
  }

  lemma KeptChildren(exts: Exts, live: set<Hash>, root: Hash, hash: Hash, p: Hash)
    requires live <= exts.Keys && Shape(exts, live, root) && hash in live && Descends(exts, live, root, hash, p)
    ensures Family(exts, live, root, {hash}) <= live
    ensures exts[p].children == ChildrenOf(exts[hash := exts[hash].(parent := None)], Family(exts, live, root, {hash}), hash, p)
  {
    var exts', live' := exts[hash := exts[hash].(parent := None)], Family(exts, live, root, {hash});
    assert p in live;
    assert exts[p].children == ChildrenOf(exts, live, root, p);
    forall h
      ensures h in ChildrenOf(exts, live, root, p) <==> h in ChildrenOf(exts', live', hash, p)
    {
      ChildKept(exts, live, root, hash, p, h);
    }
  }

  lemma ChildKept(exts: Exts, live: set<Hash>, root: Hash, hash: Hash, p: Hash, h: Hash)
    requires live <= exts.Keys && Shape(exts, live, root) && hash in live && Descends(exts, live, root, hash, p)
    ensures h in live && h != root && exts[h].block.parent == p <==>
            h in Family(exts, live, root, {hash}) && h != hash && exts[h].block.parent == p
  {
    assert hash in {hash};
    DescentRises(exts, live, root, hash, p);
    if h in live && h != root && exts[h].block.parent == p {
      assert OnParent(exts, live, h);
      assert Descends(exts, live, root, hash, h);
    }
  }
}
