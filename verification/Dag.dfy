/** The vertex-counting graph that the block executor peels level by level.

    `Dag` keeps, as the original does, one in-degree counter per vertex and counts it down as
    predecessors are handed out. The abstract view is much simpler: a set of vertices handed out so
    far, and a batch is every other vertex all of whose predecessors were handed out before. */
module Dag {

  datatype Vertex = Vertex(inDegree: int, outEdges: seq<nat>, inEdges: seq<nat>)

  /** The predecessor lists of a graph: `g[v]` lists the sources of the edges into `v`. */
  type Graph = seq<seq<nat>>

  /** The vertices whose predecessors all lie in `done`: one step of Kahn's algorithm. */
  ghost function Unlocked(g: Graph, done: set<nat>): set<nat> {
    set v | 0 <= v < |g| && forall u <- g[v] :: u in done
  }

  /** Every edge leads from a lower to a higher vertex. */
  ghost predicate Ascending(g: Graph) {
    forall v, u | 0 <= v < |g| && u in g[v] :: u < v
  }

  /** There is a path of one or more edges from `i` to `j` in an ascending graph. */
  ghost predicate Reaches(g: Graph, i: nat, j: nat)
    requires Ascending(g) && j < |g|
    decreases j
  {
    i in g[j] || exists k | k in g[j] :: Reaches(g, i, k)
  }

  /** Paths compose. */
  lemma {:induction false} ReachesTransitive(g: Graph, i: nat, j: nat, k: nat)
    requires Ascending(g) && j < |g| && k < |g|
    requires Reaches(g, i, j) && Reaches(g, j, k)
    ensures Reaches(g, i, k)
    decreases k
  {
    if j !in g[k] {
      var m :| m in g[k] && Reaches(g, j, m);
      ReachesTransitive(g, i, j, m);
    }
  }

  /** A vertex is handed out strictly after everything that reaches it. */
  lemma {:induction false} UnlockedAfterAncestors(g: Graph, done: set<nat>, i: nat, j: nat)
    requires Ascending(g) && j < |g|
    requires done <= Unlocked(g, done)
    requires Reaches(g, i, j) && j in Unlocked(g, done)
    ensures i in done
    decreases j
  {
    if i !in g[j] {
      var k :| k in g[j] && Reaches(g, i, k);
      UnlockedAfterAncestors(g, done, i, k);
    }
  }

  /** An ascending graph with vertices left always has one ready: the peeling loop cannot get stuck. */
  lemma AscendingNeverStuck(g: Graph, done: set<nat>)
    requires Ascending(g)
    requires exists v :: 0 <= v < |g| && v !in done
    ensures Unlocked(g, done) - done != {}
  {
    var v :| 0 <= v < |g| && v !in done;
    var low := LowestOutside(g, done, v);
    assert low in Unlocked(g, done) - done;
  }

  lemma {:induction false} LowestOutside(g: Graph, done: set<nat>, v: nat) returns (low: nat)
    requires v < |g| && v !in done
    ensures low < |g| && low !in done && forall u: nat | u < low :: u in done
    decreases v
  {
    low := v;
    if u: nat :| u < v && u !in done {
      low := LowestOutside(g, done, u);
    }
  }

  /** How many entries of `s` lie outside `done`, with multiplicity. */
  ghost function CountOutside(s: seq<nat>, done: set<nat>): nat {
    if s == [] then 0
    else CountOutside(s[..|s| - 1], done) + if s[|s| - 1] in done then 0 else 1
  }

  lemma {:induction false} CountOutsideZero(s: seq<nat>, done: set<nat>)
    ensures CountOutside(s, done) == 0 <==> forall u <- s :: u in done
    ensures CountOutside(s, {}) == |s|
  {
    if s != [] {
      CountOutsideZero(s[..|s| - 1], done);
      assert s == s[..|s| - 1] + [s[|s| - 1]];
    }
  }

  /** How often `x` occurs in `s`. */
  ghost function Mult(s: seq<nat>, x: nat): nat {
    if s == [] then 0 else Mult(s[..|s| - 1], x) + if s[|s| - 1] == x then 1 else 0
  }

  lemma MultAppend(s: seq<nat>, x: nat, y: nat)
    ensures Mult(s + [x], y) == Mult(s, y) + if x == y then 1 else 0
  {
    assert (s + [x])[..|s|] == s;
  }

  lemma {:induction false} PrefixMult(s: seq<nat>, k: nat, x: nat)
    requires k < |s| && s[k] == x
    ensures Mult(s[..k], x) < Mult(s, x)
  {
    if k < |s| - 1 {
      PrefixMult(s[..|s| - 1], k, x);
      assert s[..|s| - 1][..k] == s[..k];
    }
  }

  lemma {:induction false} CountOutsideRemove(s: seq<nat>, done: set<nat>, u: nat)
    requires u !in done
    ensures CountOutside(s, done + {u}) + Mult(s, u) == CountOutside(s, done)
  {
    if s != [] {
      CountOutsideRemove(s[..|s| - 1], done, u);
    }
  }

  ghost function Elements(s: seq<nat>): set<nat> {
    set v | v in s
  }

  ghost predicate Distinct(s: seq<nat>) {
    forall i, j | 0 <= i < j < |s| :: s[i] != s[j]
  }

  lemma {:induction false} DistinctCardinality(s: seq<nat>)
    requires Distinct(s)
    ensures |Elements(s)| == |s|
  {
    if s != [] {
      var n := |s| - 1;
      DistinctCardinality(s[..n]);
      assert s == s[..n] + [s[n]];
      assert Elements(s) == Elements(s[..n]) + {s[n]};
      assert s[n] !in Elements(s[..n]);
    }
  }

  lemma PrefixElements(s: seq<nat>, i: nat)
    requires Distinct(s) && i < |s|
    ensures Elements(s[..i + 1]) == Elements(s[..i]) + {s[i]}
    ensures s[i] !in Elements(s[..i]) && s[i] in Elements(s)
  {
  }

  ghost predicate AllBelow(s: seq<nat>, n: nat) {
    forall k | 0 <= k < |s| :: s[k] < n
  }

  /** The two edge lists of every vertex describe the same edges. */
  ghost predicate Wired(vs: seq<Vertex>) {
    && (forall v | 0 <= v < |vs| :: AllBelow(vs[v].outEdges, |vs|) && AllBelow(vs[v].inEdges, |vs|))
    && (forall u, v | 0 <= u < |vs| && 0 <= v < |vs| :: Mult(vs[u].outEdges, v) == Mult(vs[v].inEdges, u))
  }

  ghost function EdgesOf(vs: seq<Vertex>): (g: Graph) {
    seq(|vs|, v requires 0 <= v < |vs| => vs[v].inEdges)
  }

  /** Every counter counts the in-edges from outside `counted`. */
  ghost predicate Counters(vs: seq<Vertex>, counted: set<nat>) {
    forall v | 0 <= v < |vs| :: vs[v].inDegree == CountOutside(vs[v].inEdges, counted)
  }

  /** A vertex is at zero exactly when its predecessors were all counted down. */
  lemma ZeroIffUnlocked(vs: seq<Vertex>, counted: set<nat>)
    requires Counters(vs, counted)
    ensures forall v | 0 <= v < |vs| :: vs[v].inDegree == 0 <==> v in Unlocked(EdgesOf(vs), counted)
    ensures forall v | 0 <= v < |vs| :: vs[v].inDegree >= 0
  {
    forall v | 0 <= v < |vs| {
      CountOutsideZero(vs[v].inEdges, counted);
    }
  }

  /** Recording an edge: three updates, as in the original. */
  function WithEdge(vs: seq<Vertex>, from: nat, to: nat): seq<Vertex>
    requires from < |vs| && to < |vs|
  {
    var vs1 := vs[from := vs[from].(outEdges := vs[from].outEdges + [to])];
    var vs2 := vs1[to := vs1[to].(inDegree := vs1[to].inDegree + 1)];
    vs2[to := vs2[to].(inEdges := vs2[to].inEdges + [from])]
  }

  lemma WithEdgeLists(vs: seq<Vertex>, from: nat, to: nat, v: nat)
    requires from < |vs| && to < |vs| && v < |vs|
    ensures WithEdge(vs, from, to)[v].outEdges == vs[v].outEdges + if v == from then [to] else []
    ensures WithEdge(vs, from, to)[v].inEdges == vs[v].inEdges + if v == to then [from] else []
  {
  }

  lemma WithEdgeMirrored(vs: seq<Vertex>, vs': seq<Vertex>, from: nat, to: nat, u: nat, v: nat)
    requires from < |vs| && to < |vs| && u < |vs| && v < |vs| && vs' == WithEdge(vs, from, to)
    requires Mult(vs[u].outEdges, v) == Mult(vs[v].inEdges, u)
    ensures Mult(vs'[u].outEdges, v) == Mult(vs'[v].inEdges, u)
  {
    hide WithEdge, Mult;
    WithEdgeLists(vs, from, to, u);
    WithEdgeLists(vs, from, to, v);
    MultMaybe(vs[u].outEdges, u == from, to, v);
    MultMaybe(vs[v].inEdges, v == to, from, u);
  }

  lemma MultMaybe(s: seq<nat>, more: bool, x: nat, y: nat)
    ensures Mult(s + if more then [x] else [], y) == Mult(s, y) + if more && x == y then 1 else 0
  {
    if more {
      MultAppend(s, x, y);
    } else {
      assert s + [] == s;
    }
  }

  lemma WithEdgeWired(vs: seq<Vertex>, vs': seq<Vertex>, from: nat, to: nat)
    requires Wired(vs) && from < |vs| && to < |vs| && vs' == WithEdge(vs, from, to)
    ensures Wired(vs')
  {
    forall v | 0 <= v < |vs|
      ensures AllBelow(vs'[v].outEdges, |vs|) && AllBelow(vs'[v].inEdges, |vs|)
    {
      WithEdgeLists(vs, from, to, v);
    }
    forall u, v | 0 <= u < |vs| && 0 <= v < |vs|
      ensures Mult(vs'[u].outEdges, v) == Mult(vs'[v].inEdges, u)
    {
      WithEdgeMirrored(vs, vs', from, to, u, v);
    }
  }

  lemma WithEdgeCounters(vs: seq<Vertex>, from: nat, to: nat)
    requires Counters(vs, {}) && from < |vs| && to < |vs|
    ensures Counters(WithEdge(vs, from, to), {})
  {
    hide WithEdge, CountOutside;
    var vs' := WithEdge(vs, from, to);
    WithEdgeSize(vs, from, to);
    forall v | 0 <= v < |vs|
      ensures vs'[v].inDegree == CountOutside(vs'[v].inEdges, {})
    {
      WithEdgeDegree(vs, from, to, v);
      CountOutsideZero(vs[v].inEdges, {});
      CountOutsideZero(vs'[v].inEdges, {});
    }
  }

  lemma WithEdgeSize(vs: seq<Vertex>, from: nat, to: nat)
    requires from < |vs| && to < |vs|
    ensures |WithEdge(vs, from, to)| == |vs|
  {
  }

  lemma WithEdgeDegree(vs: seq<Vertex>, from: nat, to: nat, v: nat)
    requires from < |vs| && to < |vs| && v < |vs|
    ensures var more := if v == to then 1 else 0;
            var x := WithEdge(vs, from, to)[v];
            x.inDegree == vs[v].inDegree + more && |x.inEdges| == |vs[v].inEdges| + more
  {
  }

  /** `vs'` differs from `vs` only in its counters, each lowered by its multiplicity in `outs`. */
  ghost predicate CountedDown(vs: seq<Vertex>, vs': seq<Vertex>, outs: seq<nat>) {
    && |vs'| == |vs|
    && forall v | 0 <= v < |vs| :: vs'[v] == vs[v].(inDegree := vs[v].inDegree - Mult(outs, v))
  }

  lemma CountedDownCounters(vs: seq<Vertex>, vs': seq<Vertex>, counted: set<nat>, u: nat)
    requires Wired(vs) && u < |vs| && u !in counted && Counters(vs, counted)
    requires CountedDown(vs, vs', vs[u].outEdges)
    ensures Counters(vs', counted + {u}) && SameEdges(vs, vs')
  {
    forall v | 0 <= v < |vs|
      ensures vs'[v].inDegree == CountOutside(vs'[v].inEdges, counted + {u})
    {
      assert Mult(vs[u].outEdges, v) == Mult(vs[v].inEdges, u);
      CountOutsideRemove(vs[v].inEdges, counted, u);
    }
  }

  /** A successor of `u` not yet counted down for this edge stands above zero. */
  lemma CountedDownPositive(vs: seq<Vertex>, vs': seq<Vertex>, counted: set<nat>, u: nat, k: nat)
    requires Wired(vs) && u < |vs| && u !in counted && Counters(vs, counted)
    requires k < |vs[u].outEdges| && CountedDown(vs, vs', vs[u].outEdges[..k])
    ensures vs[u].outEdges[k] < |vs| && vs'[vs[u].outEdges[k]].inDegree > 0
  {
    var out := vs[u].outEdges[k];
    assert AllBelow(vs[u].outEdges, |vs|);
    PrefixMult(vs[u].outEdges, k, out);
    assert Mult(vs[u].outEdges, out) == Mult(vs[out].inEdges, u);
    CountOutsideRemove(vs[out].inEdges, counted, u);
  }

  lemma CountedDownStep(vs: seq<Vertex>, vs': seq<Vertex>, vs'': seq<Vertex>, outs: seq<nat>, out: nat)
    requires CountedDown(vs, vs', outs) && out < |vs|
    requires vs'' == vs'[out := vs'[out].(inDegree := vs'[out].inDegree - 1)]
    ensures CountedDown(vs, vs'', outs + [out])
  {
    forall v | 0 <= v < |vs| {
      MultAppend(outs, out, v);
    }
  }

  ghost predicate SameEdges(vs: seq<Vertex>, vs': seq<Vertex>) {
    && |vs| == |vs'|
    && forall v | 0 <= v < |vs| :: vs'[v].outEdges == vs[v].outEdges && vs'[v].inEdges == vs[v].inEdges
  }

  lemma SameEdgesWired(vs: seq<Vertex>, vs': seq<Vertex>)
    requires Wired(vs) && SameEdges(vs, vs')
    ensures Wired(vs') && EdgesOf(vs') == EdgesOf(vs)
  {
    forall u, v | 0 <= u < |vs| && 0 <= v < |vs|
      ensures Mult(vs'[u].outEdges, v) == Mult(vs'[v].inEdges, u)
    {
      assert Mult(vs[u].outEdges, v) == Mult(vs[v].inEdges, u);
    }
  }

  /** The queue holds, once each, the vertices at zero that were not handed out before. */
  ghost predicate Queued(vs: seq<Vertex>, queue: seq<nat>, returned: set<nat>) {
    && Distinct(queue)
    && (forall v | v in queue :: v < |vs| && vs[v].inDegree == 0 && v !in returned)
    && (forall v | 0 <= v < |vs| && vs[v].inDegree == 0 :: v in queue || v in returned)
    && (forall v | v in returned :: v < |vs| && vs[v].inDegree == 0)
  }

  lemma QueuedStep(vs: seq<Vertex>, queue: seq<nat>, returned: set<nat>, out: nat, vs': seq<Vertex>)
    requires Queued(vs, queue, returned) && out < |vs| && vs[out].inDegree > 0
    requires vs' == vs[out := vs[out].(inDegree := vs[out].inDegree - 1)]
    ensures Queued(vs', if vs'[out].inDegree == 0 then queue + [out] else queue, returned)
  {
    assert out !in queue;
  }

  /** The queue once the loops are through is exactly the next level. */
  lemma QueuedIsNextLevel(vs: seq<Vertex>, queue: seq<nat>, returned: set<nat>)
    requires Counters(vs, returned) && Queued(vs, queue, returned)
    ensures Elements(queue) == Unlocked(EdgesOf(vs), returned) - returned
    ensures returned + Elements(queue) == Unlocked(EdgesOf(vs), returned)
    ensures (returned + Elements(queue)) - Elements(queue) == returned
    ensures |returned + Elements(queue)| == |returned| + |queue|
  {
    ZeroIffUnlocked(vs, returned);
    DistinctCardinality(queue);
  }

  class Dag {
    const size: nat
    var consumed: nat
    var vertices: seq<Vertex>
    var nextList: seq<nat>
    /** Every vertex handed out so far. */
    ghost var returned: set<nat>

    ghost function Edges(): Graph
      reads this
    {
      EdgesOf(vertices)
    }

    /** The handed-out vertices whose out-edges have already been counted down. */
    ghost function Settled(): set<nat>
      reads this
    {
      returned - Elements(nextList)
    }

    ghost predicate Fresh()
      reads this
    {
      returned == {} && nextList == []
    }

    ghost predicate Valid()
      reads this
    {
      && |vertices| == size && consumed == |returned|
      && Wired(vertices)
      && Counters(vertices, Settled())
      && Distinct(nextList) && Elements(nextList) <= returned
      && (!Fresh() ==> returned == Unlocked(Edges(), Settled()))
    }

    constructor (v: nat)
      ensures Valid() && Fresh() && size == v
      ensures Edges() == seq(v, _ => [])
    {
      size, consumed, nextList, returned := v, 0, [], {};
      vertices := seq(v, _ => Vertex(0, [], []));
    }

    /** Records one more edge; the same edge may be recorded twice and then counts twice. */
    method AddEdge(from: nat, to: nat)
      requires Valid() && Fresh() && from < size && to < size
      modifies `vertices
      ensures Valid() && Fresh()
      ensures Edges() == old(Edges())[to := old(Edges())[to] + [from]]
    {
      assert Settled() == {};
      vertices := WithEdge(vertices, from, to);
      WithEdgeWired(old(vertices), vertices, from, to);
      WithEdgeCounters(old(vertices), from, to);
      assert Settled() == {};
    }

    method HasNext() returns (more: bool)
      requires Valid()
      ensures more <==> exists v :: 0 <= v < size && v !in returned
    {
      more := consumed < size;
      BelowCardinality(size);
      if forall v | 0 <= v < size :: v in returned {
        assert returned == Below(size);
      } else {
        ProperSubsetCardinality(returned, Below(size));
      }
    }

    /** Lowers one counter and queues its vertex when it reaches zero. */
    method Lower(out: nat)
      requires out < |vertices| && vertices[out].inDegree > 0 && Queued(vertices, nextList, returned)
      modifies `vertices, `nextList
      ensures vertices == old(vertices)[out := old(vertices)[out].(inDegree := old(vertices)[out].inDegree - 1)]
      ensures Queued(vertices, nextList, returned)
    {
      vertices := vertices[out := vertices[out].(inDegree := vertices[out].inDegree - 1)];
      QueuedStep(old(vertices), nextList, returned, out, vertices);
      if vertices[out].inDegree == 0 {
        nextList := nextList + [out];
      }
    }

    /** Counts down the successors of `u`, queueing each one that reaches zero. `counted` holds the
        vertices counted down before `u`. */
    method CountDown(u: nat, ghost counted: set<nat>)
      requires u < |vertices| && Wired(vertices) && u !in counted
      requires Counters(vertices, counted) && Queued(vertices, nextList, returned)
      modifies `vertices, `nextList
      ensures SameEdges(old(vertices), vertices)
      ensures Counters(vertices, counted + {u}) && Queued(vertices, nextList, returned)
    {
      ghost var before := vertices;
      var outEdges := vertices[u].outEdges;
      for k := 0 to |outEdges|
        invariant CountedDown(before, vertices, outEdges[..k])
        invariant Queued(vertices, nextList, returned)
      {
        ghost var earlier := vertices;
        CountedDownPositive(before, vertices, counted, u, k);
        Lower(outEdges[k]);
        CountedDownStep(before, earlier, vertices, outEdges[..k], outEdges[k]);
        assert outEdges[..k + 1] == outEdges[..k] + [outEdges[k]];
      }
      assert outEdges[..|outEdges|] == outEdges;
      CountedDownCounters(before, vertices, counted, u);
    }

    /** The first level: every vertex without predecessors. */
    method CollectRoots()
      requires nextList == [] && returned == {}
      modifies `nextList
      ensures Queued(vertices, nextList, returned)
    {
      for i := 0 to |vertices|
        invariant Distinct(nextList)
        invariant forall v :: v in nextList <==> 0 <= v < i && vertices[v].inDegree == 0
      {
        if vertices[i].inDegree == 0 {
          nextList := nextList + [i];
        }
      }
    }

    /** Later levels: what becomes free once the previous level is counted down. */
    method CollectFreed(preList: seq<nat>, ghost settled: set<nat>)
      requires Wired(vertices) && Counters(vertices, settled)
      requires Distinct(preList) && settled !! Elements(preList) && settled + Elements(preList) == returned
      requires Queued(vertices, nextList, returned)
      modifies `vertices, `nextList
      ensures SameEdges(old(vertices), vertices)
      ensures Counters(vertices, returned) && Queued(vertices, nextList, returned)
    {
      ghost var counted := settled;
      for i := 0 to |preList|
        invariant SameEdges(old(vertices), vertices)
        invariant counted == settled + Elements(preList[..i])
        invariant Counters(vertices, counted)
        invariant Queued(vertices, nextList, returned)
      {
        PrefixElements(preList, i);
        SameEdgesWired(old(vertices), vertices);
        CountDown(preList[i], counted);
        counted := counted + {preList[i]};
      }
      assert preList[..|preList|] == preList;
    }

    method Collect()
      requires Valid() && (Fresh() || nextList != [])
      modifies `vertices, `nextList
      ensures SameEdges(old(vertices), vertices)
      ensures Counters(vertices, returned) && Queued(vertices, nextList, returned)
    {
      if |nextList| == 0 {
        assert Settled() == returned;
        CollectRoots();
      } else {
        var preList := nextList;
        ZeroIffUnlocked(vertices, Settled());
        nextList := [];
        CollectFreed(preList, returned - Elements(preList));
      }
    }

    /** Hands out the next level: every vertex not handed out before whose predecessors all were.
        Calling it again after an empty level is the one use the counters do not survive. */
    method Next() returns (batch: seq<nat>)
      requires Valid() && (Fresh() || nextList != [])
      modifies this
      ensures Valid() && Edges() == old(Edges())
      ensures batch == nextList && Distinct(batch)
      ensures Elements(batch) == Unlocked(Edges(), old(returned)) - old(returned)
      ensures returned == old(returned) + Elements(batch) == Unlocked(Edges(), old(returned))
    {
      Collect();
      SameEdgesWired(old(vertices), vertices);
      QueuedIsNextLevel(vertices, nextList, returned);
      consumed := consumed + |nextList|;
      returned := returned + Elements(nextList);
      batch := nextList;
      assert Settled() == old(returned);
    }
  }

  ghost function Below(n: nat): (r: set<nat>)
    ensures forall v :: v in r <==> 0 <= v < n
  {
    if n == 0 then {} else Below(n - 1) + {n - 1}
  }

  lemma {:induction false} BelowCardinality(n: nat)
    ensures |Below(n)| == n
  {
    if n > 0 {
      BelowCardinality(n - 1);
    }
  }

  lemma ProperSubsetCardinality(a: set<nat>, b: set<nat>)
    requires a < b
    ensures |a| < |b|
  {
    assert a * b == a;
    assert |b - a| == |b| - |a * b|;
  }
}
