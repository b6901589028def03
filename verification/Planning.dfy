/** The pursuer's route planner: a dense priority-first search (Dijkstra) in which the
    single array `val` is both the priority queue (negative entries) and the cost table
    (non-negative entries), and `dad` is the search tree.

    Vertex labels run from 1 to V.  Label 0 is a flag in `val` and "no parent" in `dad`.
    A weight of 0 means "no edge". */
module Planning {

  const UNSEEN: real := 32000.0
  const MAXVECTOR: nat := 1000

  /** Row and column 0 exist but are unused. */
  type Matrix = seq<seq<real>>

  ghost predicate Weights(V: nat, a: Matrix) {
    && |a| == V + 1
    && (forall i :: 0 <= i <= V ==> |a[i]| == V + 1)
    && (forall i, j :: 0 <= i <= V && 0 <= j <= V ==> a[i][j] >= 0.0)
  }

  // ---------- paths, independently of the algorithm ----------

  ghost predicate Walk(V: nat, a: Matrix, p: seq<int>)
    requires Weights(V, a)
  {
    && (forall i :: 0 <= i < |p| ==> 1 <= p[i] <= V)
    && (forall i, j :: 0 <= i && j == i + 1 && j < |p| ==> a[p[i]][p[j]] != 0.0)
  }

  ghost predicate Path(V: nat, a: Matrix, p: seq<int>, s: int, t: int)
    requires Weights(V, a)
  {
    |p| > 0 && p[0] == s && p[|p| - 1] == t && Walk(V, a, p)
  }

  ghost function Length(V: nat, a: Matrix, p: seq<int>): (w: real)
    requires Weights(V, a) && Walk(V, a, p)
    ensures w >= 0.0
  {
    if |p| <= 1 then 0.0
    else
      assert Walk(V, a, p[..|p| - 1]);
      Length(V, a, p[..|p| - 1]) + a[p[|p| - 2]][p[|p| - 1]]
  }

  // ---------- the search forest ----------

  /** Ghost record of a run: the vertices in the order they were finished, the position of
      each vertex in that order, and, for each finished vertex, the number of the tree
      (0 for the source's) it was finished in.  roots[i] is the root of tree i. */
  datatype Trace = Trace(order: seq<int>, rank: seq<nat>, tree: seq<nat>, roots: seq<int>)

  ghost predicate Shapes(V: nat, a: Matrix, val: seq<real>, dad: seq<int>, g: Trace) {
    && Weights(V, a)
    && |val| == |dad| == |g.rank| == |g.tree| == V + 1
    && val[0] == -(UNSEEN + 1.0)
  }

  ghost predicate Vertex(V: nat, t: int) { 1 <= t <= V }

  /** The finished vertices are exactly the entries of order, each once. */
  ghost predicate Ordered(V: nat, val: seq<real>, g: Trace)
    requires |val| == |g.rank| == V + 1
  {
    && (forall i :: 0 <= i < |g.order| ==> Vertex(V, g.order[i]) && val[g.order[i]] >= 0.0 && g.rank[g.order[i]] == i)
    && (forall t :: Vertex(V, t) && val[t] >= 0.0 ==> g.rank[t] < |g.order| && g.order[g.rank[t]] == t)
  }

  /** A finished vertex is a root at cost 0, or hangs by a real edge from a vertex of the
      same tree that was finished before it, at exactly that vertex's cost plus the edge. */
  ghost predicate FinishedOk(V: nat, a: Matrix, val: seq<real>, dad: seq<int>, g: Trace, t: int)
    requires Shapes(V, a, val, dad, g) && Vertex(V, t)
  {
    && val[t] < UNSEEN
    && g.tree[t] < |g.roots|
    && 0 <= dad[t] <= V
    && if dad[t] == 0 then val[t] == 0.0 && g.roots[g.tree[t]] == t
       else
         && val[dad[t]] >= 0.0
         && g.tree[dad[t]] == g.tree[t]
         && g.rank[dad[t]] < g.rank[t]
         && a[dad[t]][t] != 0.0
         && val[t] == val[dad[t]] + a[dad[t]][t]
  }

  /** A queued vertex is untouched, or carries the negated cost of reaching it from a
      finished vertex of the tree being grown. */
  ghost predicate QueuedOk(V: nat, a: Matrix, val: seq<real>, dad: seq<int>, g: Trace, t: int)
    requires Shapes(V, a, val, dad, g) && Vertex(V, t)
  {
    && 0 <= dad[t] <= V
    && if dad[t] == 0 then val[t] == -UNSEEN
       else
         && -UNSEEN < val[t]
         && val[dad[t]] >= 0.0
         && g.tree[dad[t]] + 1 == |g.roots|
         && a[dad[t]][t] != 0.0
         && -val[t] == val[dad[t]] + a[dad[t]][t]
  }

  /** No edge out of finished vertex u offers anything better than what its end t has;
      and an edge out of an older tree into a newer one (or into the queue) is one that
      would have cost UNSEEN or more. */
  ghost predicate Relaxed(V: nat, a: Matrix, val: seq<real>, dad: seq<int>, g: Trace, u: int, t: int)
    requires Shapes(V, a, val, dad, g) && Vertex(V, u) && Vertex(V, t)
  {
    a[u][t] != 0.0 ==>
      if val[t] >= 0.0 then
        && (g.tree[u] == g.tree[t] ==> val[t] <= val[u] + a[u][t])
        && (g.tree[u] < g.tree[t] ==> UNSEEN <= val[u] + a[u][t])
      else if g.tree[u] + 1 == |g.roots| then -val[t] <= val[u] + a[u][t]
      else UNSEEN <= val[u] + a[u][t]
  }

  /** Within the tree being grown, nothing queued is cheaper than anything finished. */
  ghost predicate Monotone(V: nat, val: seq<real>, g: Trace)
    requires |val| == |g.tree| == V + 1
  {
    forall u, q :: Vertex(V, u) && Vertex(V, q) && val[u] >= 0.0 && val[q] < 0.0 && g.tree[u] + 1 == |g.roots| ==>
      val[u] <= -val[q]
  }

  ghost predicate Inv(V: nat, a: Matrix, source: int, val: seq<real>, dad: seq<int>, g: Trace) {
    && Shapes(V, a, val, dad, g)
    && Vertex(V, source)
    && Ordered(V, val, g)
    && (|g.roots| > 0 ==> g.roots[0] == source)
    && (|g.order| == 0 <==> |g.roots| == 0)
    && (|g.order| > 0 ==> g.order[0] == source)
    && (forall i :: 0 <= i < |g.roots| ==>
          Vertex(V, g.roots[i]) && val[g.roots[i]] == 0.0 && dad[g.roots[i]] == 0 && g.tree[g.roots[i]] == i)
    && (forall t {:trigger Vertex(V, t)} :: Vertex(V, t) && val[t] >= 0.0 ==> FinishedOk(V, a, val, dad, g, t))
    && (forall t {:trigger Vertex(V, t)} :: Vertex(V, t) && val[t] < 0.0 ==> QueuedOk(V, a, val, dad, g, t))
    && (forall u, t :: Vertex(V, u) && Vertex(V, t) && val[u] >= 0.0 ==> Relaxed(V, a, val, dad, g, u, t))
    && Monotone(V, val, g)
  }

  /** What the search leaves behind: the invariant, with the queue empty. */
  ghost predicate SearchForest(V: nat, a: Matrix, source: int, val: seq<real>, dad: seq<int>, g: Trace) {
    && Inv(V, a, source, val, dad, g)
    && (forall t {:trigger Vertex(V, t)} :: Vertex(V, t) ==> val[t] >= 0.0)
    && |g.roots| > 0
  }

  // ---------- one round of the outer loop, on values ----------

  function Finish(v: real): (r: real) {
    if -v == UNSEEN then 0.0 else -v
  }

  /** Does the edge from k (finished at cost vk) improve queued vertex value v? */
  predicate Improves(w: real, vk: real, v: real) {
    v < 0.0 && w != 0.0 && v < -(w + vk)
  }

  ghost predicate Round(V: nat, a: Matrix, k: int, val: seq<real>, dad: seq<int>, val': seq<real>, dad': seq<int>)
    requires Weights(V, a) && Vertex(V, k) && |val| == |dad| == |val'| == |dad'| == V + 1
  {
    && val'[0] == val[0]
    && val'[k] == Finish(val[k]) && dad'[k] == dad[k]
    && (forall t :: Vertex(V, t) && t != k ==>
          if Improves(a[k][t], Finish(val[k]), val[t]) then val'[t] == -(a[k][t] + Finish(val[k])) && dad'[t] == k
          else val'[t] == val[t] && dad'[t] == dad[t])
  }

  ghost function Advance(g: Trace, val: seq<real>, k: int): (g': Trace)
    requires 0 <= k < |g.rank| == |g.tree| == |val|
    requires val[k] != -UNSEEN ==> |g.roots| > 0
  {
    Trace(g.order + [k],
          g.rank[k := |g.order|],
          g.tree[k := if val[k] == -UNSEEN then |g.roots| else |g.roots| - 1],
          if val[k] == -UNSEEN then g.roots + [k] else g.roots)
  }

  /** k is a cheapest queued vertex, and in the first round it is the source. */
  ghost predicate Selected(V: nat, source: int, k: int, val: seq<real>, g: Trace)
    requires |val| == V + 1
  {
    && Vertex(V, k) && val[k] < 0.0
    && (forall t :: Vertex(V, t) && val[t] < 0.0 ==> val[t] <= val[k])
    && (|g.roots| == 0 ==> k == source)
  }

  /** The primed arrays are what one round makes of the unprimed ones. */
  ghost predicate GoodRound(V: nat, a: Matrix, source: int, k: int,
                            val: seq<real>, dad: seq<int>, g: Trace, val': seq<real>, dad': seq<int>)
  {
    && Inv(V, a, source, val, dad, g)
    && Selected(V, source, k, val, g)
    && |val'| == |dad'| == V + 1 && Round(V, a, k, val, dad, val', dad')
  }

  lemma RoundBasics(V: nat, a: Matrix, source: int, k: int,
                    val: seq<real>, dad: seq<int>, g: Trace, val': seq<real>, dad': seq<int>)
    requires GoodRound(V, a, source, k, val, dad, g, val', dad')
    ensures val[k] == -UNSEEN || |g.roots| > 0
    ensures 0.0 <= val'[k] < UNSEEN
    ensures forall t :: Vertex(V, t) && t != k ==> (val'[t] < 0.0 <==> val[t] < 0.0)
    ensures Shapes(V, a, val', dad', Advance(g, val, k))
    ensures Ordered(V, val', Advance(g, val, k))
    ensures FinishedOk(V, a, val', dad', Advance(g, val, k), k)
  {
    assert QueuedOk(V, a, val, dad, g, k);
    forall t | Vertex(V, t) && t != k ensures val'[t] < 0.0 <==> val[t] < 0.0 {}
    var g' := Advance(g, val, k);
    forall i | 0 <= i < |g'.order|
      ensures Vertex(V, g'.order[i]) && val'[g'.order[i]] >= 0.0 && g'.rank[g'.order[i]] == i
    {
      if i < |g.order| { assert g.order[i] != k; }
    }
  }

  lemma RoundFinished(V: nat, a: Matrix, source: int, k: int,
                      val: seq<real>, dad: seq<int>, g: Trace, val': seq<real>, dad': seq<int>, t: int)
    requires GoodRound(V, a, source, k, val, dad, g, val', dad')
    requires Vertex(V, t) && val'[t] >= 0.0
    ensures Shapes(V, a, val', dad', Advance(g, val, k)) && FinishedOk(V, a, val', dad', Advance(g, val, k), t)
  {
    RoundBasics(V, a, source, k, val, dad, g, val', dad');
    if t != k {
      assert FinishedOk(V, a, val, dad, g, t);
      assert dad'[t] == dad[t] && dad[t] != k;
    }
  }

  lemma RoundQueued(V: nat, a: Matrix, source: int, k: int,
                    val: seq<real>, dad: seq<int>, g: Trace, val': seq<real>, dad': seq<int>, t: int)
    requires GoodRound(V, a, source, k, val, dad, g, val', dad')
    requires Vertex(V, t) && val'[t] < 0.0
    ensures Shapes(V, a, val', dad', Advance(g, val, k)) && QueuedOk(V, a, val', dad', Advance(g, val, k), t)
  {
    RoundBasics(V, a, source, k, val, dad, g, val', dad');
    assert QueuedOk(V, a, val, dad, g, t);
    assert QueuedOk(V, a, val, dad, g, k);
    assert val[t] <= val[k];
    if !Improves(a[k][t], Finish(val[k]), val[t]) && dad[t] != 0 {
      assert dad[t] != k;
    }
  }

  lemma RoundRelaxes(V: nat, a: Matrix, source: int, k: int,
                     val: seq<real>, dad: seq<int>, g: Trace, val': seq<real>, dad': seq<int>, u: int, t: int)
    requires GoodRound(V, a, source, k, val, dad, g, val', dad')
    requires Vertex(V, u) && Vertex(V, t) && val'[u] >= 0.0
    ensures Shapes(V, a, val', dad', Advance(g, val, k)) && Relaxed(V, a, val', dad', Advance(g, val, k), u, t)
  {
    RoundBasics(V, a, source, k, val, dad, g, val', dad');
    assert QueuedOk(V, a, val, dad, g, k);
    assert QueuedOk(V, a, val, dad, g, t) || FinishedOk(V, a, val, dad, g, t);
    if u != k {
      assert Relaxed(V, a, val, dad, g, u, t);
      assert FinishedOk(V, a, val, dad, g, u);
    }
  }

  lemma PairMonotone(V: nat, a: Matrix, source: int, k: int,
                     val: seq<real>, dad: seq<int>, g: Trace, val': seq<real>, dad': seq<int>, u: int, q: int)
    requires GoodRound(V, a, source, k, val, dad, g, val', dad') && Vertex(V, u) && Vertex(V, q)
    requires val'[u] >= 0.0 && val'[q] < 0.0
    requires Advance(g, val, k).tree[u] + 1 == |Advance(g, val, k).roots|
    ensures val'[u] <= -val'[q]
  {
    RoundBasics(V, a, source, k, val, dad, g, val', dad');
    assert QueuedOk(V, a, val, dad, g, k);
    if u != k { assert FinishedOk(V, a, val, dad, g, u); }
  }

  lemma RoundMonotone(V: nat, a: Matrix, source: int, k: int,
                      val: seq<real>, dad: seq<int>, g: Trace, val': seq<real>, dad': seq<int>)
    requires GoodRound(V, a, source, k, val, dad, g, val', dad')
    ensures Monotone(V, val', Advance(g, val, k))
  {
    var g' := Advance(g, val, k);
    forall u, q | Vertex(V, u) && Vertex(V, q) && val'[u] >= 0.0 && val'[q] < 0.0 && g'.tree[u] + 1 == |g'.roots|
      ensures val'[u] <= -val'[q]
    {
      PairMonotone(V, a, source, k, val, dad, g, val', dad', u, q);
    }
  }

  lemma RoundRoots(V: nat, a: Matrix, source: int, k: int,
                   val: seq<real>, dad: seq<int>, g: Trace, val': seq<real>, dad': seq<int>)
    requires GoodRound(V, a, source, k, val, dad, g, val', dad')
    ensures val[k] == -UNSEEN || |g.roots| > 0
    ensures var g' := Advance(g, val, k);
            && g'.order[0] == source && |g'.roots| > 0 && g'.roots[0] == source
            && forall i :: 0 <= i < |g'.roots| ==>
              Vertex(V, g'.roots[i]) && val'[g'.roots[i]] == 0.0 && dad'[g'.roots[i]] == 0 && g'.tree[g'.roots[i]] == i
  {
    assert QueuedOk(V, a, val, dad, g, k);
  }

  lemma RoundKeepsInv(V: nat, a: Matrix, source: int, k: int,
                      val: seq<real>, dad: seq<int>, g: Trace, val': seq<real>, dad': seq<int>)
    requires GoodRound(V, a, source, k, val, dad, g, val', dad')
    ensures val[k] == -UNSEEN || |g.roots| > 0
    ensures Inv(V, a, source, val', dad', Advance(g, val, k))
  {
    RoundBasics(V, a, source, k, val, dad, g, val', dad');
    var g' := Advance(g, val, k);
    forall t | Vertex(V, t) && val'[t] >= 0.0
      ensures FinishedOk(V, a, val', dad', g', t)
    {
      RoundFinished(V, a, source, k, val, dad, g, val', dad', t);
    }
    forall t | Vertex(V, t) && val'[t] < 0.0
      ensures QueuedOk(V, a, val', dad', g', t)
    {
      RoundQueued(V, a, source, k, val, dad, g, val', dad', t);
    }
    forall u, t | Vertex(V, u) && Vertex(V, t) && val'[u] >= 0.0
      ensures Relaxed(V, a, val', dad', g', u, t)
    {
      RoundRelaxes(V, a, source, k, val, dad, g, val', dad', u, t);
    }
    RoundMonotone(V, a, source, k, val, dad, g, val', dad');
    RoundRoots(V, a, source, k, val, dad, g, val', dad');
  }

  // ---------- what the finished forest means ----------

  ghost function Vertices(V: nat): (s: set<int>)
    ensures |s| == V && forall t :: t in s <==> 1 <= t <= V
  {
    if V == 0 then {} else Vertices(V - 1) + {V}
  }

  ghost function Elements(order: seq<int>): (s: set<int>)
    ensures forall t :: t in s <==> t in order
  {
    set t | t in order
  }

  lemma {:induction false} DistinctSize(order: seq<int>)
    requires forall i, j :: 0 <= i < j < |order| ==> order[i] != order[j]
    ensures |Elements(order)| == |order|
  {
    if order != [] {
      DistinctSize(order[1..]);
      assert Elements(order) == Elements(order[1..]) + {order[0]};
    }
  }

  /** Every vertex is finished exactly once, the source first: the order of finishing is a
      permutation of 1..V. */
  lemma EachVertexOnce(V: nat, a: Matrix, source: int, val: seq<real>, dad: seq<int>, g: Trace)
    requires SearchForest(V, a, source, val, dad, g)
    ensures |g.order| == V && g.order[0] == source
    ensures forall i, j :: 0 <= i < j < |g.order| ==> g.order[i] != g.order[j]
    ensures forall t :: t in g.order <==> 1 <= t <= V
  {
    forall t | 1 <= t <= V ensures t in g.order { assert Vertex(V, t); }
    forall t | t in g.order ensures 1 <= t <= V {
      var i :| 0 <= i < |g.order| && g.order[i] == t;
      assert Vertex(V, g.order[i]);
    }
    DistinctSize(g.order);
    assert Elements(g.order) == Vertices(V);
  }

  /** The tree path from the root of t's tree down to t. */
  ghost function TreePath(V: nat, a: Matrix, source: int, val: seq<real>, dad: seq<int>, g: Trace, t: int)
    : (p: seq<int>)
    requires SearchForest(V, a, source, val, dad, g) && Vertex(V, t)
    ensures |p| > 0 && p[|p| - 1] == t
    decreases g.rank[t]
  {
    assert FinishedOk(V, a, val, dad, g, t);
    if dad[t] == 0 then [t] else TreePath(V, a, source, val, dad, g, dad[t]) + [t]
  }

  lemma PathSnoc(V: nat, a: Matrix, p: seq<int>, s: int, u: int, t: int)
    requires Weights(V, a) && Path(V, a, p, s, u) && Vertex(V, t) && Vertex(V, u) && a[u][t] != 0.0
    ensures Path(V, a, p + [t], s, t) && Length(V, a, p + [t]) == Length(V, a, p) + a[u][t]
  {
    var q := p + [t];
    assert q[..|q| - 1] == p && q[|q| - 2] == u;
    forall i, j | 0 <= i && j == i + 1 && j < |q| ensures a[q[i]][q[j]] != 0.0 {
      if j < |p| { assert q[i] == p[i] && q[j] == p[j]; }
    }
  }

  /** The tree path is a real path of weight val[t] with at most V vertices. */
  lemma {:induction false} TreePathIsPath(V: nat, a: Matrix, source: int, val: seq<real>, dad: seq<int>, g: Trace,
                                          t: int)
    requires SearchForest(V, a, source, val, dad, g) && Vertex(V, t)
    ensures var p := TreePath(V, a, source, val, dad, g, t);
            && g.tree[t] < |g.roots|
            && Path(V, a, p, g.roots[g.tree[t]], t)
            && Length(V, a, p) == val[t]
            && |p| <= g.rank[t] + 1
    decreases g.rank[t]
  {
    assert FinishedOk(V, a, val, dad, g, t);
    if dad[t] != 0 {
      assert Vertex(V, dad[t]);
      var front := TreePath(V, a, source, val, dad, g, dad[t]);
      TreePathIsPath(V, a, source, val, dad, g, dad[t]);
      PathSnoc(V, a, front, g.roots[g.tree[t]], dad[t], t);
    }
  }

  /** Along any walk that starts at the root of tree i, stays out of older trees and is
      shorter than UNSEEN: its end lies in tree i and costs no more than the walk. */
  lemma {:induction false} NothingShorter(V: nat, a: Matrix, source: int, val: seq<real>, dad: seq<int>, g: Trace,
                                          i: nat, p: seq<int>)
    requires SearchForest(V, a, source, val, dad, g)
    requires i < |g.roots| && |p| > 0 && p[0] == g.roots[i] && Walk(V, a, p)
    requires forall j :: 0 <= j < |p| ==> i <= g.tree[p[j]]
    requires Length(V, a, p) < UNSEEN
    ensures g.tree[p[|p| - 1]] == i && val[p[|p| - 1]] <= Length(V, a, p)
    decreases |p|
  {
    var t := p[|p| - 1];
    assert Vertex(V, t);
    if |p| == 1 {
    } else {
      var q := p[..|p| - 1];
      assert Walk(V, a, q);
      NothingShorter(V, a, source, val, dad, g, i, q);
      assert Vertex(V, p[|p| - 2]);
      assert Relaxed(V, a, val, dad, g, p[|p| - 2], t);
    }
  }

  /** t can be reached from s at a cost below UNSEEN. */
  ghost predicate Near(V: nat, a: Matrix, s: int, t: int)
    requires Weights(V, a)
  {
    exists p :: Path(V, a, p, s, t) && Length(V, a, p) < UNSEEN
  }

  /** w is the least weight of a path from s to t. */
  ghost predicate Distance(V: nat, a: Matrix, s: int, t: int, w: real)
    requires Weights(V, a)
  {
    && (exists p :: Path(V, a, p, s, t) && Length(V, a, p) == w)
    && (forall p :: Path(V, a, p, s, t) ==> w <= Length(V, a, p))
  }

  /** The planner's promise.  A vertex ends up in the source's tree exactly when it is
      nearer than UNSEEN, and then its cost is its distance from the source. */
  lemma ShortestDistances(V: nat, a: Matrix, source: int, val: seq<real>, dad: seq<int>, g: Trace, t: int)
    requires SearchForest(V, a, source, val, dad, g) && Vertex(V, t)
    ensures 0.0 <= val[t] < UNSEEN
    ensures g.tree[t] == 0 <==> Near(V, a, source, t)
    ensures Near(V, a, source, t) ==> Distance(V, a, source, t, val[t])
  {
    TreePathIsPath(V, a, source, val, dad, g, t);
    assert FinishedOk(V, a, val, dad, g, t);
    forall p | Path(V, a, p, source, t)
      ensures Length(V, a, p) < UNSEEN ==> g.tree[t] == 0 && val[t] <= Length(V, a, p)
    {
      if Length(V, a, p) < UNSEEN { NothingShorter(V, a, source, val, dad, g, 0, p); }
    }
  }

  /** The later trees, grown when the queue holds only untouched vertices: val[t] is the
      distance from the tree's root in the graph without the older trees' vertices. */
  lemma LaterTrees(V: nat, a: Matrix, source: int, val: seq<real>, dad: seq<int>, g: Trace, i: nat, t: int)
    requires SearchForest(V, a, source, val, dad, g) && Vertex(V, t) && i < |g.roots| && i <= g.tree[t]
    ensures g.tree[t] == i <==> exists p :: Avoiding(V, a, g, i, p, t) && Length(V, a, p) < UNSEEN
    ensures g.tree[t] == i ==> exists p :: Avoiding(V, a, g, i, p, t) && Length(V, a, p) == val[t]
    ensures g.tree[t] == i ==> forall p :: Avoiding(V, a, g, i, p, t) ==> val[t] <= Length(V, a, p)
  {
    assert FinishedOk(V, a, val, dad, g, t);
    forall p | Avoiding(V, a, g, i, p, t)
      ensures Length(V, a, p) < UNSEEN ==> g.tree[t] == i && val[t] <= Length(V, a, p)
    {
      if Length(V, a, p) < UNSEEN { NothingShorter(V, a, source, val, dad, g, i, p); }
    }
    if g.tree[t] == i {
      TreePathIsPath(V, a, source, val, dad, g, t);
      TreePathStays(V, a, source, val, dad, g, t);
      assert Avoiding(V, a, g, i, TreePath(V, a, source, val, dad, g, t), t);
    }
  }

  ghost predicate Avoiding(V: nat, a: Matrix, g: Trace, i: nat, p: seq<int>, t: int)
    requires Weights(V, a) && |g.tree| == V + 1 && i < |g.roots|
  {
    Path(V, a, p, g.roots[i], t) && forall j :: 0 <= j < |p| ==> i <= g.tree[p[j]]
  }

  lemma {:induction false} TreePathStays(V: nat, a: Matrix, source: int, val: seq<real>, dad: seq<int>, g: Trace,
                                         t: int)
    requires SearchForest(V, a, source, val, dad, g) && Vertex(V, t)
    ensures forall j :: 0 <= j < |TreePath(V, a, source, val, dad, g, t)| ==>
              var u := TreePath(V, a, source, val, dad, g, t)[j]; Vertex(V, u) && g.tree[u] == g.tree[t]
    decreases g.rank[t]
  {
    assert FinishedOk(V, a, val, dad, g, t);
    if dad[t] != 0 {
      assert Vertex(V, dad[t]);
      TreePathStays(V, a, source, val, dad, g, dad[t]);
    }
  }

  // ---------- the program ----------

  lemma RoundStep(V: nat, a: Matrix, source: int, k: int,
                  val: seq<real>, dad: seq<int>, g: Trace, val': seq<real>, dad': seq<int>, min: int)
    requires GoodRound(V, a, source, k, val, dad, g, val', dad')
    requires min == 0 || (Vertex(V, min) && val'[min] < 0.0)
    requires forall t :: Vertex(V, t) && val'[t] < 0.0 ==> min != 0 && val'[t] <= val'[min]
    ensures val[k] == -UNSEEN || |g.roots| > 0
    ensures Inv(V, a, source, val', dad', Advance(g, val, k))
    ensures min != 0 ==> Selected(V, source, min, val', Advance(g, val, k))
    ensures min == 0 ==> forall t :: Vertex(V, t) ==> val'[t] >= 0.0
    ensures Queued(V, val') < Queued(V, val)
  {
    RoundKeepsInv(V, a, source, k, val, dad, g, val', dad');
    RoundBasics(V, a, source, k, val, dad, g, val', dad');
    assert k in Queued(V, val) && k !in Queued(V, val');
  }

  ghost function Queued(V: nat, val: seq<real>): set<int>
    requires |val| == V + 1
  {
    set t | 1 <= t <= V && val[t] < 0.0
  }

  /** The first size entries of vector are path p backwards, as labels minus one. */
  ghost predicate Lists(vector: seq<int>, size: nat, p: seq<int>) {
    size == |p| <= |vector| && forall m :: 0 <= m < size ==> vector[m] == p[|p| - 1 - m] - 1
  }

  /** The path listed, read from the back. */
  ghost function Listed(vector: seq<int>, size: nat): (p: seq<int>)
    requires size <= |vector|
    ensures Lists(vector, size, p)
  {
    seq(size, m requires 0 <= m < size => vector[size - 1 - m] + 1)
  }

  ghost predicate ShortestListing(V: nat, a: Matrix, vector: seq<int>, size: nat, source: int, destination: int)
    requires Weights(V, a) && size <= |vector|
  {
    && Path(V, a, Listed(vector, size), source + 1, destination + 1)
    && Distance(V, a, source + 1, destination + 1, Length(V, a, Listed(vector, size)))
  }

  /** p leads to t, is more than t exactly when t is no root, and is a shortest path from s
      exactly when t is near. */
  ghost predicate RouteFrom(V: nat, a: Matrix, s: int, t: int, isRoot: bool, p: seq<int>)
    requires Weights(V, a)
  {
    && |p| > 0 && p[|p| - 1] == t && (|p| == 1 <==> isRoot) && (p[0] == s <==> Near(V, a, s, t))
    && (Near(V, a, s, t) ==> ShortestPath(V, a, s, t, p))
  }

  ghost predicate ShortestPath(V: nat, a: Matrix, s: int, t: int, p: seq<int>)
    requires Weights(V, a)
  {
    Path(V, a, p, s, t) && Distance(V, a, s, t, Length(V, a, p))
  }

  /** The same of a listing: it ends in the source, and is a shortest path, exactly when the
      destination is near, and is more than the destination exactly when that is no root. */
  ghost predicate ListingFrom(V: nat, a: Matrix, source: int, destination: int, isRoot: bool,
                              vector: seq<int>, size: nat)
    requires Weights(V, a)
  {
    && 0 < size <= |vector| && vector[0] == destination && (size >= 2 <==> !isRoot)
    && (vector[size - 1] == source <==> Near(V, a, source + 1, destination + 1))
    && (Near(V, a, source + 1, destination + 1) ==> ShortestListing(V, a, vector, size, source, destination))
  }

  lemma ListedRoute(V: nat, a: Matrix, source: int, destination: int, isRoot: bool, p: seq<int>,
                    vector: seq<int>, size: nat)
    requires Weights(V, a) && RouteFrom(V, a, source + 1, destination + 1, isRoot, p) && Lists(vector, size, p)
    ensures ListingFrom(V, a, source, destination, isRoot, vector, size)
  {
    ListedEnds(vector, size, p);
  }

  /** After the search there is such a route to every vertex, and it is what dad gives. */
  lemma RouteTo(V: nat, a: Matrix, source: int, val: seq<real>, dad: seq<int>, g: Trace, t: int)
    returns (p: seq<int>)
    requires SearchForest(V, a, source, val, dad, g) && Vertex(V, t)
    ensures DadChain(dad, p) && |p| <= V && RouteFrom(V, a, source, t, dad[t] == 0, p)
  {
    p := TreePath(V, a, source, val, dad, g, t);
    TreePathShort(V, a, source, val, dad, g, t);
    RouteEnds(V, a, source, val, dad, g, t);
  }

  lemma ListedEnds(vector: seq<int>, size: nat, p: seq<int>)
    requires Lists(vector, size, p) && |p| > 0
    ensures size > 0 && vector[0] == p[|p| - 1] - 1 && vector[size - 1] == p[0] - 1 && Listed(vector, size) == p
  {
  }

  lemma RouteEnds(V: nat, a: Matrix, source: int, val: seq<real>, dad: seq<int>, g: Trace, t: int)
    requires SearchForest(V, a, source, val, dad, g) && Vertex(V, t)
    ensures var p := TreePath(V, a, source, val, dad, g, t);
            && g.tree[t] < |g.roots| && |p| > 0 && p[0] == g.roots[g.tree[t]]
            && RouteFrom(V, a, source, t, dad[t] == 0, p)
  {
    TreePathIsPath(V, a, source, val, dad, g, t);
    ShortestDistances(V, a, source, val, dad, g, t);
  }

  /** Two vertices without an edge. */
  function NoEdges(): (r: Matrix) {
    var row := [0.0, 0.0, 0.0];
    [row, row, row]
  }

  /** There the route listed for the second vertex is that vertex alone, and not a way from
      the first. */
  lemma RouteToNowhere(val: seq<real>, dad: seq<int>, g: Trace)
    requires SearchForest(2, NoEdges(), 1, val, dad, g)
    ensures !Near(2, NoEdges(), 1, 2) && TreePath(2, NoEdges(), 1, val, dad, g, 2) == [2]
  {
    var a := NoEdges();
    forall p | Walk(2, a, p) ensures |p| <= 1 { StandStill(p); }
    assert Vertex(2, 2) && FinishedOk(2, a, val, dad, g, 2);
  }

  lemma StandStill(p: seq<int>)
    requires Weights(2, NoEdges()) && Walk(2, NoEdges(), p)
    ensures |p| <= 1
  {
    var from, to := if |p| > 1 then p[0] else 1, if |p| > 1 then p[1] else 1;
    assert NoEdges()[from][to] == 0.0;
  }

  /** p is a chain of dad links, root first. */
  ghost predicate DadChain(dad: seq<int>, p: seq<int>) {
    && |p| > 0
    && (forall m :: 0 <= m < |p| ==> 1 <= p[m] < |dad|)
    && dad[p[0]] == 0
    && (forall m, n :: 0 <= m && n == m + 1 && n < |p| ==> dad[p[n]] == p[m])
  }

  lemma ChainSnoc(dad: seq<int>, p: seq<int>, t: int)
    requires DadChain(dad, p) && 1 <= t < |dad| && dad[t] == p[|p| - 1]
    ensures DadChain(dad, p + [t])
  {
    var q := p + [t];
    forall m | 0 < m < |q|
      ensures dad[q[m]] == q[m - 1]
    {
      if m < |p| { assert q[m] == p[m] && q[m - 1] == p[m - 1]; }
    }
  }

  lemma {:induction false} TreePathIsChain(V: nat, a: Matrix, source: int, val: seq<real>, dad: seq<int>, g: Trace,
                                           t: int)
    requires SearchForest(V, a, source, val, dad, g) && Vertex(V, t)
    ensures DadChain(dad, TreePath(V, a, source, val, dad, g, t))
    decreases g.rank[t]
  {
    assert FinishedOk(V, a, val, dad, g, t);
    if dad[t] != 0 {
      assert Vertex(V, dad[t]);
      TreePathIsChain(V, a, source, val, dad, g, dad[t]);
      ChainSnoc(dad, TreePath(V, a, source, val, dad, g, dad[t]), t);
    }
  }

  lemma TreePathShort(V: nat, a: Matrix, source: int, val: seq<real>, dad: seq<int>, g: Trace, t: int)
    requires SearchForest(V, a, source, val, dad, g) && Vertex(V, t)
    ensures var p := TreePath(V, a, source, val, dad, g, t);
            DadChain(dad, p) && 0 < |p| <= V && p[|p| - 1] == t
  {
    TreePathIsChain(V, a, source, val, dad, g, t);
    TreePathIsPath(V, a, source, val, dad, g, t);
    EachVertexOnce(V, a, source, val, dad, g);
  }

  /** Going from s to its neighbour hop leaves some shortest route to t, and the two
      together are a shortest route from s. */
  ghost predicate ContinuesVia(V: nat, a: Matrix, s: int, hop: int, t: int)
    requires Weights(V, a) && Vertex(V, s) && Vertex(V, hop)
  {
    exists w :: Distance(V, a, hop, t, w) && Distance(V, a, s, t, a[s][hop] + w)
  }

  /** The pursuer's next move, vector[size - 2]: a neighbour of the source from which the
      rest of a shortest route continues. */
  lemma NextHop(V: nat, a: Matrix, vector: seq<int>, size: nat, source: int, destination: int)
    requires Weights(V, a) && size <= |vector| && source != destination
    requires ShortestListing(V, a, vector, size, source, destination)
    ensures size >= 2
    ensures var hop := vector[size - 2] + 1;
            && Vertex(V, hop) && Vertex(V, source + 1) && a[source + 1][hop] > 0.0
            && ContinuesVia(V, a, source + 1, hop, destination + 1)
  {
    var p := Listed(vector, size);
    assert vector[size - 1] == p[0] - 1;
    assert vector[size - 2] == p[1] - 1;
    RestIsShortest(V, a, p, source + 1, destination + 1);
  }

  lemma RestIsShortest(V: nat, a: Matrix, p: seq<int>, s: int, t: int)
    requires Weights(V, a) && s != t && Path(V, a, p, s, t) && Distance(V, a, s, t, Length(V, a, p))
    ensures |p| >= 2 && Vertex(V, s) && Vertex(V, p[1]) && a[s][p[1]] > 0.0
    ensures ContinuesVia(V, a, s, p[1], t)
  {
    var rest, hop := p[1..], p[1];
    assert p == [s] + rest;
    assert a[p[0]][p[0 + 1]] != 0.0;
    LengthOfCons(V, a, s, rest);
    var w := Length(V, a, rest);
    forall q | Path(V, a, q, hop, t)
      ensures w <= Length(V, a, q)
    {
      PathOfCons(V, a, s, q, hop, t);
      LengthOfCons(V, a, s, q);
    }
    assert Path(V, a, rest, hop, t);
    assert Distance(V, a, hop, t, w);
  }

  lemma PathOfCons(V: nat, a: Matrix, s: int, q: seq<int>, hop: int, t: int)
    requires Weights(V, a) && Vertex(V, s) && Path(V, a, q, hop, t) && Vertex(V, hop) && a[s][hop] != 0.0
    ensures Path(V, a, [s] + q, s, t)
  {
    var w := [s] + q;
    forall i, j | 0 <= i && j == i + 1 && j < |w| ensures a[w[i]][w[j]] != 0.0 {
      if i > 0 { assert w[i] == q[i - 1] && w[i + 1] == q[i - 1 + 1]; }
    }
  }

  lemma RestOfWalk(V: nat, a: Matrix, s: int, p: seq<int>)
    requires Weights(V, a) && |p| > 0 && Walk(V, a, [s] + p)
    ensures Walk(V, a, p)
  {
    var w := [s] + p;
    forall i | 0 <= i < |p| ensures 1 <= p[i] <= V { assert w[i + 1] == p[i]; }
    forall i, j | 0 <= i && j == i + 1 && j < |p| ensures a[p[i]][p[j]] != 0.0 {
      assert w[i + 1] == p[i] && w[j + 1] == p[j];
    }
  }

  lemma {:induction false} LengthOfCons(V: nat, a: Matrix, s: int, p: seq<int>)
    requires Weights(V, a) && Vertex(V, s) && |p| > 0 && Vertex(V, p[0]) && Walk(V, a, [s] + p)
    ensures Walk(V, a, p) && Length(V, a, [s] + p) == a[s][p[0]] + Length(V, a, p)
    decreases |p|
  {
    RestOfWalk(V, a, s, p);
    var w, front := [s] + p, p[..|p| - 1];
    assert w[0] == s && w[1] == p[0];
    assert w[..|w| - 1] == [s] + front;
    if |p| > 1 {
      assert Walk(V, a, [s] + front);
      LengthOfCons(V, a, s, front);
    } else {
      assert [s] + front == [s];
    }
  }

  class Planner {
    var val: array<real>
    var dad: array<int>
    ghost var trace: Trace

    /** Both arrays are allocated once, when the topology is loaded. */
    constructor (nVertex: nat)
      ensures fresh(val) && fresh(dad) && val.Length == dad.Length == nVertex + 1
    {
      val := new real[nVertex + 1];
      dad := new int[nVertex + 1];
      trace := Trace([], [], [], []);
    }

    /** The inner loop: relax every queued vertex through k, which has just been finished,
        and pick the next one.  min is 0 when the queue is empty. */
    method RelaxFrom(V: nat, k: int, a: Matrix) returns (min: int)
      requires val.Length == dad.Length == V + 1
      requires Weights(V, a) && Vertex(V, k) && 0.0 <= val[k] && val[0] == -(UNSEEN + 1.0)
      requires forall t :: Vertex(V, t) ==> -UNSEEN <= val[t]
      modifies val, dad
      ensures val[0] == old(val[0]) && val[k] == old(val[k]) && dad[k] == old(dad[k])
      ensures forall t :: Vertex(V, t) && t != k ==>
                if Improves(a[k][t], val[k], old(val[t])) then val[t] == -(a[k][t] + val[k]) && dad[t] == k
                else val[t] == old(val[t]) && dad[t] == old(dad[t])
      ensures min == 0 || (Vertex(V, min) && val[min] < 0.0)
      ensures forall t :: Vertex(V, t) && val[t] < 0.0 ==> min != 0 && val[t] <= val[min]
    {
      min := 0;
      var t := 1;
      while t <= V
        invariant 1 <= t <= V + 1 && 0 <= min < t
        invariant val[0] == old(val[0]) && val[k] == old(val[k]) && dad[k] == old(dad[k])
        invariant forall s :: Vertex(V, s) && s != k ==>
                    if s < t && Improves(a[k][s], val[k], old(val[s])) then val[s] == -(a[k][s] + val[k]) && dad[s] == k
                    else val[s] == old(val[s]) && dad[s] == old(dad[s])
        invariant min != 0 ==> val[min] < 0.0
        invariant forall s :: Vertex(V, s) && s < t && val[s] < 0.0 ==> min != 0 && val[s] <= val[min]
      {
        assert Vertex(V, t);
        if val[t] < 0.0 {
          var priority := a[k][t] + val[k];
          if a[k][t] != 0.0 && val[t] < -priority {
            val[t] := -priority;
            dad[t] := k;
          }
          if val[t] > val[min] { min := t; }
        }
        t := t + 1;
      }
    }

    /** Finish k and relax through it; this alone needs no more than a bounded queue. */
    method FinishAndRelax(V: nat, k: int, a: Matrix) returns (min: int)
      requires val.Length == dad.Length == V + 1
      requires Weights(V, a) && Vertex(V, k) && val[k] < 0.0 && val[0] == -(UNSEEN + 1.0)
      requires forall t :: Vertex(V, t) ==> -UNSEEN <= val[t]
      modifies val, dad
      ensures Round(V, a, k, old(val[..]), old(dad[..]), val[..], dad[..])
      ensures min == 0 || (Vertex(V, min) && val[min] < 0.0)
      ensures forall t :: Vertex(V, t) && val[t] < 0.0 ==> min != 0 && val[t] <= val[min]
    {
      val[k] := -val[k];
      if val[k] == UNSEEN { val[k] := 0.0; }
      min := RelaxFrom(V, k, a);
    }

    /** One round of the outer loop: finish k, relax through it, pick the next vertex. */
    method FinishVertex(V: nat, source: int, k: int, a: Matrix) returns (min: int)
      requires val.Length == dad.Length == V + 1
      requires Inv(V, a, source, val[..], dad[..], trace) && Selected(V, source, k, val[..], trace)
      modifies this`trace, val, dad
      ensures Inv(V, a, source, val[..], dad[..], trace)
      ensures min != 0 ==> Selected(V, source, min, val[..], trace)
      ensures min == 0 ==> forall t :: Vertex(V, t) ==> val[t] >= 0.0
      ensures Queued(V, val[..]) < old(Queued(V, val[..]))
      ensures trace == old(Advance(trace, val[..], k))
    {
      ghost var v0, d0 := val[..], dad[..];
      QueueBounds(V, a, source, v0, d0, trace);
      min := FinishAndRelax(V, k, a);
      RoundStep(V, a, source, k, v0, d0, trace, val[..], dad[..], min);
      trace := Advance(trace, v0, k);
    }

    method ShortestDistance(V: nat, source: int, a: Matrix)
      requires val.Length == dad.Length == V + 1
      requires Weights(V, a) && 1 <= source <= V
      modifies this`trace, val, dad
      ensures SearchForest(V, a, source, val[..], dad[..], trace)
    {
      for i := 0 to V + 1
        invariant forall j :: 0 <= j < i ==> val[j] == -UNSEEN && dad[j] == 0
      {
        val[i] := -UNSEEN;
        dad[i] := 0;
      }
      val[0] := -(UNSEEN + 1.0);
      trace := Trace([], seq(V + 1, _ => 0), seq(V + 1, _ => 0), []);
      assert Vertex(V, source);

      var k := source;
      while k != 0
        invariant Inv(V, a, source, val[..], dad[..], trace)
        invariant k != 0 ==> Selected(V, source, k, val[..], trace)
        invariant k == 0 ==> |trace.roots| > 0 && forall t :: Vertex(V, t) ==> val[t] >= 0.0
        decreases Queued(V, val[..])
      {
        k := FinishVertex(V, source, k, a);
      }
    }

    /** The listing goes from destination i back along dad to a root, as labels minus one.
        It needs a dad chain that ends, and ends within the MAXVECTOR entries there are. */
    method GetPath(i: int, ghost p: seq<int>) returns (vector: array<int>, size: nat)
      requires DadChain(dad[..], p) && p[|p| - 1] == i + 1 && |p| <= MAXVECTOR
      ensures fresh(vector) && vector.Length == MAXVECTOR
      ensures Lists(vector[..], size, p)
    {
      vector := new int[MAXVECTOR];
      size := 0;
      var j := i + 1;
      while j > 0
        invariant size <= |p|
        invariant j == if size < |p| then p[|p| - 1 - size] else 0
        invariant forall m :: 0 <= m < size ==> vector[m] == p[|p| - 1 - m] - 1
        decreases |p| - size
      {
        ghost var m := |p| - 1 - size;
        assert m > 0 ==> dad[..][p[m]] == p[m - 1];
        vector[size] := j - 1;
        size := size + 1;
        j := dad[j];
      }
    }

    method Plan(source: int, destination: int, a: Matrix, nVertex: nat) returns (vector: array<int>, size: nat)
      requires val.Length == dad.Length == nVertex + 1 && nVertex <= MAXVECTOR
      requires Weights(nVertex, a) && 0 <= source < nVertex && 0 <= destination < nVertex
      modifies this`trace, val, dad
      ensures fresh(vector) && vector.Length == MAXVECTOR && size <= nVertex
      ensures ListingFrom(nVertex, a, source, destination, dad[destination + 1] == 0, vector[..], size)
    {
      ShortestDistance(nVertex, source + 1, a);
      assert Vertex(nVertex, destination + 1);
      ghost var p := RouteTo(nVertex, a, source + 1, val[..], dad[..], trace, destination + 1);
      vector, size := GetPath(destination, p);
      ListedRoute(nVertex, a, source, destination, dad[destination + 1] == 0, p, vector[..], size);
    }
  }

  lemma QueueBounds(V: nat, a: Matrix, source: int, val: seq<real>, dad: seq<int>, g: Trace)
    requires Inv(V, a, source, val, dad, g)
    ensures forall t :: Vertex(V, t) ==> -UNSEEN <= val[t] < UNSEEN
    ensures forall t :: Vertex(V, t) && val[t] < 0.0 && val[t] != -UNSEEN ==> |g.roots| > 0
  {
    forall t | Vertex(V, t)
      ensures -UNSEEN <= val[t] < UNSEEN && (val[t] < 0.0 && val[t] != -UNSEEN ==> |g.roots| > 0)
    {
      if val[t] < 0.0 { assert QueuedOk(V, a, val, dad, g, t); } else { assert FinishedOk(V, a, val, dad, g, t); }
    }
  }
}
