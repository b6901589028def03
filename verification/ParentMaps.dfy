/** Parent maps: what a multi-root forest is, independently of how it is linked.
    A node maps to Some(its parent), or to None when it is a root. */
module ParentMaps {

  import opened Common

  type Parents = map<int, Option<int>>

  /** r is k parent steps above n. */
  ghost predicate Reach(f: Parents, n: int, r: int, k: nat)
    decreases k
  {
    n in f && if k == 0 then n == r else f[n].Some? && Reach(f, f[n].value, r, k - 1)
  }

  /** n is r or one of its descendants. */
  ghost predicate Under(f: Parents, n: int, r: int) {
    exists k: nat :: Reach(f, n, r, k)
  }

  /** The subtree of r. */
  ghost function Subtree(f: Parents, r: int): (s: set<int>)
    ensures forall n :: n in s <==> Under(f, n, r)
  {
    assert forall n :: Under(f, n, r) ==> n in f;
    set n | n in f && Under(f, n, r)
  }

  /** depth strictly grows from parent to child, so there is no cycle, and every parent is
      itself a node. */
  ghost predicate Grounded(f: Parents, depth: map<int, nat>) {
    && depth.Keys == f.Keys
    && forall n {:trigger f[n]} :: n in f && f[n].Some? ==> f[n].value in f && depth[f[n].value] < depth[n]
  }

  ghost predicate Forest(f: Parents) {
    exists depth :: Grounded(f, depth)
  }

  // ---------- ancestry ----------

  lemma UnderSelf(f: Parents, n: int)
    requires n in f
    ensures Under(f, n, n)
  {
    assert Reach(f, n, n, 0);
  }

  lemma UnderStep(f: Parents, n: int, r: int)
    requires n in f && f[n].Some? && Under(f, f[n].value, r)
    ensures Under(f, n, r)
  {
    var k: nat :| Reach(f, f[n].value, r, k);
    assert Reach(f, n, r, k + 1);
  }

  lemma UnderParent(f: Parents, n: int, r: int)
    requires Under(f, n, r) && n != r
    ensures n in f && f[n].Some? && Under(f, f[n].value, r)
  {
    var k: nat :| Reach(f, n, r, k);
    assert Reach(f, f[n].value, r, k - 1);
  }

  lemma {:induction false} ReachDepth(f: Parents, depth: map<int, nat>, n: int, r: int, k: nat)
    requires Grounded(f, depth) && Reach(f, n, r, k)
    ensures r in f && depth[r] + k <= depth[n]
    decreases k
  {
    if k > 0 { ReachDepth(f, depth, f[n].value, r, k - 1); }
  }

  lemma UnderDepth(f: Parents, depth: map<int, nat>, n: int, r: int)
    requires Grounded(f, depth) && Under(f, n, r)
    ensures n in f && r in f && (n == r || depth[r] < depth[n])
  {
    var k: nat :| Reach(f, n, r, k);
    ReachDepth(f, depth, n, r, k);
  }

  lemma {:induction false} UnderTrans(f: Parents, n: int, m: int, r: int, k: nat)
    requires Reach(f, n, m, k) && Under(f, m, r)
    ensures Under(f, n, r)
    decreases k
  {
    if k > 0 {
      UnderTrans(f, f[n].value, m, r, k - 1);
      UnderStep(f, n, r);
    }
  }

  /** A proper descendant of r is under one of r's children. */
  lemma {:induction false} UnderChild(f: Parents, n: int, r: int, k: nat) returns (c: int)
    requires Reach(f, n, r, k) && n != r
    ensures c in f && f[c] == Some(r) && Under(f, n, c)
    decreases k
  {
    var p := f[n].value;
    if p == r {
      UnderSelf(f, n);
      c := n;
    } else {
      c := UnderChild(f, p, r, k - 1);
      UnderStep(f, n, c);
    }
  }

  /** Every node is under some root. */
  lemma {:induction false} UnderRoot(f: Parents, depth: map<int, nat>, n: int) returns (r: int)
    requires Grounded(f, depth) && n in f
    ensures r in f && f[r] == None && Under(f, n, r)
    decreases depth[n]
  {
    if f[n].None? {
      UnderSelf(f, n);
      r := n;
    } else {
      r := UnderRoot(f, depth, f[n].value);
      UnderStep(f, n, r);
    }
  }

  // ---------- re-parenting ----------

  lemma UnderUnfold(f: Parents, n: int, r: int)
    requires n in f
    ensures Under(f, n, r) <==> n == r || (f[n].Some? && Under(f, f[n].value, r))
  {
    if n == r { UnderSelf(f, n); }
    else if Under(f, n, r) { UnderParent(f, n, r); }
    else if f[n].Some? && Under(f, f[n].value, r) { UnderStep(f, n, r); }
  }

  /** Nodes outside c's subtree do not notice that c's own entry changes. */
  lemma {:induction false} UnderElsewhere(f: Parents, depth: map<int, nat>, c: int, x: Option<int>, n: int, r: int)
    requires Grounded(f, depth) && n in f && !Under(f, n, c)
    ensures Under(f[c := x], n, r) <==> Under(f, n, r)
    decreases depth[n]
  {
    UnderSelf(f, n);
    UnderUnfold(f, n, r);
    UnderUnfold(f[c := x], n, r);
    if f[n].Some? {
      UnderUnfold(f, n, c);
      UnderElsewhere(f, depth, c, x, f[n].value, r);
    }
  }

  /** Making c a root changes neither what is in its subtree nor what is not. */
  lemma {:induction false} CutSubtree(f: Parents, depth: map<int, nat>, c: int, n: int)
    requires Grounded(f, depth) && c in f && n in f
    ensures Under(f[c := None], n, c) <==> Under(f, n, c)
    decreases depth[n]
  {
    UnderUnfold(f, n, c);
    UnderUnfold(f[c := None], n, c);
    if n != c && f[n].Some? { CutSubtree(f, depth, c, f[n].value); }
  }

  lemma CutSubtrees(f: Parents, depth: map<int, nat>, c: int)
    requires Grounded(f, depth) && c in f
    ensures forall n :: n in f ==> (Under(f[c := None], n, c) <==> Under(f, n, c))
    ensures Subtree(f[c := None], c) == Subtree(f, c)
  {
    forall n | n in f ensures Under(f[c := None], n, c) <==> Under(f, n, c) { CutSubtree(f, depth, c, n); }
    assert forall n :: Under(f, n, c) ==> n in f;
    assert forall n :: Under(f[c := None], n, c) ==> n in f;
  }

  lemma {:induction false} FreshIsLeaf(f: Parents, depth: map<int, nat>, c: int, n: int)
    requires Grounded(f, depth) && c !in f && n in f
    ensures !Under(f[c := None], n, c)
    decreases depth[n]
  {
    UnderUnfold(f[c := None], n, c);
    if f[n].Some? { FreshIsLeaf(f, depth, c, f[n].value); }
  }

  /** What add_ptree_edge(p, c) does to the forest.  The new edge replaces c's old one and
      c keeps its descendants; but when p is itself in c's subtree the edge would close a
      cycle, and then the whole subtree of c leaves the forest. */
  ghost function AddEdge(f: Parents, p: int, c: int): (f': Parents) {
    var f1 := if p in f then f else f[p := None];
    if c in f1 && f1[c] != Some(p) && Under(f1, p, c) then f1 - Subtree(f1, c)
    else f1[c := Some(p)]
  }

  ghost function Lowered(f: Parents, depth: map<int, nat>, c: int, drop: nat): (d: map<int, nat>)
    requires depth.Keys == f.Keys
    ensures d.Keys == depth.Keys
  {
    map n | n in depth :: if Under(f, n, c) then depth[n] + drop else depth[n]
  }

  lemma AttachGrounded(f: Parents, depth: map<int, nat>, p: int, c: int)
    requires Grounded(f, depth) && p in f && c in f && !Under(f, p, c)
    ensures Grounded(f[c := Some(p)], Lowered(f, depth, c, depth[p] + 1))
  {
    var f', d := f[c := Some(p)], Lowered(f, depth, c, depth[p] + 1);
    UnderSelf(f, c);
    forall n | n in f' && f'[n].Some?
      ensures f'[n].value in f' && d[f'[n].value] < d[n]
    {
      UnderUnfold(f, n, c);
    }
  }

  lemma DetachGrounded(f: Parents, depth: map<int, nat>, c: int)
    requires Grounded(f, depth)
    ensures Grounded(f - Subtree(f, c), depth - Subtree(f, c))
  {
    var f' := f - Subtree(f, c);
    forall n | n in f' && f'[n].Some?
      ensures f'[n].value in f' && depth[f'[n].value] < depth[n]
    {
      UnderUnfold(f, n, c);
    }
  }

  /** Over any edge, a forest stays a forest. */
  lemma AddEdgeKeepsForest(f: Parents, p: int, c: int)
    requires Forest(f)
    ensures Forest(AddEdge(f, p, c))
  {
    var depth :| Grounded(f, depth);
    var f1 := if p in f then f else f[p := None];
    var d1 := if p in f then depth else depth[p := 0];
    assert Grounded(f1, d1);
    if c in f1 && f1[c] != Some(p) && Under(f1, p, c) {
      DetachGrounded(f1, d1, c);
    } else if c in f1 {
      if Under(f1, p, c) { UnderDepth(f1, d1, p, c); }
      AttachGrounded(f1, d1, p, c);
    } else {
      assert Grounded(f1[c := Some(p)], d1[c := d1[p] + 1]);
    }
  }

  /** The edge closes no cycle: only c's parent changes, and c's descendants come along
      under p and everything above p. */
  lemma AddEdgeMovesSubtree(f: Parents, p: int, c: int)
    requires Forest(f) && p in f && c in f && !Under(f, p, c)
    ensures var f' := AddEdge(f, p, c);
            && f'.Keys == f.Keys && f'[c] == Some(p)
            && (forall n :: n in f && n != c ==> f'[n] == f[n])
            && (forall n, x :: n in f ==>
                  (Under(f', n, x) <==> if Under(f, n, c) then (Under(f, n, x) && Under(f, x, c)) || Under(f, p, x)
                                        else Under(f, n, x)))
  {
    var depth :| Grounded(f, depth);
    var f' := AddEdge(f, p, c);
    forall n, x | n in f
      ensures Under(f', n, x) <==> if Under(f, n, c) then (Under(f, n, x) && Under(f, x, c)) || Under(f, p, x)
                                   else Under(f, n, x)
    {
      if Under(f, n, c) { MovedAncestry(f, depth, p, c, n, x); } else { UnderElsewhere(f, depth, c, Some(p), n, x); }
    }
  }

  lemma {:induction false} MovedAncestry(f: Parents, depth: map<int, nat>, p: int, c: int, n: int, x: int)
    requires Grounded(f, depth) && p in f && c in f && !Under(f, p, c) && Under(f, n, c)
    ensures Under(f[c := Some(p)], n, x) <==> (Under(f, n, x) && Under(f, x, c)) || Under(f, p, x)
    decreases depth[n]
  {
    var f' := f[c := Some(p)];
    UnderDepth(f, depth, n, c);
    UnderUnfold(f', n, x);
    UnderUnfold(f, n, x);
    if n == c {
      UnderElsewhere(f, depth, c, Some(p), p, x);
      UnderSelf(f, c);
      if Under(f, c, x) && Under(f, x, c) { UnderDepth(f, depth, c, x); UnderDepth(f, depth, x, c); }
    } else {
      UnderParent(f, n, c);
      MovedAncestry(f, depth, p, c, f[n].value, x);
    }
  }

  /** The edge closes a cycle: exactly c's subtree leaves, and everyone else keeps parent
      and ancestors. */
  lemma AddEdgeDropsSubtree(f: Parents, p: int, c: int)
    requires Forest(f) && p in f && c in f && f[c] != Some(p) && Under(f, p, c)
    ensures var f' := AddEdge(f, p, c);
            && (forall n :: n in f' <==> n in f && !Under(f, n, c))
            && (forall n :: n in f' ==> f'[n] == f[n])
            && (forall n, x :: n in f' ==> (Under(f', n, x) <==> Under(f, n, x)))
  {
    var depth :| Grounded(f, depth);
    var f' := AddEdge(f, p, c);
    forall n, x | n in f'
      ensures Under(f', n, x) <==> Under(f, n, x)
    {
      StayedAncestry(f, depth, c, n, x);
    }
  }

  lemma {:induction false} StayedAncestry(f: Parents, depth: map<int, nat>, c: int, n: int, x: int)
    requires Grounded(f, depth) && n in f && !Under(f, n, c)
    ensures Under(f - Subtree(f, c), n, x) <==> Under(f, n, x)
    decreases depth[n]
  {
    var f' := f - Subtree(f, c);
    UnderUnfold(f, n, x);
    UnderUnfold(f', n, x);
    UnderUnfold(f, n, c);
    if f[n].Some? { StayedAncestry(f, depth, c, f[n].value, x); }
  }

  // ---------- whole runs ----------

  ghost function AddEdges(f: Parents, edges: seq<(int, int)>): (f': Parents)
    decreases |edges|
  {
    if edges == [] then f else AddEdges(AddEdge(f, edges[0].0, edges[0].1), edges[1..])
  }

  /** Every state reached from a forest by any edges is a forest. */
  lemma {:induction false} EveryRunIsForest(f: Parents, edges: seq<(int, int)>)
    requires Forest(f)
    ensures Forest(AddEdges(f, edges))
    decreases |edges|
  {
    if edges != [] {
      AddEdgeKeepsForest(f, edges[0].0, edges[0].1);
      EveryRunIsForest(AddEdge(f, edges[0].0, edges[0].1), edges[1..]);
    }
  }
}
