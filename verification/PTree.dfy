/** The pingtree forest as it is linked in memory: `next` chains the root list and, for a
    non-root, its siblings, which are kept in increasing order of id. */
module PTree {

  import opened Common
  import opened ParentMaps

  class PNode {
    const id: int
    var parent: PNode?
    var next: PNode?
    var children: PNode?

    constructor (id: int)
      ensures this.id == id && parent == null && next == null && children == null
    {
      this.id := id;
      parent, next, children := null, null, null;
    }
  }

  // ---------- chains of next links ----------

  ghost predicate Chain(h: PNode?, s: seq<PNode>)
    reads (set x | x in s)`next
  {
    && h == (if s == [] then null else s[0])
    && (forall i, j :: 0 <= i < j < |s| && j == i + 1 ==> s[i].next == s[j])
    && (s != [] ==> s[|s| - 1].next == null)
  }

  ghost predicate Distinct(s: seq<PNode>) {
    forall i, j :: 0 <= i < j < |s| ==> s[i] != s[j]
  }

  ghost predicate Increasing(s: seq<PNode>) {
    forall i, j :: 0 <= i < j < |s| ==> s[i].id < s[j].id
  }

  /** s with c put in before position j. */
  ghost function Inserted(s: seq<PNode>, j: nat, c: PNode): (r: seq<PNode>)
    requires j <= |s|
  {
    s[..j] + [c] + s[j..]
  }

  ghost function Without(s: seq<PNode>, j: nat): (r: seq<PNode>)
    requires j < |s|
  {
    s[..j] + s[j + 1..]
  }

  lemma ChainCons(n: PNode, s: seq<PNode>)
    requires Chain(n.next, s)
    ensures Chain(n, [n] + s)
  {
    var r := [n] + s;
    forall i, j | 0 <= i < j < |r| && j == i + 1
      ensures r[i].next == r[j]
    {
      if i > 0 { assert s[i - 1].next == s[j - 1]; }
    }
  }

  lemma ChainInsert(h: PNode?, ks: seq<PNode>, j: nat, c: PNode)
    requires j <= |ks| && h == if j == 0 then c else ks[0]
    requires forall i :: 0 <= i < |ks| - 1 && i != j - 1 ==> ks[i].next == ks[i + 1]
    requires j > 0 ==> ks[j - 1].next == c
    requires c.next == if j < |ks| then ks[j] else null
    requires j < |ks| ==> ks[|ks| - 1].next == null
    ensures Chain(h, Inserted(ks, j, c))
  {
    var r := Inserted(ks, j, c);
    forall i, m | 0 <= i < m < |r| && m == i + 1
      ensures r[i].next == r[m]
    {
      if i < j - 1 { assert ks[i].next == ks[i + 1]; } else if i > j { assert ks[i - 1].next == ks[i - 1 + 1]; }
    }
  }

  method LinkEdge(p: PNode, c: PNode, ghost ks: seq<PNode>) returns (ghost j: nat)
    requires Chain(p.children, ks) && Increasing(ks) && c !in ks && p !in ks
    modifies p`children, c`parent, c`next, (set k | k in ks)`next
    ensures c.parent == p
    ensures j <= |ks| && Chain(p.children, Inserted(ks, j, c))
    ensures forall i :: 0 <= i < j ==> ks[i].id < c.id
    ensures forall i :: j <= i < |ks| ==> c.id <= ks[i].id
  {
    c.parent := p;
    if p.children != null && c.id > p.children.id {
      var t := p.children;
      j := 1;
      while t.next != null && c.id > t.next.id
        invariant 1 <= j <= |ks| && t == ks[j - 1] && ks[j - 1].id < c.id
        invariant Chain(p.children, ks)
        decreases |ks| - j
      {
        assert j < |ks| ==> ks[j - 1].next == ks[j];
        t := t.next;
        j := j + 1;
      }
      assert j < |ks| ==> ks[j - 1].next == ks[j];
      assert j < |ks| ==> c.id <= ks[j].id;
      c.next := t.next;
      t.next := c;
    } else {
      j := 0;
      assert 0 < |ks| ==> c.id <= ks[0].id;
      c.next := p.children;
      p.children := c;
    }
    ChainInsert(p.children, ks, j, c);
  }

  lemma ChainRemove(h: PNode?, ks: seq<PNode>, j: nat, after: PNode?)
    requires j < |ks| && after == if j + 1 < |ks| then ks[j + 1] else null
    requires h == if j == 0 then after else ks[0]
    requires forall i :: 0 <= i < |ks| - 1 && i != j - 1 && i != j ==> ks[i].next == ks[i + 1]
    requires j > 0 ==> ks[j - 1].next == after
    requires j + 1 < |ks| ==> ks[|ks| - 1].next == null
    ensures Chain(h, Without(ks, j))
  {
    var r := Without(ks, j);
    forall i, m | 0 <= i < m < |r| && m == i + 1
      ensures r[i].next == r[m]
    {
      if i < j - 1 { assert ks[i].next == ks[i + 1]; } else if i >= j { assert ks[i + 1].next == ks[i + 1 + 1]; }
    }
  }

  method UnlinkEdge(p: PNode, c: PNode, ghost ks: seq<PNode>, ghost j: nat)
    requires Chain(p.children, ks) && Distinct(ks) && j < |ks| && ks[j] == c && p !in ks
    modifies p`children, c`parent, (set k | k in ks)`next
    ensures c.parent == null && c.next == null
    ensures Chain(p.children, Without(ks, j))
  {
    if p.children == c {
      p.children := c.next;
    } else {
      var t := p.children;
      ghost var i := 0;
      while t.next != c
        invariant 0 <= i < j && t == ks[i]
        decreases j - i
      {
        assert ks[i].next == ks[i + 1];
        t := t.next;
        i := i + 1;
      }
      assert ks[i].next == ks[i + 1];
      assert i + 1 == j;
      t.next := c.next;
    }
    c.next := null;
    c.parent := null;
    ChainRemove(p.children, ks, j, old(c.next));
  }

  // ---------- what the links stand for ----------

  /** A forest of nodes as values: the root list, the child lists, the parent links, the
      nodes by id, and the parent map over ids with a witness that it has no cycle. */
  datatype Links = Links(roots: seq<PNode>, kids: map<PNode, seq<PNode>>, up: map<PNode, PNode?>,
                         byId: map<int, PNode>, parents: Parents, depth: map<int, nat>)

  const EMPTY: Links := Links([], map[], map[], map[], map[], map[])

  function IdOf(n: PNode?): (r: Option<int>) {
    if n == null then None else Some(n.id)
  }

  /** Ids are unique, and parents is the parent map of the parent links. */
  ghost predicate NameOk(l: Links, n: PNode) {
    && n in l.up && n.id in l.byId && l.byId[n.id] == n
    && n.id in l.parents && l.parents[n.id] == IdOf(l.up[n])
  }

  /** n's child list holds n's children in strictly increasing order. */
  ghost predicate KidsOk(l: Links, n: PNode) {
    && n in l.kids && Increasing(l.kids[n])
    && forall i :: 0 <= i < |l.kids[n]| ==> l.kids[n][i] in l.up && l.up[l.kids[n][i]] == n
  }

  ghost predicate RootsOk(l: Links) {
    && Distinct(l.roots)
    && forall i :: 0 <= i < |l.roots| ==> l.roots[i] in l.up && l.up[l.roots[i]] == null
  }

  /** n is on the list it belongs to, unless it is in off, the nodes on no list. */
  ghost predicate PlaceOk(l: Links, off: set<PNode>, n: PNode) {
    && n in l.up
    && if l.up[n] == null then n in l.roots <==> n !in off
       else n !in off && l.up[n] in l.up && l.up[n] in l.kids && n in l.kids[l.up[n]]
  }

  ghost predicate NodeOk(l: Links, off: set<PNode>, n: PNode) {
    NameOk(l, n) && KidsOk(l, n) && PlaceOk(l, off, n)
  }

  ghost predicate TablesOk(l: Links) {
    && l.kids.Keys == l.up.Keys
    && l.byId.Keys == l.parents.Keys
    && (forall i :: i in l.byId ==> l.byId[i] in l.up && l.byId[i].id == i)
    && RootsOk(l)
    && Grounded(l.parents, l.depth)
  }

  ghost predicate Tree(l: Links, off: set<PNode>) {
    && TablesOk(l)
    && (forall n {:trigger NodeOk(l, off, n)} :: n in l.up ==> NodeOk(l, off, n))
  }

  // ---------- the steps of add_ptree_edge, on values ----------

  ghost function WithNode(l: Links, n: PNode): (r: Links) {
    l.(kids := l.kids[n := []], up := l.up[n := null], byId := l.byId[n.id := n],
       parents := l.parents[n.id := None], depth := l.depth[n.id := 0])
  }

  lemma WithNodeAt(l: Links, n: PNode, m: PNode)
    requires n !in l.up && n.id !in l.parents && NodeOk(l, {}, m)
    ensures NodeOk(WithNode(l, n), {n}, m)
  {
  }

  lemma WithNodeTables(l: Links, n: PNode)
    requires TablesOk(l) && n !in l.up && n.id !in l.parents
    ensures TablesOk(WithNode(l, n))
  {
  }

  lemma WithNodeOk(l: Links, n: PNode)
    requires Tree(l, {}) && n !in l.up && n.id !in l.parents
    ensures Tree(WithNode(l, n), {n})
  {
    var r := WithNode(l, n);
    WithNodeTables(l, n);
    forall m | m in r.up
      ensures NodeOk(r, {n}, m)
    {
      if m != n {
        assert NodeOk(l, {}, m);
        WithNodeAt(l, n, m);
      }
    }
  }

  ghost function WithRoot(l: Links, n: PNode): (r: Links) {
    l.(roots := [n] + l.roots)
  }

  lemma WithRootOk(l: Links, n: PNode)
    requires Tree(l, {n}) && n in l.up && l.up[n] == null
    ensures Tree(WithRoot(l, n), {})
  {
    var r := WithRoot(l, n);
    forall m | m in r.up
      ensures NodeOk(r, {}, m)
    {
      assert NodeOk(l, {n}, m);
    }
    assert NodeOk(l, {n}, n);
  }

  ghost function WithoutRoot(l: Links, j: nat): (r: Links)
    requires j < |l.roots|
  {
    l.(roots := Without(l.roots, j))
  }

  lemma WithoutRootOk(l: Links, j: nat)
    requires Tree(l, {}) && j < |l.roots|
    ensures Tree(WithoutRoot(l, j), {l.roots[j]})
  {
    var r, c := WithoutRoot(l, j), l.roots[j];
    forall m | m in r.up
      ensures NodeOk(r, {c}, m)
    {
      assert NodeOk(l, {}, m);
      WithoutMembers(l.roots, j, m);
    }
  }

  lemma WithoutMembers(s: seq<PNode>, j: nat, m: PNode)
    requires j < |s| && Distinct(s)
    ensures m in Without(s, j) <==> m in s && m != s[j]
    ensures Distinct(Without(s, j))
  {
    if m in s && m != s[j] {
      var i :| 0 <= i < |s| && s[i] == m;
      assert m == Without(s, j)[if i < j then i else i - 1];
    }
  }

  ghost function WithoutKid(l: Links, p: PNode, j: nat): (r: Links)
    requires p in l.kids && j < |l.kids[p]|
  {
    var c := l.kids[p][j];
    l.(kids := l.kids[p := Without(l.kids[p], j)], up := l.up[c := null], parents := l.parents[c.id := None])
  }

  lemma WithoutKidAt(l: Links, p: PNode, j: nat, m: PNode)
    requires p in l.kids && j < |l.kids[p]| && l.kids[p][j] in l.up && l.up[l.kids[p][j]] == p
    requires m in l.up && NodeOk(l, {}, m) && KidsOk(l, p) && NameOk(l, l.kids[p][j])
    requires l.kids[p][j] !in l.roots
    ensures NodeOk(WithoutKid(l, p, j), {l.kids[p][j]}, m)
  {
    var r, c := WithoutKid(l, p, j), l.kids[p][j];
    WithoutMembers(l.kids[p], j, m);
    assert NameOk(r, m) by { if m != c { assert m.id != c.id; } }
    assert KidsOk(r, m) by {
      forall i | 0 <= i < |r.kids[m]| ensures r.kids[m][i] in r.up && r.up[r.kids[m][i]] == m {
        if m == p {
          var k := if i < j then i else i + 1;
          assert r.kids[m][i] == l.kids[p][k] && l.kids[p][k] != c;
        } else {
          assert l.kids[m][i] != c;
        }
      }
    }
  }

  lemma WithoutKidOk(l: Links, p: PNode, j: nat)
    requires Tree(l, {}) && p in l.kids && j < |l.kids[p]|
    ensures Tree(WithoutKid(l, p, j), {l.kids[p][j]})
  {
    var r, c := WithoutKid(l, p, j), l.kids[p][j];
    assert NodeOk(l, {}, p) && NodeOk(l, {}, c);
    forall m | m in r.up
      ensures NodeOk(r, {c}, m)
    {
      assert NodeOk(l, {}, m);
      WithoutKidAt(l, p, j, m);
    }
    assert forall i :: 0 <= i < |l.roots| ==> l.roots[i] != c;
  }

  ghost function Moved(l: Links, p: PNode, j: nat, c: PNode): (r: Links)
    requires p in l.kids && j <= |l.kids[p]|
  {
    l.(kids := l.kids[p := Inserted(l.kids[p], j, c)], up := l.up[c := p])
  }

  ghost function WithKid(l: Links, p: PNode, j: nat, c: PNode): (r: Links)
    requires p in l.kids && j <= |l.kids[p]| && p.id in l.depth && l.depth.Keys == l.parents.Keys
  {
    Moved(l, p, j, c).(parents := l.parents[c.id := Some(p.id)],
                       depth := Lowered(l.parents, l.depth, c.id, l.depth[p.id] + 1))
  }

  ghost predicate Slot(s: seq<PNode>, j: nat, c: PNode) {
    && j <= |s|
    && (forall i :: 0 <= i < j ==> s[i].id < c.id)
    && (forall i :: j <= i < |s| ==> c.id < s[i].id)
  }

  lemma WithKidKids(l: Links, p: PNode, j: nat, c: PNode, m: PNode)
    requires p in l.kids && p in l.up && c in l.up && l.up[c] == null && Slot(l.kids[p], j, c)
    requires KidsOk(l, m) && p.id in l.depth && l.depth.Keys == l.parents.Keys
    ensures KidsOk(WithKid(l, p, j, c), m)
  {
    var r := WithKid(l, p, j, c);
    var s := r.kids[m];
    forall i | 0 <= i < |s| ensures s[i] in r.up && r.up[s[i]] == m {
      if m == p && i > j { assert s[i] == l.kids[p][i - 1]; }
    }
  }

  lemma WithKidPlace(l: Links, p: PNode, j: nat, c: PNode, m: PNode)
    requires p in l.kids && p in l.up && c in l.up && l.up[c] == null && j <= |l.kids[p]|
    requires PlaceOk(l, {c}, m) && PlaceOk(l, {c}, c) && p.id in l.depth && l.depth.Keys == l.parents.Keys
    ensures PlaceOk(WithKid(l, p, j, c), {}, m)
  {
    var r := WithKid(l, p, j, c);
    if m == c {
      assert r.kids[p][j] == c;
    } else if l.up[m] == p {
      var i :| 0 <= i < |l.kids[p]| && l.kids[p][i] == m;
      assert r.kids[p][if i < j then i else i + 1] == m;
    }
  }

  lemma WithKidNodes(l: Links, p: PNode, j: nat, c: PNode, m: PNode)
    requires Tree(l, {c}) && p in l.up && c in l.up && l.up[c] == null && p in l.kids && Slot(l.kids[p], j, c)
    requires p.id in l.depth && m in l.up
    ensures NodeOk(WithKid(l, p, j, c), {}, m)
  {
    assert NodeOk(l, {c}, c) && NodeOk(l, {c}, m);
    WithKidKids(l, p, j, c, m);
    WithKidPlace(l, p, j, c, m);
    assert NameOk(WithKid(l, p, j, c), m) by { if m != c { assert m.id != c.id; } }
  }

  lemma WithKidTables(l: Links, p: PNode, j: nat, c: PNode)
    requires TablesOk(l) && NodeOk(l, {c}, p) && NodeOk(l, {c}, c) && l.up[c] == null && Slot(l.kids[p], j, c)
    requires !Under(l.parents, p.id, c.id)
    ensures p.id in l.depth && TablesOk(WithKid(l, p, j, c))
  {
    AttachGrounded(l.parents, l.depth, p.id, c.id);
  }

  lemma WithKidOk(l: Links, p: PNode, j: nat, c: PNode)
    requires Tree(l, {c}) && p in l.up && c in l.up && l.up[c] == null && p in l.kids && Slot(l.kids[p], j, c)
    requires !Under(l.parents, p.id, c.id)
    ensures p.id in l.depth && Tree(WithKid(l, p, j, c), {})
  {
    assert NodeOk(l, {c}, p) && NodeOk(l, {c}, c);
    WithKidTables(l, p, j, c);
    var r := WithKid(l, p, j, c);
    forall m | m in r.up
      ensures NodeOk(r, {}, m)
    {
      WithKidNodes(l, p, j, c, m);
    }
  }

  ghost function WithoutSubtree(l: Links, c: PNode): (r: Links) {
    var gone := Subtree(l.parents, c.id);
    l.(kids := map n | n in l.kids && n.id !in gone :: l.kids[n],
       up := map n | n in l.up && n.id !in gone :: l.up[n],
       byId := l.byId - gone, parents := l.parents - gone, depth := l.depth - gone)
  }

  lemma WithoutSubtreeAt(l: Links, c: PNode, m: PNode)
    requires NodeOk(l, {c}, m) && !Under(l.parents, m.id, c.id)
    requires l.up[m] != null ==> NameOk(l, l.up[m])
    requires forall i :: 0 <= i < |l.kids[m]| ==> NameOk(l, l.kids[m][i])
    requires NameOk(l, c) && l.up[c] == null
    ensures NodeOk(WithoutSubtree(l, c), {}, m)
  {
    var r := WithoutSubtree(l, c);
    UnderUnfold(l.parents, m.id, c.id);
    forall i | 0 <= i < |r.kids[m]| ensures r.kids[m][i] in r.up && r.up[r.kids[m][i]] == m {
      assert NameOk(l, l.kids[m][i]);
      UnderUnfold(l.parents, l.kids[m][i].id, c.id);
      assert l.kids[m][i] != c;
    }
  }

  lemma KidsGoToo(l: Links, c: PNode, p: PNode)
    requires Tree(l, {c}) && p in l.up && Under(l.parents, p.id, c.id)
    ensures p !in WithoutSubtree(l, c).up && p in l.kids
    ensures forall i :: 0 <= i < |l.kids[p]| ==> l.kids[p][i] !in WithoutSubtree(l, c).up
  {
    assert NodeOk(l, {c}, p);
    forall i | 0 <= i < |l.kids[p]| ensures l.kids[p][i] !in WithoutSubtree(l, c).up {
      assert NodeOk(l, {c}, l.kids[p][i]);
      UnderStep(l.parents, l.kids[p][i].id, c.id);
    }
  }

  /** Ids differ, so "not above" means "below". */
  lemma SlotFromIds(l: Links, p: PNode, j: nat, c: PNode)
    requires Tree(l, {c}) && p in l.up && c in l.up && p in l.kids && OnNoList(l, c)
    requires j <= |l.kids[p]|
    requires forall i :: 0 <= i < j ==> l.kids[p][i].id < c.id
    requires forall i :: j <= i < |l.kids[p]| ==> c.id <= l.kids[p][i].id
    ensures Slot(l.kids[p], j, c)
  {
    assert NodeOk(l, {c}, p) && NodeOk(l, {c}, c);
    forall i | j <= i < |l.kids[p]| ensures c.id < l.kids[p][i].id {
      assert NodeOk(l, {c}, l.kids[p][i]);
    }
  }

  lemma WithoutSubtreeOk(l: Links, c: PNode)
    requires Tree(l, {c}) && c in l.up && l.up[c] == null
    ensures Tree(WithoutSubtree(l, c), {})
  {
    var r := WithoutSubtree(l, c);
    assert NodeOk(l, {c}, c);
    forall m | m in r.up
      ensures NodeOk(r, {}, m)
    {
      assert NodeOk(l, {c}, m);
      if l.up[m] != null { assert NodeOk(l, {c}, l.up[m]); }
      forall i | 0 <= i < |l.kids[m]| ensures NameOk(l, l.kids[m][i]) { assert NodeOk(l, {c}, l.kids[m][i]); }
      WithoutSubtreeAt(l, c, m);
    }
    forall i | 0 <= i < |r.roots| ensures r.roots[i] in r.up && r.up[r.roots[i]] == null {
      var x := l.roots[i];
      assert NodeOk(l, {c}, x);
      UnderUnfold(l.parents, x.id, c.id);
    }
    DetachGrounded(l.parents, l.depth, c.id);
  }

  // ---------- which lists share nodes ----------

  ghost predicate OnNoList(l: Links, c: PNode) {
    c !in l.roots && forall m :: m in l.kids ==> c !in l.kids[m]
  }

  ghost predicate Apart(s: seq<PNode>, t: seq<PNode>) {
    forall i :: 0 <= i < |s| ==> s[i] !in t
  }

  /** p's child list shares no node with any other list, nor with p itself. */
  ghost predicate OwnList(l: Links, p: PNode)
    requires p in l.kids
  {
    && p !in l.kids[p]
    && Apart(l.roots, l.kids[p])
    && (forall n :: n in l.kids && n != p ==> Apart(l.kids[n], l.kids[p]))
  }

  lemma ListsApart(l: Links, off: set<PNode>, p: PNode)
    requires Tree(l, off) && p in l.up
    ensures p in l.kids && OwnList(l, p) && Increasing(l.kids[p])
  {
    assert NodeOk(l, off, p);
    assert l.up[p] != p;
    forall n | n in l.kids && n != p
      ensures Apart(l.kids[n], l.kids[p])
    {
      assert NodeOk(l, off, n);
    }
  }

  lemma ParentIs(l: Links, p: PNode, c: PNode)
    requires Tree(l, {}) && p in l.up && c in l.up
    ensures p.id in l.parents && c.id in l.parents
    ensures l.parents[c.id] == Some(p.id) <==> l.up[c] == p
  {
    assert NodeOk(l, {}, p) && NodeOk(l, {}, c);
    if l.up[c] != null { assert NodeOk(l, {}, l.up[c]); }
  }

  lemma NewChildMeans(f: Parents, depth: map<int, nat>, p: int, c: int)
    requires Grounded(f, depth) && p in f && c !in f
    ensures AddEdge(f, p, c) == f[c := Some(p)]
  {
  }

  lemma SetTwice(f: Parents, i: int, first: Option<int>, second: Option<int>)
    ensures f[i := first][i := second] == f[i := second]
  {
  }

  lemma NewParentMeans(f: Parents, p: int, c: int)
    requires p !in f && c in f
    ensures AddEdge(f[p := None], p, c) == AddEdge(f, p, c)
  {
  }

  /** Taking c out and putting it under p amounts to AddEdge. */
  lemma ReparentMeans(l: Links, p: PNode, c: PNode)
    requires Tree(l, {}) && p in l.up && c in l.up && l.up[c] != p
    ensures var f := l.parents[c.id := None];
            var r := if Under(f, p.id, c.id) then f - Subtree(f, c.id) else f[c.id := Some(p.id)];
            AddEdge(l.parents, p.id, c.id) == r
  {
    ParentIs(l, p, c);
    CutSubtrees(l.parents, l.depth, c.id);
    UnderSelf(l.parents, c.id);
  }

  /** A node just taken in has nothing below it. */
  lemma AdoptedIsLeaf(l: Links, p: PNode, c: PNode)
    requires Tree(l, {}) && p in l.up && c !in l.up && c.id !in l.parents
    ensures p.id in l.parents
    ensures Tree(WithNode(l, c), {c}) && !Under(WithNode(l, c).parents, p.id, c.id)
  {
    assert NodeOk(l, {}, p);
    FreshIsLeaf(l.parents, l.depth, c.id, p.id);
    WithNodeOk(l, c);
  }

  lemma RootListApart(l: Links, off: set<PNode>)
    requires Tree(l, off)
    ensures forall m :: m in l.kids ==> Apart(l.kids[m], l.roots)
  {
    forall m | m in l.kids ensures Apart(l.kids[m], l.roots) { assert NodeOk(l, off, m); }
  }

  lemma OffIsOnNoList(l: Links, c: PNode)
    requires Tree(l, {c}) && c in l.up
    ensures l.up[c] == null && OnNoList(l, c)
  {
    assert NodeOk(l, {c}, c);
    forall m | m in l.kids ensures c !in l.kids[m] { assert NodeOk(l, {c}, m); }
  }

  // ---------- searching ----------

  /** A child's subtree is strictly inside its parent's. */
  lemma ChildSmaller(l: Links, p: PNode, c: PNode)
    requires Tree(l, {}) && p in l.up && p in l.kids && c in l.kids[p]
    ensures c in l.up
    ensures Subtree(l.parents, c.id) < Subtree(l.parents, p.id)
    ensures forall i :: Under(l.parents, i, c.id) ==> Under(l.parents, i, p.id)
  {
    assert NodeOk(l, {}, p) && NodeOk(l, {}, c);
    assert l.parents[c.id] == Some(p.id);
    UnderSelf(l.parents, p.id);
    UnderStep(l.parents, c.id, p.id);
    forall i | Under(l.parents, i, c.id) ensures Under(l.parents, i, p.id) {
      var k: nat :| Reach(l.parents, i, c.id, k);
      UnderTrans(l.parents, i, c.id, p.id, k);
    }
    if Under(l.parents, p.id, c.id) { UnderDepth(l.parents, l.depth, p.id, c.id); }
    assert p.id in Subtree(l.parents, p.id) && p.id !in Subtree(l.parents, c.id);
  }

  /** What is properly below root is below one of root's children. */
  lemma BelowSomeChild(l: Links, root: PNode, id: int)
    requires Tree(l, {}) && root in l.up
    ensures root in l.kids
    ensures Under(l.parents, id, root.id) ==>
              id == root.id || exists m :: 0 <= m < |l.kids[root]| && Under(l.parents, id, l.kids[root][m].id)
  {
    assert NodeOk(l, {}, root);
    if Under(l.parents, id, root.id) && id != root.id {
      var k: nat :| Reach(l.parents, id, root.id, k);
      var c := UnderChild(l.parents, id, root.id, k);
      assert NodeOk(l, {}, l.byId[c]);
      assert NodeOk(l, {}, l.up[l.byId[c]]);
      var m :| 0 <= m < |l.kids[root]| && l.kids[root][m] == l.byId[c];
    }
  }

  /** Every node is below some root. */
  lemma BelowSomeRoot(l: Links, id: int)
    requires Tree(l, {})
    ensures id in l.parents ==> exists m :: 0 <= m < |l.roots| && Under(l.parents, id, l.roots[m].id)
  {
    if id in l.parents {
      var r := UnderRoot(l.parents, l.depth, id);
      assert NodeOk(l, {}, l.byId[r]);
      var m :| 0 <= m < |l.roots| && l.roots[m] == l.byId[r];
    }
  }

  /** All lists stay inside the forest. */
  ghost predicate Closed(l: Links) {
    && (forall i :: 0 <= i < |l.roots| ==> l.roots[i] in l.up)
    && (forall n :: n in l.up ==> n in l.kids && forall i :: 0 <= i < |l.kids[n]| ==> l.kids[n][i] in l.up)
  }

  lemma TreeIsClosed(l: Links, off: set<PNode>)
    requires Tree(l, off)
    ensures Closed(l)
  {
    forall n | n in l.up ensures n in l.kids && forall i :: 0 <= i < |l.kids[n]| ==> l.kids[n][i] in l.up {
      assert NodeOk(l, off, n);
    }
  }

  // ---------- the forest ----------

  class PingForest {
    var rootlist: PNode?
    ghost var l: Links

    ghost predicate Inside(s: seq<PNode>)
      reads this
    {
      forall i :: 0 <= i < |s| ==> s[i] in l.up
    }

    ghost predicate NodeLinked(n: PNode)
      requires n in l.up
      reads this, l.up.Keys
    {
      n.parent == l.up[n] && n in l.kids && Inside(l.kids[n]) && Chain(n.children, l.kids[n])
    }

    /** The memory holds exactly the lists and parent links of l. */
    ghost predicate Linked()
      reads this, l.up.Keys
    {
      && Inside(l.roots)
      && Chain(rootlist, l.roots)
      && (forall n {:trigger NodeLinked(n)} :: n in l.up ==> NodeLinked(n))
    }

    ghost predicate Valid()
      reads this, l.up.Keys
    {
      Tree(l, {}) && Linked()
    }

    constructor ()
      ensures Valid() && l.parents == map[] && l.up == map[]
    {
      rootlist := null;
      l := EMPTY;
    }

    ghost method Adopt(n: PNode)
      requires Linked() && n !in l.up && n.parent == null && n.children == null
      modifies this`l
      ensures Linked() && l == WithNode(old(l), n)
    {
      l := WithNode(l, n);
      forall m | m in l.up
        ensures NodeLinked(m)
      {
        if m != n { assert old(NodeLinked(m)); }
      }
    }

    method AddRootlist(n: PNode)
      requires Linked() && n in l.up && OnNoList(l, n)
      modifies this`rootlist, this`l, n`next
      ensures Linked() && rootlist == n && l == WithRoot(old(l), n)
      ensures n.parent == old(n.parent) && n.children == old(n.children)
    {
      n.next := rootlist;
      rootlist := n;
      l := WithRoot(l, n);
      forall m | m in l.up
        ensures NodeLinked(m)
      {
        assert old(NodeLinked(m));
      }
      ChainCons(n, old(l.roots));
    }

    /** Take n, the j-th root, off the root list.  Null, and a node that is not on the list,
        change nothing; j is then the length of the list. */
    method RemoveRootlist(n: PNode?, ghost rs: seq<PNode>, ghost j: nat)
      requires Chain(rootlist, rs) && Distinct(rs)
      requires if j < |rs| then rs[j] == n else n !in rs
      modifies this`rootlist, (set x | x in rs)`next
      ensures j < |rs| ==> Chain(rootlist, Without(rs, j)) && n.next == null
      ensures j >= |rs| ==> rootlist == old(rootlist) && Chain(rootlist, rs)
    {
      if n == null { return; }
      if rootlist == n {
        rootlist := n.next;
        n.next := null;
      } else {
        if rootlist == null { return; }
        var t := rootlist;
        ghost var i := 0;
        while t.next != null && t.next != n
          invariant i < |rs| && i < j && t == rs[i]
          decreases |rs| - i
        {
          assert rs[i].next == if i + 1 < |rs| then rs[i + 1] else null;
          t := t.next;
          i := i + 1;
        }
        assert rs[i].next == if i + 1 < |rs| then rs[i + 1] else null;
        if t.next == null { return; }
        assert i + 1 == j;
        t.next := n.next;
        n.next := null;
      }
      ChainRemove(rootlist, rs, j, old(n.next));
    }

    ghost method Reroot(roots: seq<PNode>)
      requires Inside(roots) && Chain(rootlist, roots)
      requires forall m {:trigger NodeLinked(m)} :: m in l.up ==> NodeLinked(m)
      modifies this`l
      ensures Linked() && l == old(l).(roots := roots)
    {
      l := l.(roots := roots);
      forall m | m in l.up
        ensures NodeLinked(m)
      {
        assert old(NodeLinked(m));
      }
    }

    /** Take c off the root list. */
    method DetachRoot(c: PNode, ghost j: nat)
      requires Linked() && j < |l.roots| && l.roots[j] == c && Distinct(l.roots)
      requires forall m :: m in l.kids ==> Apart(l.kids[m], l.roots)
      modifies this`rootlist, this`l, (set x | x in l.roots)`next
      ensures Linked() && l == WithoutRoot(old(l), j)
    {
      ghost var rest := Without(l.roots, j);
      assert Inside(rest);
      RemoveRootlist(c, l.roots, j);
      forall m | m in l.up
        ensures NodeLinked(m)
      {
        assert old(NodeLinked(m)) && Apart(l.kids[m], l.roots);
      }
      Reroot(rest);
    }

    /** Linked, except that c's parent is q and p's child list is s. */
    ghost predicate LinkedBut(p: PNode, c: PNode, q: PNode?, s: seq<PNode>)
      requires p in l.up
      reads this, l.up.Keys
    {
      && Inside(l.roots) && Chain(rootlist, l.roots)
      && Inside(s) && Chain(p.children, s)
      && (forall m :: m in l.up ==> m.parent == (if m == c then q else l.up[m]) && m in l.kids && Inside(l.kids[m]))
      && (forall m :: m in l.up && m != p ==> Chain(m.children, l.kids[m]))
    }

    /** Link c under p, either both inside the forest, c being on no list there, or both
        outside it together with p's child list ks. */
    method LinkPedge(p: PNode, c: PNode, ghost ks: seq<PNode>) returns (ghost j: nat)
      requires Linked() && Chain(p.children, ks) && Increasing(ks) && c !in ks && p !in ks
      requires p in l.up ==> c in l.up && p != c && OnNoList(l, c) && p in l.kids && ks == l.kids[p] && OwnList(l, p)
      requires p !in l.up ==> c !in l.up && forall i :: 0 <= i < |ks| ==> ks[i] !in l.up
      modifies p`children, c`parent, c`next, (set k | k in ks)`next
      ensures j <= |ks|
      ensures p in l.up ==> LinkedBut(p, c, p, Inserted(ks, j, c))
      ensures p !in l.up ==> Linked()
      ensures forall i :: 0 <= i < j ==> ks[i].id < c.id
      ensures forall i :: j <= i < |ks| ==> c.id <= ks[i].id
    {
      if p in l.up { assert NodeLinked(p); }
      j := LinkEdge(p, c, ks);
      assert p in l.up ==> Inside(Inserted(ks, j, c));
      if p in l.up {
        forall m | m in l.up
          ensures m.parent == (if m == c then p else l.up[m]) && m in l.kids && Inside(l.kids[m])
          ensures m != p ==> Chain(m.children, l.kids[m])
        {
          assert old(NodeLinked(m));
          if m != p { assert Apart(l.kids[m], ks) && c !in l.kids[m]; }
        }
      }
    }

    ghost method Record(p: PNode, c: PNode, q: PNode?, s: seq<PNode>)
      requires p in l.up && c in l.up && LinkedBut(p, c, q, s)
      modifies this`l
      ensures Linked() && l == old(l).(kids := old(l).kids[p := s], up := old(l).up[c := q])
    {
      l := l.(kids := l.kids[p := s], up := l.up[c := q]);
      forall m | m in l.up
        ensures NodeLinked(m)
      {
      }
    }

    /** Unlink c from its parent's child list. */
    method Detach(c: PNode, ghost p: PNode, ghost j: nat)
      requires Linked() && c in l.up && l.up[c] == p && p in l.up && p in l.kids
      requires j < |l.kids[p]| && l.kids[p][j] == c && Increasing(l.kids[p]) && OwnList(l, p)
      modifies p`children, c`parent, (set x | x in l.kids[p])`next
      ensures LinkedBut(p, c, null, Without(l.kids[p], j))
    {
      assert NodeLinked(c) && NodeLinked(p);
      UnlinkEdge(c.parent, c, l.kids[p], j);
      forall m | m in l.up
        ensures m.parent == (if m == c then null else l.up[m]) && m in l.kids && Inside(l.kids[m])
        ensures m != p ==> Chain(m.children, l.kids[m])
      {
        assert old(NodeLinked(m));
        assert m != p ==> Apart(l.kids[m], l.kids[p]);
      }
    }

    /** The parent map and its witness are bookkeeping: no link depends on them. */
    ghost method Rename(parents: Parents, depth: map<int, nat>)
      requires Linked()
      modifies this`l
      ensures Linked() && l == old(l).(parents := parents, depth := depth)
    {
      l := l.(parents := parents, depth := depth);
      forall m | m in l.up
        ensures NodeLinked(m)
      {
        assert old(NodeLinked(m));
      }
    }

    /** Forget c's subtree, which no list leads to any more. */
    ghost method Drop(c: PNode)
      requires Linked() && Closed(WithoutSubtree(l, c))
      modifies this`l
      ensures Linked() && l == WithoutSubtree(old(l), c)
    {
      l := WithoutSubtree(l, c);
      forall m | m in l.up
        ensures NodeLinked(m)
      {
        assert old(NodeLinked(m));
      }
    }

    method FindTree(root: PNode?, id: int) returns (r: PNode?)
      requires Valid() && (root == null || root in l.up)
      ensures r != null ==> root != null && r in l.up && r.id == id && Under(l.parents, id, root.id)
      ensures r == null ==> root == null || !Under(l.parents, id, root.id)
      decreases if root == null then {} else Subtree(l.parents, root.id), 0
    {
      if root == null { return null; }
      assert NodeOk(l, {}, root) && NodeLinked(root);
      UnderSelf(l.parents, root.id);
      if root.id == id { return root; }
      ghost var ks := l.kids[root];
      var k := root.children;
      ghost var i := 0;
      while k != null
        invariant i <= |ks| && k == (if i < |ks| then ks[i] else null)
        invariant forall m :: 0 <= m < i ==> !Under(l.parents, id, ks[m].id)
        decreases |ks| - i
      {
        ChildSmaller(l, root, k);
        var n := FindTree(k, id);
        if n != null { return n; }
        assert i + 1 < |ks| ==> ks[i].next == ks[i + 1];
        k := k.next;
        i := i + 1;
      }
      BelowSomeChild(l, root, id);
      return null;
    }

    method FindForest(id: int) returns (n: PNode?)
      requires Valid()
      ensures n == null <==> id !in l.parents
      ensures n != null ==> n in l.up && n.id == id && n.parent == l.up[n]
    {
      var r := rootlist;
      ghost var i := 0;
      while r != null
        invariant i <= |l.roots| && r == (if i < |l.roots| then l.roots[i] else null)
        invariant forall m :: 0 <= m < i ==> !Under(l.parents, id, l.roots[m].id)
        decreases |l.roots| - i
      {
        n := FindTree(r, id);
        if n != null {
          assert NodeOk(l, {}, n) && NodeLinked(n);
          return;
        }
        assert i + 1 < |l.roots| ==> l.roots[i].next == l.roots[i + 1];
        r := r.next;
        i := i + 1;
      }
      BelowSomeRoot(l, id);
      return null;
    }

    method DetachKid(c: PNode, ghost p: PNode, ghost j: nat)
      requires Linked() && c in l.up && l.up[c] == p && p in l.up && p in l.kids
      requires j < |l.kids[p]| && l.kids[p][j] == c && Increasing(l.kids[p]) && OwnList(l, p)
      modifies this`l, p`children, c`parent, (set x | x in l.kids[p])`next
      ensures Linked() && l == WithoutKid(old(l), p, j)
    {
      Detach(c, p, j);
      Record(p, c, null, Without(l.kids[p], j));
      Rename(l.parents[c.id := None], l.depth);
    }

    // ---------- whole steps ----------

    method NewRoot(id: int) returns (p: PNode)
      requires Valid() && id !in l.parents
      modifies this`rootlist, this`l
      ensures Valid() && fresh(p) && p.id == id && rootlist == p && p.children == null && l.up == old(l).up[p := null]
      ensures l.parents == old(l).parents[id := None]
    {
      p := new PNode(id);
      ghost var l0 := l;
      Adopt(p);
      WithNodeOk(l0, p);
      OffIsOnNoList(l, p);
      ghost var l1 := l;
      AddRootlist(p);
      WithRootOk(l1, p);
    }

    /** c has been taken off its list, and nothing else has changed. */
    ghost predicate TakenOut(was: Links, c: PNode)
      reads this, l.up.Keys
    {
      && Linked() && Tree(l, {c}) && c in l.up && l.up[c] == null
      && l.up.Keys == was.up.Keys && l.parents == was.parents[c.id := None]
    }

    method TakeFromParent(c: PNode)
      requires Valid() && c in l.up && l.up[c] != null
      modifies this`l, l.up.Keys
      ensures TakenOut(old(l), c)
    {
      ghost var l0, p: PNode := l, l.up[c];
      assert NodeOk(l, {}, c);
      ListsApart(l, {}, p);
      TreeIsClosed(l, {});
      ghost var j: nat :| j < |l.kids[p]| && l.kids[p][j] == c;
      DetachKid(c, p, j);
      WithoutKidOk(l0, p, j);
    }

    method TakeFromRoots(c: PNode)
      requires Valid() && c in l.up && l.up[c] == null
      modifies this`rootlist, this`l, l.up.Keys
      ensures TakenOut(old(l), c)
    {
      ghost var l0 := l;
      assert NodeOk(l, {}, c);
      ghost var j: nat :| j < |l.roots| && l.roots[j] == c;
      RootListApart(l, {});
      DetachRoot(c, j);
      WithoutRootOk(l0, j);
    }

    /** Take c off whatever list it is on; its descendants stay with it. */
    method TakeOut(c: PNode)
      requires Valid() && c in l.up
      modifies this`rootlist, this`l, l.up.Keys
      ensures TakenOut(old(l), c)
    {
      assert NodeLinked(c);
      if c.parent != null {
        TakeFromParent(c);
      } else {
        TakeFromRoots(c);
      }
    }

    /** p is below c: c's subtree, p included, is no longer part of the forest. */
    ghost method DropBelow(p: PNode, c: PNode)
      requires Linked() && Tree(l, {c}) && p in l.up && c in l.up && Under(l.parents, p.id, c.id)
      modifies this`l
      ensures Valid() && l == WithoutSubtree(old(l), c) && p in old(l).kids && p !in l.up && c !in l.up
      ensures forall i :: 0 <= i < |old(l).kids[p]| ==> old(l).kids[p][i] !in l.up
    {
      assert NodeOk(l, {c}, c);
      OffIsOnNoList(l, c);
      UnderSelf(l.parents, c.id);
      KidsGoToo(l, c, p);
      WithoutSubtreeOk(l, c);
      TreeIsClosed(WithoutSubtree(l, c), {});
      Drop(c);
    }

    /** c has been linked under p at place j. */
    ghost method RecordKid(p: PNode, c: PNode, j: nat)
      requires Tree(l, {c}) && p in l.up && c in l.up && OnNoList(l, c) && !Under(l.parents, p.id, c.id)
      requires p in l.kids && j <= |l.kids[p]| && LinkedBut(p, c, p, Inserted(l.kids[p], j, c))
      requires forall i :: 0 <= i < j ==> l.kids[p][i].id < c.id
      requires forall i :: j <= i < |l.kids[p]| ==> c.id <= l.kids[p][i].id
      modifies this`l
      ensures Valid() && l.parents == old(l).parents[c.id := Some(p.id)]
    {
      ghost var l0 := l;
      OffIsOnNoList(l, c);
      SlotFromIds(l, p, j, c);
      WithKidOk(l, p, j, c);
      Record(p, c, p, Inserted(l.kids[p], j, c));
      Rename(WithKid(l0, p, j, c).parents, WithKid(l0, p, j, c).depth);
    }

    /** c, which is on no list, becomes a child of p.  When that closes a cycle, nothing
        leads to c's subtree from the root list any more. */
    method PutUnder(p: PNode, c: PNode)
      requires Linked() && Tree(l, {c}) && p in l.up && c in l.up
      modifies this`l, l.up.Keys
      ensures Valid()
      ensures l.parents == if Under(old(l).parents, p.id, c.id) then old(l).parents - Subtree(old(l).parents, c.id)
                           else old(l).parents[c.id := Some(p.id)]
    {
      ghost var below := Under(l.parents, p.id, c.id);
      assert NodeOk(l, {c}, c) && NodeLinked(p);
      UnderSelf(l.parents, c.id);
      OffIsOnNoList(l, c);
      ListsApart(l, {c}, p);
      TreeIsClosed(l, {c});
      ghost var ks := l.kids[p];
      if below { DropBelow(p, c); }
      ghost var j := LinkPedge(p, c, ks);
      if !below { RecordKid(p, c, j); }
    }

    /** A new child goes under an existing parent. */
    method AdoptUnder(p: PNode, c: PNode)
      requires Valid() && p in l.up && c !in l.up && c.id !in l.parents && c.parent == null && c.children == null
      modifies this`l, l.up.Keys, c
      ensures Valid() && l.parents == old(l).parents[c.id := Some(p.id)]
    {
      AdoptedIsLeaf(l, p, c);
      ghost var parents := l.parents;
      Adopt(c);
      PutUnder(p, c);
      SetTwice(parents, c.id, None, Some(p.id));
    }

    /** An existing child moves to an existing parent that is not its parent yet. */
    method Reparent(p: PNode, c: PNode)
      requires Valid() && p in l.up && c in l.up && l.up[c] != p
      modifies this`l, this`rootlist, l.up.Keys
      ensures Valid() && l.parents == AddEdge(old(l).parents, p.id, c.id)
    {
      ghost var f := l.parents;
      ReparentMeans(l, p, c);
      TakeOut(c);
      PutUnder(p, c);
    }

    /** Both nodes are known; if c is already p's child there is nothing to do. */
    method MoveKnown(p: PNode, c: PNode)
      requires Valid() && p in l.up && c in l.up && c.parent == l.up[c]
      modifies this`l, this`rootlist, l.up.Keys
      ensures Valid() && l.parents == AddEdge(old(l).parents, p.id, c.id)
    {
      ParentIs(l, p, c);
      if c.parent == p {
        return;
      }
      Reparent(p, c);
    }

    /** In a valid forest a root's first child has another id, whatever the ghost links say. */
    lemma FirstChildDiffers()
      requires rootlist != null && rootlist.children != null
      ensures Valid() ==> rootlist.children.id != rootlist.id
    {
      if Valid() {
        assert NodeOk(l, {}, rootlist) && NodeLinked(rootlist);
        assert NodeOk(l, {}, rootlist.children);
      }
    }

    /** An unknown node that is its own parent gets two nodes, which no value of the ghost
        links could make valid. */
    method DuplicateId(p: PNode, c: PNode)
      requires Valid() && p in l.up && rootlist == p && p.children == null
      requires c !in l.up && c.id == p.id && c.children == null
      modifies p`children, c`parent, c`next
      ensures !Valid() && rootlist == p && p.children == c
    {
      assert NodeLinked(p);
      ghost var j := LinkEdge(p, c, []);
      FirstChildDiffers();
    }

    /** Neither node is known yet. */
    method AddBoth(pId: int, cId: int)
      requires Valid() && pId !in l.parents && cId !in l.parents
      modifies this`rootlist, this`l, l.up.Keys
      ensures Valid() <==> pId != cId
      ensures pId == cId ==>
                && rootlist != null && rootlist.id == pId && rootlist.children != null
                && rootlist.children != rootlist && rootlist.children.id == pId
      ensures pId != cId ==> l.parents == old(l).parents[pId := None][cId := Some(pId)]
    {
      var p := NewRoot(pId);
      var c := new PNode(cId);
      if pId != cId {
        AdoptUnder(p, c);
      } else {
        DuplicateId(p, c);
      }
    }

    method AddChild(p: PNode, cId: int)
      requires Valid() && p in l.up && cId !in l.parents
      modifies this`l, l.up.Keys
      ensures Valid() && l.parents == AddEdge(old(l).parents, p.id, cId)
    {
      assert NodeOk(l, {}, p);
      var c := new PNode(cId);
      NewChildMeans(l.parents, l.depth, p.id, cId);
      AdoptUnder(p, c);
    }

    method AddParent(pId: int, c: PNode)
      requires Valid() && pId !in l.parents && c in l.up
      modifies this`rootlist, this`l, l.up.Keys
      ensures Valid() && l.parents == AddEdge(old(l).parents, pId, c.id)
    {
      assert NodeOk(l, {}, c);
      NewParentMeans(l.parents, pId, c.id);
      var p := NewRoot(pId);
      Reparent(p, c);
    }

    /** The parent of c is now p: the forest becomes AddEdge of what it was.  The one
        exception is an edge from an unknown node to itself, which leaves two reachable
        nodes with the same id; then, and only then, the forest is no longer valid. */
    method AddPtreeEdge(pId: int, cId: int)
      requires Valid()
      modifies this, l.up.Keys
      ensures Valid() <==> pId != cId || pId in old(l).parents
      ensures pId == cId && pId !in old(l).parents ==>
                && rootlist != null && rootlist.id == pId && rootlist.children != null
                && rootlist.children != rootlist && rootlist.children.id == pId
      ensures pId != cId || pId in old(l).parents ==> l.parents == AddEdge(old(l).parents, pId, cId)
    {
      var p := FindForest(pId);
      var c := FindForest(cId);
      if p == null && c == null {
        AddBoth(pId, cId);
      } else if c == null {
        AddChild(p, cId);
      } else if p == null {
        AddParent(pId, c);
      } else {
        MoveKnown(p, c);
      }
    }
  }
}
