/**
 * `buildCategoryTree` (src/lib/data-structures.ts): a flat list of budget
 * categories becomes a forest.  A first pass binds every id to a fresh node;
 * a second pass links each category under its parent, when the parent is in
 * the list, and otherwise makes it a root.
 *
 * The JavaScript nodes are shared objects: the node stored in the map is the
 * one pushed onto its parent's `children`, so a later change of its depth is
 * seen through every reference.  The model keeps that sharing by storing the
 * nodes in a map from id to node (the map the source itself builds) and
 * letting `children` and the roots hold ids.
 */
module CategoryTree {

  import opened Wrappers

  /** A row of the categories table (`CategoryNode` without `children` and `depth`). */
  datatype Category = Category(id: string, name: string, color: string, parentId: Option<string>)

  /** A node of the forest: the category, the ids of its children, its depth. */
  datatype Node = Node(category: Category, children: seq<string>, depth: int)

  /** The node map and the ids of the roots, in order. */
  datatype Forest = Forest(nodes: map<string, Node>, roots: seq<string>)

  /** The ids occurring in the list. */
  function IdSet(cats: seq<Category>): (ids: set<string>)
    ensures forall i :: 0 <= i < |cats| ==> cats[i].id in ids
  {
    set i | 0 <= i < |cats| :: cats[i].id
  }

  lemma IdSetSnoc(cats: seq<Category>)
    requires cats != []
    ensures IdSet(cats) == IdSet(cats[..|cats| - 1]) + {cats[|cats| - 1].id}
  {
    var init := cats[..|cats| - 1];
    forall x | x in IdSet(cats)
      ensures x in IdSet(init) + {cats[|cats| - 1].id}
    {
      var i :| 0 <= i < |cats| && cats[i].id == x;
      if i < |cats| - 1 {
        assert init[i] == cats[i];
      }
    }
    forall x | x in IdSet(init)
      ensures x in IdSet(cats)
    {
      var i :| 0 <= i < |init| && init[i].id == x;
      assert cats[i] == init[i];
    }
  }

  predicate UniqueIds(cats: seq<Category>) {
    forall i, j :: 0 <= i < j < |cats| ==> cats[i].id != cats[j].id
  }

  /**
   * The first pass, `map.set(cat.id, { ...cat, children: [], depth: 0 })`:
   * every id is bound to a fresh node of the last category carrying it.
   */
  function InitMap(cats: seq<Category>): (m: map<string, Node>)
    ensures m.Keys == IdSet(cats)
    ensures forall x :: x in m ==> m[x].children == [] && m[x].depth == 0 && m[x].category.id == x
  {
    if cats == [] then map[]
    else
      var last := cats[|cats| - 1];
      IdSetSnoc(cats);
      InitMap(cats[..|cats| - 1])[last.id := Node(last, [], 0)]
  }

  /**
   * `cat.parent_id && map.has(cat.parent_id)`: the id the category is linked
   * under.  A null, empty or unknown parent id makes the category a root.
   */
  function ParentKey(c: Category, ids: set<string>): (p: Option<string>)
    ensures p.Some? <==> c.parentId.Some? && c.parentId.value != "" && c.parentId.value in ids
    ensures p.Some? ==> p == c.parentId
  {
    if c.parentId.Some? && c.parentId.value != "" && c.parentId.value in ids then c.parentId else None
  }

  /**
   * One step of the second pass: with a parent, the node's depth becomes the
   * parent's current depth plus one and its id is pushed onto the parent's
   * children; without one, its id is pushed onto the roots.
   */
  function Link(f: Forest, c: Category): (g: Forest)
    ensures g.nodes.Keys == f.nodes.Keys
  {
    if c.id !in f.nodes then f
    else if c.parentId.Some? && c.parentId.value != "" && c.parentId.value in f.nodes then
      var p := c.parentId.value;
      var nodes := f.nodes[c.id := f.nodes[c.id].(depth := f.nodes[p].depth + 1)];
      Forest(nodes[p := nodes[p].(children := nodes[p].children + [c.id])], f.roots)
    else
      Forest(f.nodes, f.roots + [c.id])
  }

  /** The forest after the second pass has handled the first `k` categories. */
  function Linked(init: map<string, Node>, cats: seq<Category>, k: nat): (f: Forest)
    requires k <= |cats|
    ensures f.nodes.Keys == init.Keys
  {
    if k == 0 then Forest(init, []) else Link(Linked(init, cats, k - 1), cats[k - 1])
  }

  lemma LinkUnder(f: Forest, c: Category, p: string, n1: map<string, Node>)
    requires c.id in f.nodes && c.parentId == Some(p) && p != "" && p in f.nodes
    requires n1 == f.nodes[c.id := f.nodes[c.id].(depth := f.nodes[p].depth + 1)]
    ensures Link(f, c) == Forest(n1[p := n1[p].(children := n1[p].children + [c.id])], f.roots)
  {}

  /** What `buildCategoryTree` builds: the node map and the roots. */
  function Built(cats: seq<Category>): (f: Forest)
    ensures f.nodes.Keys == IdSet(cats)
  {
    Linked(InitMap(cats), cats, |cats|)
  }

  /** `buildCategoryTree`: the two passes. */
  method BuildCategoryTree(cats: seq<Category>) returns (nodes: map<string, Node>, roots: seq<string>)
    ensures Forest(nodes, roots) == Built(cats)
  {
    nodes := InitNodes(cats);
    nodes, roots := LinkNodes(cats, nodes);
  }

  /** The first pass: bind every id to a fresh node. */
  method InitNodes(cats: seq<Category>) returns (nodes: map<string, Node>)
    ensures nodes == InitMap(cats)
  {
    nodes := map[];
    var i := 0;
    while i < |cats|
      invariant 0 <= i <= |cats|
      invariant nodes == InitMap(cats[..i])
    {
      assert cats[..i + 1][..i] == cats[..i];
      nodes := nodes[cats[i].id := Node(cats[i], [], 0)];
      i := i + 1;
    }
    assert cats[..|cats|] == cats;
  }

  /** The second pass: link every category under its parent or make it a root. */
  method LinkNodes(cats: seq<Category>, init: map<string, Node>) returns (nodes: map<string, Node>, roots: seq<string>)
    requires forall i :: 0 <= i < |cats| ==> cats[i].id in init
    ensures Forest(nodes, roots) == Linked(init, cats, |cats|)
  {
    nodes, roots := init, [];
    var j := 0;
    while j < |cats|
      invariant 0 <= j <= |cats|
      invariant nodes.Keys == init.Keys
      invariant Forest(nodes, roots) == Linked(init, cats, j)
    {
      var cat := cats[j];
      ghost var before := Forest(nodes, roots);
      var node := nodes[cat.id];
      if cat.parentId.Some? && cat.parentId.value != "" && cat.parentId.value in nodes {
        var p := cat.parentId.value;
        node := node.(depth := nodes[p].depth + 1);
        nodes := nodes[cat.id := node];
        LinkUnder(before, cat, p, nodes);
        nodes := nodes[p := nodes[p].(children := nodes[p].children + [cat.id])];
      } else {
        roots := roots + [cat.id];
      }
      assert Linked(init, cats, j + 1) == Link(before, cat);
      j := j + 1;
    }
  }

  /**
   * The ids of the categories whose parent key is `q`, in input order: the
   * roots for `None`, the children of `p` for `Some(p)`.
   */
  function Under(cats: seq<Category>, ids: set<string>, q: Option<string>): seq<string> {
    if cats == [] then []
    else
      var last := cats[|cats| - 1];
      Under(cats[..|cats| - 1], ids, q) + (if ParentKey(last, ids) == q then [last.id] else [])
  }

  predicate NoDup(s: seq<string>) {
    forall i, j :: 0 <= i < j < |s| ==> s[i] != s[j]
  }

  /** Only ids of the list are placed anywhere. */
  lemma {:induction false} UnderFromList(cats: seq<Category>, ids: set<string>, q: Option<string>)
    ensures forall y :: y in Under(cats, ids, q) ==> y in IdSet(cats)
  {
    if cats != [] {
      UnderFromList(cats[..|cats| - 1], ids, q);
      IdSetSnoc(cats);
    }
  }

  /**
   * With unique ids, a category is placed under `q` exactly when its parent
   * key is `q`, and no id is placed twice.
   */
  lemma {:induction false} UnderExact(cats: seq<Category>, ids: set<string>, q: Option<string>)
    requires UniqueIds(cats)
    ensures forall i :: 0 <= i < |cats| ==> (cats[i].id in Under(cats, ids, q) <==> ParentKey(cats[i], ids) == q)
    ensures NoDup(Under(cats, ids, q))
  {
    if cats != [] {
      var n := |cats| - 1;
      var init := cats[..n];
      var last := cats[n];
      assert UniqueIds(init);
      UnderExact(init, ids, q);
      UnderFromList(init, ids, q);
      assert last.id !in IdSet(init);
      var r := Under(cats, ids, q);
      forall i | 0 <= i < |cats|
        ensures cats[i].id in r <==> ParentKey(cats[i], ids) == q
      {
        if i < n {
          assert init[i] == cats[i];
        }
      }
    }
  }

  /** Placing one more category extends the placement of the ones before. */
  lemma UnderSnoc(cats: seq<Category>, ids: set<string>, q: Option<string>, k: nat)
    requires 0 < k <= |cats|
    ensures Under(cats[..k], ids, q)
         == Under(cats[..k - 1], ids, q) + (if ParentKey(cats[k - 1], ids) == q then [cats[k - 1].id] else [])
  {
    var pre := cats[..k];
    assert pre[..k - 1] == cats[..k - 1];
  }

  /**
   * After the second pass has handled `k` categories, the roots are those of
   * them without a parent and each node's children are those linked under it,
   * both in input order; the categories stored in the nodes are untouched.
   */
  lemma {:induction false} LinkedShape(cats: seq<Category>, k: nat)
    requires k <= |cats|
    ensures var f := Linked(InitMap(cats), cats, k);
            && f.roots == Under(cats[..k], IdSet(cats), None)
            && forall x :: x in f.nodes ==>
                 f.nodes[x].children == Under(cats[..k], IdSet(cats), Some(x))
                 && f.nodes[x].category == InitMap(cats)[x].category
  {
    var init := InitMap(cats);
    var ids := IdSet(cats);
    if k == 0 {
      assert cats[..0] == [];
    } else {
      LinkedShape(cats, k - 1);
      var f := Linked(init, cats, k - 1);
      var c := cats[k - 1];
      assert f.nodes.Keys == ids;
      var g := Link(f, c);
      assert Linked(init, cats, k) == g;
      UnderSnoc(cats, ids, None, k);
      forall x | x in g.nodes
        ensures g.nodes[x].children == Under(cats[..k], ids, Some(x))
        ensures g.nodes[x].category == init[x].category
      {
        UnderSnoc(cats, ids, Some(x), k);
      }
    }
  }

  /** The built forest, as the input determines it. */
  lemma BuiltShape(cats: seq<Category>)
    ensures Built(cats).nodes.Keys == IdSet(cats)
    ensures Built(cats).roots == Under(cats, IdSet(cats), None)
    ensures forall x :: x in Built(cats).nodes ==>
              Built(cats).nodes[x].children == Under(cats, IdSet(cats), Some(x))
              && Built(cats).nodes[x].category == InitMap(cats)[x].category
  {
    LinkedShape(cats, |cats|);
    assert cats[..|cats|] == cats;
  }

  /** With unique ids, each id's node holds that id's category. */
  lemma {:induction false} InitMapUnique(cats: seq<Category>)
    requires UniqueIds(cats)
    ensures forall i :: 0 <= i < |cats| ==> InitMap(cats)[cats[i].id].category == cats[i]
  {
    if cats != [] {
      var init := cats[..|cats| - 1];
      InitMapUnique(init);
      forall i | 0 <= i < |cats|
        ensures InitMap(cats)[cats[i].id].category == cats[i]
      {
        if i < |cats| - 1 {
          assert init[i] == cats[i];
        }
      }
    }
  }

  /**
   * Where each category ends up, with unique ids: a category with a parent in
   * the list is among that parent's children and not among the roots; one
   * without is among the roots.
   */
  lemma Placement(cats: seq<Category>, i: nat)
    requires i < |cats| && UniqueIds(cats)
    ensures var f := Built(cats);
            var p := ParentKey(cats[i], IdSet(cats));
            && (p.Some? ==> p.value in f.nodes && cats[i].id in f.nodes[p.value].children && cats[i].id !in f.roots)
            && (p.None? ==> cats[i].id in f.roots)
  {
    BuiltShape(cats);
    UnderExact(cats, IdSet(cats), None);
    var p := ParentKey(cats[i], IdSet(cats));
    if p.Some? {
      UnderExact(cats, IdSet(cats), p);
    }
  }

  /** The first position holding id `x`. */
  function IndexOf(cats: seq<Category>, x: string): (i: nat)
    requires x in IdSet(cats)
    ensures i < |cats| && cats[i].id == x
    ensures forall j :: 0 <= j < i ==> cats[j].id != x
  {
    if cats[0].id == x then 0
    else
      assert x in IdSet(cats[1..]) by {
        var k :| 0 <= k < |cats| && cats[k].id == x;
        assert cats[1..][k - 1] == cats[k];
      }
      1 + IndexOf(cats[1..], x)
  }

  /** The parent of `cats[i]`, when it has one in the list, comes before it. */
  predicate ParentBefore(cats: seq<Category>, i: nat)
    requires i < |cats|
  {
    ParentKey(cats[i], IdSet(cats)).Some? ==> IndexOf(cats, ParentKey(cats[i], IdSet(cats)).value) < i
  }

  predicate ParentsFirst(cats: seq<Category>) {
    forall i :: 0 <= i < |cats| ==> ParentBefore(cats, i)
  }

  /** The depth of `cats[i]` in the parent relation: the number of links up to its root. */
  function TrueDepth(cats: seq<Category>, i: nat): nat
    requires i < |cats| && ParentsFirst(cats)
    decreases i
  {
    match ParentKey(cats[i], IdSet(cats))
    case None => 0
    case Some(p) =>
      assert ParentBefore(cats, i);
      TrueDepth(cats, IndexOf(cats, p)) + 1
  }

  /** One linking step changes the depth of the linked node only. */
  lemma LinkDepth(f: Forest, c: Category, x: string)
    requires c.id in f.nodes && x in f.nodes
    ensures Link(f, c).nodes.Keys == f.nodes.Keys
    ensures x != c.id ==> Link(f, c).nodes[x].depth == f.nodes[x].depth
    ensures x == c.id ==>
              Link(f, c).nodes[x].depth ==
                match ParentKey(c, f.nodes.Keys)
                case Some(p) => f.nodes[p].depth + 1
                case None => f.nodes[x].depth
  {
  }

  /** The depth of a category whose parent is `cats[j]`. */
  lemma TrueDepthOfChild(cats: seq<Category>, i: nat) returns (j: nat)
    requires i < |cats| && ParentsFirst(cats) && ParentKey(cats[i], IdSet(cats)).Some?
    ensures j < i && cats[j].id == ParentKey(cats[i], IdSet(cats)).value
    ensures TrueDepth(cats, i) == TrueDepth(cats, j) + 1
  {
    assert ParentBefore(cats, i);
    j := IndexOf(cats, ParentKey(cats[i], IdSet(cats)).value);
  }

  /** The depths after `k` linking steps, when parents come first. */
  predicate DepthsAfter(cats: seq<Category>, f: Forest, k: nat)
    requires k <= |cats| && ParentsFirst(cats)
  {
    forall i :: 0 <= i < |cats| ==>
      cats[i].id in f.nodes && f.nodes[cats[i].id].depth == if i < k then TrueDepth(cats, i) else 0
  }

  /** One linking step gives `cats[k]` its depth and leaves the others alone. */
  lemma DepthStep(cats: seq<Category>, f: Forest, k: nat)
    requires k < |cats| && UniqueIds(cats) && ParentsFirst(cats)
    requires f.nodes.Keys == IdSet(cats) && DepthsAfter(cats, f, k)
    ensures DepthsAfter(cats, Link(f, cats[k]), k + 1)
  {
    var g := Link(f, cats[k]);
    forall i | 0 <= i < |cats|
      ensures cats[i].id in g.nodes && g.nodes[cats[i].id].depth == if i < k + 1 then TrueDepth(cats, i) else 0
    {
      DepthStepAt(cats, f, k, i);
    }
  }

  /** The same step, seen from one category `cats[i]`. */
  lemma DepthStepAt(cats: seq<Category>, f: Forest, k: nat, i: nat)
    requires k < |cats| && i < |cats| && UniqueIds(cats) && ParentsFirst(cats)
    requires f.nodes.Keys == IdSet(cats) && DepthsAfter(cats, f, k)
    ensures cats[i].id in Link(f, cats[k]).nodes
    ensures Link(f, cats[k]).nodes[cats[i].id].depth == if i < k + 1 then TrueDepth(cats, i) else 0
  {
    var c := cats[k];
    LinkDepth(f, c, cats[i].id);
    if i == k {
      if ParentKey(c, IdSet(cats)).Some? {
        var j := TrueDepthOfChild(cats, k);
        assert f.nodes[cats[j].id].depth == TrueDepth(cats, j);
      } else {
        assert TrueDepth(cats, k) == 0;
      }
    } else {
      assert cats[i].id != c.id;
      assert f.nodes[cats[i].id].depth == if i < k then TrueDepth(cats, i) else 0;
    }
  }

  /**
   * When ids are unique and every parent precedes its children, the depth
   * each node gets is its depth in the tree.  After `k` steps, the first `k`
   * categories have their depth and the others still have 0.
   */
  lemma {:induction false} LinkedDepth(cats: seq<Category>, k: nat)
    requires k <= |cats| && UniqueIds(cats) && ParentsFirst(cats)
    ensures DepthsAfter(cats, Linked(InitMap(cats), cats, k), k)
  {
    var init := InitMap(cats);
    if k == 0 {
      assert Linked(init, cats, 0).nodes == init;
      forall i | 0 <= i < |cats|
        ensures cats[i].id in init && init[cats[i].id].depth == 0
      {
      }
    } else {
      var f := Linked(init, cats, k - 1);
      LinkedDepth(cats, k - 1);
      assert f.nodes.Keys == IdSet(cats);
      DepthStep(cats, f, k - 1);
      assert Linked(init, cats, k) == Link(f, cats[k - 1]);
    }
  }

  lemma BuiltDepth(cats: seq<Category>, i: nat)
    requires i < |cats| && UniqueIds(cats) && ParentsFirst(cats)
    ensures Built(cats).nodes[cats[i].id].depth == TrueDepth(cats, i)
  {
    LinkedDepth(cats, |cats|);
  }

  /** Three linking steps from the fresh nodes. */
  lemma LinkedThree(m: map<string, Node>, x: Category, y: Category, z: Category)
    ensures Linked(m, [x, y, z], 3) == Link(Link(Link(Forest(m, []), x), y), z)
  {
    var cats := [x, y, z];
    assert Linked(m, cats, 1) == Link(Forest(m, []), x);
    assert Linked(m, cats, 2) == Link(Linked(m, cats, 1), y);
  }

  /** Linking a category under a known parent, seen from the nodes it touches. */
  lemma LinkChild(f: Forest, c: Category, p: string)
    requires c.id in f.nodes && p in f.nodes && c.id != p
    requires c.parentId == Some(p) && p != ""
    ensures var g := Link(f, c);
            && g.nodes.Keys == f.nodes.Keys && g.roots == f.roots
            && g.nodes[c.id].depth == f.nodes[p].depth + 1
            && g.nodes[c.id].children == f.nodes[c.id].children
            && g.nodes[p].children == f.nodes[p].children + [c.id]
            && forall x :: x in f.nodes && x != c.id && x != p ==> g.nodes[x] == f.nodes[x]
  {
  }

  /** Linking a category without a known parent only appends it to the roots. */
  lemma LinkRoot(f: Forest, c: Category)
    requires c.id in f.nodes && ParentKey(c, f.nodes.Keys).None?
    ensures Link(f, c) == Forest(f.nodes, f.roots + [c.id])
  {
  }

  /** Fresh nodes for `a`, `b` and `c`: no children, depth 0. */
  predicate FreshThree(m: map<string, Node>, a: Category, b: Category, c: Category) {
    && m.Keys == {a.id, b.id, c.id}
    && forall x :: x in m ==> m[x].children == [] && m[x].depth == 0
  }

  lemma InitThree(a: Category, b: Category, c: Category)
    ensures FreshThree(InitMap([a, b, c]), a, b, c)
  {
    var cats := [a, b, c];
    assert cats[0].id == a.id && cats[1].id == b.id && cats[2].id == c.id;
  }

  /** A chain `a` ← `b` ← `c` listed parents first: `c` gets depth 2. */
  lemma ChainParentsFirst(a: Category, b: Category, c: Category)
    requires a.id != b.id && b.id != c.id && a.id != c.id
    requires a.parentId == None && b.parentId == Some(a.id) && c.parentId == Some(b.id)
    requires a.id != "" && b.id != ""
    ensures c.id in Built([a, b, c]).nodes && Built([a, b, c]).nodes[c.id].depth == 2
  {
    var m := InitMap([a, b, c]);
    InitThree(a, b, c);
    LinkedThree(m, a, b, c);
    ParentsFirstLinks(m, a, b, c);
  }

  lemma ParentsFirstLinks(m: map<string, Node>, a: Category, b: Category, c: Category)
    requires a.id != b.id && b.id != c.id && a.id != c.id
    requires a.parentId == None && b.parentId == Some(a.id) && c.parentId == Some(b.id)
    requires a.id != "" && b.id != "" && FreshThree(m, a, b, c)
    ensures var f := Link(Link(Link(Forest(m, []), a), b), c);
            c.id in f.nodes && f.nodes[c.id].depth == 2
  {
    var f1 := Link(Forest(m, []), a);
    LinkRoot(Forest(m, []), a);
    assert f1.nodes[a.id].depth == 0;
    var f2 := Link(f1, b);
    LinkChild(f1, b, a.id);
    assert f2.nodes[b.id].depth == 1;
    LinkChild(f2, c, b.id);
  }

  /**
   * The same chain listed children first: `c` is linked while `b` still has
   * depth 0, and keeps depth 1 although it sits two levels below its root.
   */
  lemma ChainChildrenFirst(a: Category, b: Category, c: Category)
    requires a.id != b.id && b.id != c.id && a.id != c.id
    requires a.parentId == None && b.parentId == Some(a.id) && c.parentId == Some(b.id)
    requires a.id != "" && b.id != ""
    ensures var f := Built([c, b, a]);
            && a.id in f.nodes && b.id in f.nodes && c.id in f.nodes
            && f.nodes[c.id].depth == 1
            && f.nodes[b.id].children == [c.id] && f.nodes[a.id].children == [b.id]
            && f.roots == [a.id]
  {
    var m := InitMap([c, b, a]);
    InitThree(c, b, a);
    LinkedThree(m, c, b, a);
    ChildrenFirstLinks(m, a, b, c);
  }

  lemma ChildrenFirstLinks(m: map<string, Node>, a: Category, b: Category, c: Category)
    requires a.id != b.id && b.id != c.id && a.id != c.id
    requires a.parentId == None && b.parentId == Some(a.id) && c.parentId == Some(b.id)
    requires a.id != "" && b.id != "" && FreshThree(m, c, b, a)
    ensures var f := Link(Link(Link(Forest(m, []), c), b), a);
            && a.id in f.nodes && b.id in f.nodes && c.id in f.nodes
            && f.nodes[c.id].depth == 1
            && f.nodes[b.id].children == [c.id] && f.nodes[a.id].children == [b.id]
            && f.roots == [a.id]
  {
    var f0 := Forest(m, []);
    var f1 := Link(f0, c);
    LinkChild(f0, c, b.id);
    assert f1.nodes[a.id].children == [];
    var f2 := Link(f1, b);
    LinkChild(f1, b, a.id);
    assert f2.nodes[c.id] == f1.nodes[c.id];
    assert f2.roots == [];
    LinkRoot(f2, a);
  }
}
