/**
 * What `buildCategoryTree` (src/lib/data-structures.ts) promises about the
 * shape of its result: with unique ids and a parent relation without cycles,
 * walking the returned roots and their children meets every input category
 * exactly once, and the settings list built from that forest by
 * `flattenTree` shows each category exactly once.
 *
 * Acyclicity is stated by a ranking: a map giving every id a rank below the
 * number of categories, each parent ranked below its child.  A parent
 * relation has such a ranking exactly when it has no cycle.
 */
module CategoryReach {

  import opened Wrappers
  import opened CategoryTree
  import opened CategoryList

  /** The parent of node `x` as the second pass sees it. */
  function Par(nodes: map<string, Node>, x: string): (p: Option<string>)
    requires x in nodes
    ensures p.Some? ==> p.value in nodes
  {
    ParentKey(nodes[x].category, nodes.Keys)
  }

  predicate RankedAt(nodes: map<string, Node>, rank: map<string, nat>, x: string)
    requires x in nodes
  {
    x in rank && (Par(nodes, x).Some? ==> Par(nodes, x).value in rank && rank[Par(nodes, x).value] < rank[x])
  }

  /** Every node has a rank, and a parent's rank is below its child's. */
  predicate Ranked(nodes: map<string, Node>, rank: map<string, nat>) {
    forall x :: x in nodes ==> RankedAt(nodes, rank, x)
  }

  /** Each node holds its own category, and its children are exactly the nodes whose parent it is, once each. */
  ghost predicate ChildrenExact(nodes: map<string, Node>) {
    && (forall x :: x in nodes ==> nodes[x].category.id == x && NoDup(nodes[x].children))
    && (forall x, c :: x in nodes ==> (c in nodes[x].children <==> c in nodes && Par(nodes, c) == Some(x)))
  }

  /** The roots are exactly the nodes without a parent, once each. */
  ghost predicate RootsExact(nodes: map<string, Node>, roots: seq<string>) {
    && NoDup(roots)
    && (forall r :: r in roots <==> r in nodes && Par(nodes, r) == None)
  }

  /** Every rank is below `n`. */
  predicate Below(nodes: map<string, Node>, rank: map<string, nat>, n: nat) {
    forall x :: x in nodes ==> x in rank && rank[x] < n
  }

  /** `z` is `y` or one of its ancestors. */
  predicate AncOrSelf(nodes: map<string, Node>, rank: map<string, nat>, z: string, y: string)
    requires y in nodes && Ranked(nodes, rank)
    decreases rank[y]
  {
    assert RankedAt(nodes, rank, y);
    y == z || (Par(nodes, y).Some? && AncOrSelf(nodes, rank, z, Par(nodes, y).value))
  }

  /** The ids met by walking `L` and, below each, its children, in order. */
  function Visit(nodes: map<string, Node>, rank: map<string, nat>, n: nat, L: seq<string>, above: int): seq<string>
    requires Ranked(nodes, rank) && ChildrenExact(nodes)
    requires Below(nodes, rank, n) && above < n
    requires forall y :: y in L ==> y in nodes && y in rank && above < rank[y]
    decreases n - above, |L|
  {
    if L == [] then []
    else
      var x := L[0];
      assert RankedAt(nodes, rank, x);
      assert forall c :: c in nodes[x].children ==> c in nodes && RankedAt(nodes, rank, c) && Par(nodes, c) == Some(x);
      [x] + Visit(nodes, rank, n, nodes[x].children, rank[x]) + Visit(nodes, rank, n, L[1..], above)
  }

  /** The `CategoryNode` forest the JavaScript objects form below the ids `L`. */
  function Objects(nodes: map<string, Node>, rank: map<string, nat>, n: nat, L: seq<string>, above: int): seq<TreeNode>
    requires Ranked(nodes, rank) && ChildrenExact(nodes)
    requires Below(nodes, rank, n) && above < n
    requires forall y :: y in L ==> y in nodes && y in rank && above < rank[y]
    decreases n - above, |L|
  {
    if L == [] then []
    else
      var x := L[0];
      assert RankedAt(nodes, rank, x);
      assert forall c :: c in nodes[x].children ==> c in nodes && RankedAt(nodes, rank, c) && Par(nodes, c) == Some(x);
      [TreeNode(nodes[x].category, Objects(nodes, rank, n, nodes[x].children, rank[x]), nodes[x].depth)]
      + Objects(nodes, rank, n, L[1..], above)
  }

  lemma AncRank(nodes: map<string, Node>, rank: map<string, nat>, z: string, y: string)
    requires y in nodes && Ranked(nodes, rank) && AncOrSelf(nodes, rank, z, y)
    ensures z in nodes && z in rank && rank[z] <= rank[y]
    decreases rank[y]
  {
    assert RankedAt(nodes, rank, y);
    if y != z {
      AncRank(nodes, rank, z, Par(nodes, y).value);
    }
  }

  /** A parent of an ancestor is an ancestor. */
  lemma {:induction false} AncUp(nodes: map<string, Node>, rank: map<string, nat>, c: string, x: string, y: string)
    requires y in nodes && c in nodes && Ranked(nodes, rank)
    requires Par(nodes, c) == Some(x) && AncOrSelf(nodes, rank, c, y)
    ensures AncOrSelf(nodes, rank, x, y)
    decreases rank[y]
  {
    assert RankedAt(nodes, rank, y);
    if y != c {
      AncUp(nodes, rank, c, x, Par(nodes, y).value);
    } else {
      assert RankedAt(nodes, rank, x);
    }
  }

  /** Below a strict ancestor `z` of `y` there is a child of `z` that is an ancestor of `y`. */
  lemma {:induction false} ChildOnPath(nodes: map<string, Node>, rank: map<string, nat>, z: string, y: string)
    returns (c: string)
    requires y in nodes && Ranked(nodes, rank) && AncOrSelf(nodes, rank, z, y) && y != z
    ensures c in nodes && Par(nodes, c) == Some(z) && AncOrSelf(nodes, rank, c, y)
    decreases rank[y]
  {
    assert RankedAt(nodes, rank, y);
    var p := Par(nodes, y).value;
    if p == z {
      c := y;
    } else {
      c := ChildOnPath(nodes, rank, z, p);
      assert AncOrSelf(nodes, rank, c, y);
    }
  }

  /** Two ancestors of the same node are ancestor one of the other. */
  lemma {:induction false} Chain(nodes: map<string, Node>, rank: map<string, nat>, a: string, b: string, y: string)
    requires y in nodes && Ranked(nodes, rank)
    requires AncOrSelf(nodes, rank, a, y) && AncOrSelf(nodes, rank, b, y)
    ensures a in nodes && b in nodes
    ensures AncOrSelf(nodes, rank, a, b) || AncOrSelf(nodes, rank, b, a)
    decreases rank[y]
  {
    assert RankedAt(nodes, rank, y);
    AncRank(nodes, rank, a, y);
    AncRank(nodes, rank, b, y);
    if y != a && y != b {
      Chain(nodes, rank, a, b, Par(nodes, y).value);
    }
  }

  /** A node is not a strict ancestor of a node with the same parent. */
  lemma Siblings(nodes: map<string, Node>, rank: map<string, nat>, a: string, b: string)
    requires a in nodes && b in nodes && Ranked(nodes, rank)
    requires Par(nodes, a) == Par(nodes, b) && AncOrSelf(nodes, rank, a, b)
    ensures a == b
  {
    assert RankedAt(nodes, rank, a);
    assert RankedAt(nodes, rank, b);
    if a != b {
      AncRank(nodes, rank, a, Par(nodes, b).value);
    }
  }

  /** Everything the walk meets lies below one of the starting ids. */
  lemma {:induction false} VisitSource(nodes: map<string, Node>, rank: map<string, nat>, n: nat, L: seq<string>, above: int, y: string)
    returns (z: string)
    requires Ranked(nodes, rank) && ChildrenExact(nodes)
    requires Below(nodes, rank, n) && above < n
    requires forall y :: y in L ==> y in nodes && y in rank && above < rank[y]
    requires y in Visit(nodes, rank, n, L, above)
    ensures y in nodes && z in L && AncOrSelf(nodes, rank, z, y)
    decreases n - above, |L|
  {
    var x := L[0];
    assert RankedAt(nodes, rank, x);
    var kids := nodes[x].children;
    assert forall c :: c in kids ==> c in nodes && RankedAt(nodes, rank, c) && Par(nodes, c) == Some(x);
    var below := Visit(nodes, rank, n, kids, rank[x]);
    if y == x {
      z := x;
    } else if y in below {
      var c := VisitSource(nodes, rank, n, kids, rank[x], y);
      AncUp(nodes, rank, c, x, y);
      z := x;
    } else {
      z := VisitSource(nodes, rank, n, L[1..], above, y);
    }
  }

  /** Everything below one of the starting ids is met by the walk. */
  lemma {:induction false} VisitReaches(nodes: map<string, Node>, rank: map<string, nat>, n: nat, L: seq<string>, above: int, z: string, y: string)
    requires Ranked(nodes, rank) && ChildrenExact(nodes)
    requires Below(nodes, rank, n) && above < n
    requires forall y :: y in L ==> y in nodes && y in rank && above < rank[y]
    requires y in nodes && z in L && AncOrSelf(nodes, rank, z, y)
    ensures y in Visit(nodes, rank, n, L, above)
    decreases n - above, |L|
  {
    var x := L[0];
    assert RankedAt(nodes, rank, x);
    var kids := nodes[x].children;
    assert forall c :: c in kids ==> c in nodes && RankedAt(nodes, rank, c) && Par(nodes, c) == Some(x);
    if z == x {
      if y != x {
        var c := ChildOnPath(nodes, rank, x, y);
        assert c in kids;
        VisitReaches(nodes, rank, n, kids, rank[x], c, y);
      }
    } else {
      assert z in L[1..];
      VisitReaches(nodes, rank, n, L[1..], above, z, y);
    }
  }

  lemma NoDupConcat(a: seq<string>, b: seq<string>)
    requires NoDup(a) && NoDup(b) && forall y :: y in a ==> y !in b
    ensures NoDup(a + b)
  {
    forall i, j | 0 <= i < j < |a + b|
      ensures (a + b)[i] != (a + b)[j]
    {
      if i < |a| && j >= |a| {
        assert (a + b)[i] in a && (a + b)[j] in b;
      }
    }
  }

  /** Walking siblings met once each meets every node at most once. */
  lemma {:induction false} VisitNoDup(nodes: map<string, Node>, rank: map<string, nat>, n: nat, L: seq<string>, above: int, q: Option<string>)
    requires Ranked(nodes, rank) && ChildrenExact(nodes)
    requires Below(nodes, rank, n) && above < n
    requires forall y :: y in L ==> y in nodes && y in rank && above < rank[y]
    requires NoDup(L) && forall y :: y in L ==> Par(nodes, y) == q
    ensures NoDup(Visit(nodes, rank, n, L, above))
    decreases n - above, |L|
  {
    if L != [] {
      var x := L[0];
      assert RankedAt(nodes, rank, x);
      var kids := nodes[x].children;
      assert forall c :: c in kids ==> c in nodes && RankedAt(nodes, rank, c) && Par(nodes, c) == Some(x);
      var below := Visit(nodes, rank, n, kids, rank[x]);
      var after := Visit(nodes, rank, n, L[1..], above);
      assert NoDup(L[1..]) by {
        forall i, j | 0 <= i < j < |L[1..]| ensures L[1..][i] != L[1..][j] {
          assert L[1..][i] == L[i + 1] && L[1..][j] == L[j + 1];
        }
      }
      VisitNoDup(nodes, rank, n, kids, rank[x], Some(x));
      VisitNoDup(nodes, rank, n, L[1..], above, q);
      forall y | y in [x] + below
        ensures y !in after
      {
        if y in after {
          var z := VisitSource(nodes, rank, n, L[1..], above, y);
          assert z != x by {
            assert L[1..] == L[1..|L|];
            var k :| 1 <= k < |L| && L[k] == z;
            assert L[0] != L[k];
          }
          if y in below {
            var c := VisitSource(nodes, rank, n, kids, rank[x], y);
            AncUp(nodes, rank, c, x, y);
          }
          assert AncOrSelf(nodes, rank, x, y);
          Chain(nodes, rank, x, z, y);
          if AncOrSelf(nodes, rank, x, z) {
            Siblings(nodes, rank, x, z);
          } else {
            Siblings(nodes, rank, z, x);
          }
        }
      }
      forall y | y in below
        ensures y != x
      {
        var c := VisitSource(nodes, rank, n, kids, rank[x], y);
        AncRank(nodes, rank, c, y);
      }
      NoDupConcat([x], below);
      NoDupConcat([x] + below, after);
    }
  }

  /** Every node lies below a root. */
  lemma {:induction false} Top(nodes: map<string, Node>, rank: map<string, nat>, roots: seq<string>, y: string)
    returns (r: string)
    requires y in nodes && Ranked(nodes, rank) && RootsExact(nodes, roots)
    ensures r in roots && AncOrSelf(nodes, rank, r, y)
    decreases rank[y]
  {
    assert RankedAt(nodes, rank, y);
    if Par(nodes, y).None? {
      r := y;
    } else {
      r := Top(nodes, rank, roots, Par(nodes, y).value);
    }
  }

  /** Flattening the object forest lists the ids in the order of the walk. */
  lemma {:induction false} FlattenObjects(nodes: map<string, Node>, rank: map<string, nat>, n: nat, L: seq<string>, above: int, depth: int)
    requires Ranked(nodes, rank) && ChildrenExact(nodes)
    requires Below(nodes, rank, n) && above < n
    requires forall y :: y in L ==> y in nodes && y in rank && above < rank[y]
    ensures Ids(Flatten(Objects(nodes, rank, n, L, above), depth)) == Visit(nodes, rank, n, L, above)
    decreases n - above, |L|
  {
    if L != [] {
      var x := L[0];
      assert RankedAt(nodes, rank, x);
      var kids := nodes[x].children;
      assert forall c :: c in kids ==> c in nodes && RankedAt(nodes, rank, c) && Par(nodes, c) == Some(x);
      var sub := Objects(nodes, rank, n, kids, rank[x]);
      var rest := Objects(nodes, rank, n, L[1..], above);
      var o := Objects(nodes, rank, n, L, above);
      var head := TreeNode(nodes[x].category, sub, nodes[x].depth);
      assert o == [head] + rest;
      FlattenObjects(nodes, rank, n, kids, rank[x], depth + 1);
      FlattenObjects(nodes, rank, n, L[1..], above, depth);
      IdsFlattenCons(head, rest, depth);
      assert Visit(nodes, rank, n, L, above)
          == [x] + Visit(nodes, rank, n, kids, rank[x]) + Visit(nodes, rank, n, L[1..], above);
    }
  }

  /** The input's ranking: every id ranked below the number of categories, each parent below its child. */
  predicate RankedCat(cats: seq<Category>, rank: map<string, nat>, i: nat)
    requires i < |cats|
  {
    var p := ParentKey(cats[i], IdSet(cats));
    && cats[i].id in rank && rank[cats[i].id] < |cats|
    && (p.Some? ==> p.value in rank && rank[p.value] < rank[cats[i].id])
  }

  predicate Acyclic(cats: seq<Category>, rank: map<string, nat>) {
    forall i :: 0 <= i < |cats| ==> RankedCat(cats, rank, i)
  }

  /** With unique ids, the node of each id holds the category with that id, and its parent is that category's. */
  lemma BuiltCategory(cats: seq<Category>, x: string)
    requires UniqueIds(cats) && x in Built(cats).nodes
    ensures var f := Built(cats);
            && f.nodes.Keys == IdSet(cats)
            && f.nodes[x].category == cats[IndexOf(cats, x)]
            && Par(f.nodes, x) == ParentKey(cats[IndexOf(cats, x)], IdSet(cats))
  {
    BuiltShape(cats);
    InitMapUnique(cats);
  }

  lemma BuiltRanked(cats: seq<Category>, rank: map<string, nat>)
    requires UniqueIds(cats) && Acyclic(cats, rank)
    ensures Ranked(Built(cats).nodes, rank) && Below(Built(cats).nodes, rank, |cats|)
  {
    var f := Built(cats);
    forall x | x in f.nodes
      ensures RankedAt(f.nodes, rank, x) && x in rank && rank[x] < |cats|
    {
      BuiltCategory(cats, x);
      assert RankedCat(cats, rank, IndexOf(cats, x));
    }
  }

  lemma BuiltChildAt(cats: seq<Category>, x: string, c: string)
    requires UniqueIds(cats) && x in Built(cats).nodes
    ensures var f := Built(cats);
            c in f.nodes[x].children <==> c in f.nodes && Par(f.nodes, c) == Some(x)
  {
    var f := Built(cats);
    var ids := IdSet(cats);
    BuiltShape(cats);
    var kids := Under(cats, ids, Some(x));
    assert f.nodes[x].children == kids;
    UnderExact(cats, ids, Some(x));
    UnderFromList(cats, ids, Some(x));
    if c in kids {
      BuiltCategory(cats, c);
    } else if c in f.nodes {
      BuiltCategory(cats, c);
    }
  }

  lemma BuiltNodeAt(cats: seq<Category>, x: string)
    requires UniqueIds(cats) && x in Built(cats).nodes
    ensures Built(cats).nodes[x].category.id == x && NoDup(Built(cats).nodes[x].children)
  {
    BuiltShape(cats);
    BuiltCategory(cats, x);
    UnderExact(cats, IdSet(cats), Some(x));
  }

  lemma BuiltChildLinks(cats: seq<Category>)
    requires UniqueIds(cats)
    ensures var nodes := Built(cats).nodes;
            forall x, c :: x in nodes ==> (c in nodes[x].children <==> c in nodes && Par(nodes, c) == Some(x))
  {
    forall x, c | x in Built(cats).nodes
      ensures c in Built(cats).nodes[x].children <==> c in Built(cats).nodes && Par(Built(cats).nodes, c) == Some(x)
    {
      BuiltChildAt(cats, x, c);
    }
  }

  lemma BuiltChildren(cats: seq<Category>)
    requires UniqueIds(cats)
    ensures ChildrenExact(Built(cats).nodes)
  {
    var nodes := Built(cats).nodes;
    forall x | x in nodes
      ensures nodes[x].category.id == x && NoDup(nodes[x].children)
    {
      BuiltNodeAt(cats, x);
    }
    BuiltChildLinks(cats);
  }

  lemma BuiltRoots(cats: seq<Category>)
    requires UniqueIds(cats)
    ensures RootsExact(Built(cats).nodes, Built(cats).roots)
  {
    var f := Built(cats);
    var ids := IdSet(cats);
    BuiltShape(cats);
    UnderExact(cats, ids, None);
    UnderFromList(cats, ids, None);
    forall r
      ensures r in f.roots <==> r in f.nodes && Par(f.nodes, r) == None
    {
      if r in f.nodes {
        BuiltCategory(cats, r);
      }
    }
  }

  /**
   * With unique ids and no cycle, walking the returned roots meets each input
   * category exactly once, and the list `flattenTree` makes of the returned
   * forest shows each of them exactly once, in the order of that walk.
   */
  lemma ReachedExactlyOnce(cats: seq<Category>, rank: map<string, nat>)
    requires UniqueIds(cats) && Acyclic(cats, rank)
    ensures var f := Built(cats);
            && Ranked(f.nodes, rank) && ChildrenExact(f.nodes) && Below(f.nodes, rank, |cats|)
            && (forall y :: y in f.roots ==> y in f.nodes && y in rank)
            && var walk := Visit(f.nodes, rank, |cats|, f.roots, -1);
               && NoDup(walk)
               && (forall y :: y in walk <==> y in IdSet(cats))
               && Ids(Flatten(Objects(f.nodes, rank, |cats|, f.roots, -1), 0)) == walk
  {
    var f := Built(cats);
    BuiltShape(cats);
    BuiltRanked(cats, rank);
    BuiltChildren(cats);
    BuiltRoots(cats);
    var walk := Visit(f.nodes, rank, |cats|, f.roots, -1);
    VisitNoDup(f.nodes, rank, |cats|, f.roots, -1, None);
    forall y
      ensures y in walk <==> y in IdSet(cats)
    {
      if y in walk {
        var z := VisitSource(f.nodes, rank, |cats|, f.roots, -1, y);
      }
      if y in IdSet(cats) {
        var r := Top(f.nodes, rank, f.roots, y);
        VisitReaches(f.nodes, rank, |cats|, f.roots, -1, r, y);
      }
    }
    FlattenObjects(f.nodes, rank, |cats|, f.roots, -1, 0);
  }
}
