/**
 * The category settings list (src/components/settings/category-list.tsx):
 * the forest is flattened into one sortable list with an indentation depth,
 * and a drag-and-drop move reorders that list optimistically and sends every
 * item's new position to the server as its rank.
 */
module CategoryList {

  import opened Wrappers
  import opened CategoryTree

  /** A category with its subtrees and its display depth (`CategoryNode` of the list). */
  datatype TreeNode = TreeNode(category: Category, children: seq<TreeNode>, depth: int)

  /** The rank update sent for one item. */
  datatype RankUpdate = RankUpdate(id: string, rank: nat)

  /** The number of nodes in a forest. */
  function Size(nodes: seq<TreeNode>): nat {
    if nodes == [] then 0 else 1 + Size(nodes[0].children) + Size(nodes[1..])
  }

  /**
   * `flattenTree(nodes, depth)`: each node, with its depth replaced, followed
   * by its flattened children one level deeper, for each node in turn (the
   * `reduce` concatenates in order).  A flattened node keeps its children.
   */
  function Flatten(nodes: seq<TreeNode>, depth: int): (r: seq<TreeNode>)
    ensures |r| >= |nodes|
    ensures nodes != [] ==> r[0] == nodes[0].(depth := depth)
  {
    if nodes == [] then []
    else [nodes[0].(depth := depth)] + Flatten(nodes[0].children, depth + 1) + Flatten(nodes[1..], depth)
  }

  function Ids(items: seq<TreeNode>): (r: seq<string>)
    ensures |r| == |items|
    ensures forall i :: 0 <= i < |items| ==> r[i] == items[i].category.id
  {
    seq(|items|, i requires 0 <= i < |items| => items[i].category.id)
  }

  /** The flattened list has one entry per node of the forest. */
  lemma {:induction false} FlattenLength(nodes: seq<TreeNode>, depth: int)
    ensures |Flatten(nodes, depth)| == Size(nodes)
  {
    if nodes != [] {
      FlattenLength(nodes[0].children, depth + 1);
      FlattenLength(nodes[1..], depth);
    }
  }

  /** Flattening a concatenation flattens each part in turn: the traversal is in input order. */
  lemma {:induction false} FlattenAppend(a: seq<TreeNode>, b: seq<TreeNode>, depth: int)
    ensures Flatten(a + b, depth) == Flatten(a, depth) + Flatten(b, depth)
  {
    if a == [] {
      assert a + b == b;
    } else {
      assert (a + b)[0] == a[0];
      assert (a + b)[1..] == a[1..] + b;
      FlattenAppend(a[1..], b, depth);
    }
  }

  /** The ids of a flattened forest: the first node's id, its subtree's ids, then the rest's. */
  lemma IdsFlattenCons(head: TreeNode, rest: seq<TreeNode>, depth: int)
    ensures Ids(Flatten([head] + rest, depth))
         == [head.category.id] + Ids(Flatten(head.children, depth + 1)) + Ids(Flatten(rest, depth))
  {
    var a := [head.(depth := depth)];
    var b := Flatten(head.children, depth + 1);
    var c := Flatten(rest, depth);
    assert ([head] + rest)[0] == head && ([head] + rest)[1..] == rest;
    assert Flatten([head] + rest, depth) == a + b + c;
    assert Ids(a) == [head.category.id];
    IdsConcat(a + b, c);
    IdsConcat(a, b);
  }

  /**
   * Depths of an outline: the first item is at `depth`, no item is above it,
   * and each item is at most one level deeper than the one before.
   */
  predicate Outline(items: seq<TreeNode>, depth: int) {
    && (items != [] ==> items[0].depth == depth)
    && (forall i :: 0 <= i < |items| ==> items[i].depth >= depth)
    && (forall i :: 0 < i < |items| ==> items[i].depth <= items[i - 1].depth + 1)
  }

  /**
   * The flattened forest is an outline: top-level nodes at `depth`, and a
   * node's subtree directly under it, one level deeper.
   */
  lemma {:induction false} FlattenIsOutline(nodes: seq<TreeNode>, depth: int)
    ensures Outline(Flatten(nodes, depth), depth)
  {
    if nodes != [] {
      var head := [nodes[0].(depth := depth)];
      var sub := Flatten(nodes[0].children, depth + 1);
      var rest := Flatten(nodes[1..], depth);
      FlattenIsOutline(nodes[0].children, depth + 1);
      FlattenIsOutline(nodes[1..], depth);
      var r := head + sub + rest;
      assert r == Flatten(nodes, depth);
      forall i | 0 < i < |r|
        ensures r[i].depth <= r[i - 1].depth + 1
      {
        if i < 1 + |sub| {
          assert r[i] == sub[i - 1];
          if i > 1 {
            assert r[i - 1] == sub[i - 2];
          }
        } else {
          assert r[i] == rest[i - 1 - |sub|];
          if i > 1 + |sub| {
            assert r[i - 1] == rest[i - 2 - |sub|];
          } else if |sub| > 0 {
            assert r[i - 1] == sub[|sub| - 1];
          }
        }
      }
    }
  }

  /** The entries of a list that sit at depth `d`, in list order. */
  function AtDepth(items: seq<TreeNode>, d: int): seq<TreeNode> {
    if items == [] then []
    else (if items[0].depth == d then [items[0]] else []) + AtDepth(items[1..], d)
  }

  /** The nodes of a forest, each with its depth set to `d`. */
  function Relabel(nodes: seq<TreeNode>, d: int): (r: seq<TreeNode>)
    ensures |r| == |nodes|
    ensures forall i :: 0 <= i < |nodes| ==> r[i] == nodes[i].(depth := d)
  {
    seq(|nodes|, i requires 0 <= i < |nodes| => nodes[i].(depth := d))
  }

  lemma {:induction false} AtDepthConcat(a: seq<TreeNode>, b: seq<TreeNode>, d: int)
    ensures AtDepth(a + b, d) == AtDepth(a, d) + AtDepth(b, d)
  {
    if a == [] {
      assert a + b == b;
    } else {
      assert (a + b)[0] == a[0];
      assert (a + b)[1..] == a[1..] + b;
      AtDepthConcat(a[1..], b, d);
    }
  }

  lemma {:induction false} AtDepthNone(items: seq<TreeNode>, d: int)
    requires forall i :: 0 <= i < |items| ==> items[i].depth > d
    ensures AtDepth(items, d) == []
  {
    if items != [] { AtDepthNone(items[1..], d); }
  }

  /**
   * The entries at the starting depth are exactly the top-level nodes, in
   * input order: every subtree sits strictly deeper.
   */
  lemma {:induction false} TopLevelAtDepth(nodes: seq<TreeNode>, d: int)
    ensures AtDepth(Flatten(nodes, d), d) == Relabel(nodes, d)
  {
    if nodes != [] {
      var head := [nodes[0].(depth := d)];
      var sub := Flatten(nodes[0].children, d + 1);
      var rest := Flatten(nodes[1..], d);
      assert Flatten(nodes, d) == head + sub + rest;
      AtDepthConcat(head + sub, rest, d);
      AtDepthConcat(head, sub, d);
      FlattenIsOutline(nodes[0].children, d + 1);
      AtDepthNone(sub, d);
      assert AtDepth(head, d) == head;
      TopLevelAtDepth(nodes[1..], d);
      assert head + Relabel(nodes[1..], d) == Relabel(nodes, d);
    }
  }

  /**
   * A node with children is directly followed by its first child, one level
   * deeper: each child's depth is its parent's plus one.
   */
  lemma {:induction false} ChildFollows(nodes: seq<TreeNode>, d: int, i: nat)
    requires i < |Flatten(nodes, d)| && Flatten(nodes, d)[i].children != []
    ensures i + 1 < |Flatten(nodes, d)|
    ensures Flatten(nodes, d)[i + 1] == Flatten(nodes, d)[i].children[0].(depth := Flatten(nodes, d)[i].depth + 1)
  {
    var head := [nodes[0].(depth := d)];
    var sub := Flatten(nodes[0].children, d + 1);
    var rest := Flatten(nodes[1..], d);
    var r := head + sub + rest;
    assert Flatten(nodes, d) == r;
    if i == 0 {
      assert sub == [nodes[0].children[0].(depth := d + 1)] + Flatten(nodes[0].children[0].children, d + 2)
                    + Flatten(nodes[0].children[1..], d + 1);
      assert r[1] == sub[0];
    } else if i < 1 + |sub| {
      assert r[i] == sub[i - 1];
      ChildFollows(nodes[0].children, d + 1, i - 1);
      assert r[i + 1] == sub[i];
    } else {
      assert r[i] == rest[i - 1 - |sub|];
      ChildFollows(nodes[1..], d, i - 1 - |sub|);
      assert r[i + 1] == rest[i - |sub|];
    }
  }

  /**
   * dnd-kit's `arrayMove(items, from, to)`: the item at `from` is taken out
   * and put back so that it ends at `to`.
   */
  function ArrayMove<T>(s: seq<T>, from: nat, to: nat): (r: seq<T>)
    requires from < |s| && to < |s|
    ensures |r| == |s| && r[to] == s[from]
  {
    var rest := s[..from] + s[from + 1..];
    rest[..to] + [s[from]] + rest[to..]
  }

  /** A move only permutes the list. */
  lemma MovePermutes<T>(s: seq<T>, from: nat, to: nat)
    requires from < |s| && to < |s|
    ensures multiset(ArrayMove(s, from, to)) == multiset(s)
  {
    var x := s[from];
    var rest := s[..from] + s[from + 1..];
    assert s == s[..from] + [x] + s[from + 1..];
    assert rest == rest[..to] + rest[to..];
    calc {
      multiset(ArrayMove(s, from, to));
      multiset(rest[..to] + [x] + rest[to..]);
      multiset(rest[..to]) + multiset{x} + multiset(rest[to..]);
      multiset(rest) + multiset{x};
      multiset(s[..from]) + multiset(s[from + 1..]) + multiset{x};
      multiset(s);
    }
  }

  /** Moving an item back to where it came from restores the list. */
  lemma MoveBack<T>(s: seq<T>, from: nat, to: nat)
    requires from < |s| && to < |s|
    ensures ArrayMove(ArrayMove(s, from, to), to, from) == s
  {
    var m := ArrayMove(s, from, to);
    var rest := s[..from] + s[from + 1..];
    assert m[..to] + m[to + 1..] == rest;
    assert s == rest[..from] + [s[from]] + rest[from..];
  }

  /** Items between the two positions shift by one; the others keep their place. */
  lemma MoveShifts<T>(s: seq<T>, from: nat, to: nat, i: nat)
    requires from < |s| && to < |s| && i < |s|
    ensures var r := ArrayMove(s, from, to);
            && (i < from && i < to ==> r[i] == s[i])
            && (i > from && i > to ==> r[i] == s[i])
            && (from < to && from <= i < to ==> r[i] == s[i + 1])
            && (to < from && to < i <= from ==> r[i] == s[i - 1])
  {
  }

  /** `newItems.map((item, index) => ({ id: item.id, rank: index }))`. */
  function RankUpdates(items: seq<TreeNode>): (r: seq<RankUpdate>)
    ensures |r| == |items|
    ensures forall i :: 0 <= i < |r| ==> r[i].id == items[i].category.id && r[i].rank == i
    ensures forall i, j :: 0 <= i < j < |r| ==> r[i].rank < r[j].rank
  {
    seq(|items|, i requires 0 <= i < |items| => RankUpdate(items[i].category.id, i))
  }

  /** The first position of id `x` in the list (`items.findIndex`). */
  function FindIndex(items: seq<TreeNode>, x: string): (i: nat)
    requires x in Ids(items)
    ensures i < |items| && items[i].category.id == x
    ensures forall j :: 0 <= j < i ==> items[j].category.id != x
  {
    if items[0].category.id == x then 0 else 1 + FindIndex(items[1..], x)
  }

  const ReorderError := "Erreur lors de la réorganisation"

  /** The list component's state and what it has sent and shown. */
  class CategoryBoard {
    /** The flattened list on screen. */
    var items: seq<TreeNode>
    /** The rank updates passed to `updateCategoryOrder`, one entry per call. */
    var sent: seq<seq<RankUpdate>>
    /** The error toasts shown. */
    var toasts: seq<string>

    /** `useState(() => flattenTree(initialData))`. */
    constructor (initialData: seq<TreeNode>)
      ensures items == Flatten(initialData, 0) && sent == [] && toasts == []
    {
      items := Flatten(initialData, 0);
      sent := [];
      toasts := [];
    }

    /**
     * `handleDragEnd`: `active` is the dragged item's id, `over` the id of the
     * item it was dropped on, if any; both come from the sortable list.
     * `serverFails` is whether `updateCategoryOrder` throws.
     */
    method HandleDragEnd(active: string, over: Option<string>, serverFails: bool)
      requires active in Ids(items)
      requires over.Some? ==> over.value in Ids(items)
      modifies this
      ensures over.None? || over.value == active ==> unchanged(this)
      ensures over.Some? && over.value != active ==>
                && items == ArrayMove(old(items), FindIndex(old(items), active), FindIndex(old(items), over.value))
                && sent == old(sent) + [RankUpdates(items)]
                // the optimistic order stays even when the server refuses it
                && toasts == old(toasts) + (if serverFails then [ReorderError] else [])
      ensures multiset(items) == multiset(old(items))
    {
      if over.Some? && active != over.value {
        var oldIndex := FindIndex(items, active);
        var newIndex := FindIndex(items, over.value);
        MovePermutes(items, oldIndex, newIndex);
        var newItems := ArrayMove(items, oldIndex, newIndex);
        items := newItems;
        var updates := RankUpdates(newItems);
        sent := sent + [updates];
        if serverFails {
          toasts := toasts + [ReorderError];
        }
      }
    }
  }

  lemma IdsConcat(a: seq<TreeNode>, b: seq<TreeNode>)
    ensures Ids(a + b) == Ids(a) + Ids(b)
  {
  }

  /** Moving items moves their ids the same way. */
  lemma IdsMove(s: seq<TreeNode>, from: nat, to: nat)
    requires from < |s| && to < |s|
    ensures Ids(ArrayMove(s, from, to)) == ArrayMove(Ids(s), from, to)
  {
    var r := ArrayMove(s, from, to);
    var ids := Ids(s);
    forall k | 0 <= k < |s|
      ensures Ids(r)[k] == ArrayMove(ids, from, to)[k]
    {
      MoveShifts(s, from, to, k);
      MoveShifts(ids, from, to, k);
    }
  }

  /**
   * After a move the dragged item sits where the target was, and the ids are
   * those of the list before, moved the same way.
   */
  lemma DragMovesIds(items: seq<TreeNode>, active: string, over: string)
    requires active in Ids(items) && over in Ids(items)
    ensures var from := FindIndex(items, active);
            var to := FindIndex(items, over);
            var r := ArrayMove(items, from, to);
            && r[to].category.id == active
            && Ids(r) == ArrayMove(Ids(items), from, to)
            && multiset(Ids(r)) == multiset(Ids(items))
  {
    var from := FindIndex(items, active);
    var to := FindIndex(items, over);
    IdsMove(items, from, to);
    MovePermutes(Ids(items), from, to);
  }
}
