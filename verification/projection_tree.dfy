/**
 The projection tree a resource projection expression compiles to: every
 node carries an attribute (its flag, column ordinal, sort order, label
 and alignment) and a list of keyed children. Two walks over it are
 modelled: the depth-first collection of the columns to project
 (`_Ordering`) and the rewrite that turns a projection into a default
 projection (`_Defaults`).
 */
module ProjectionTree {
  import opened Wrappers

  /** `DEFAULT` (0), `INNER` (1) and `PROJECT` (2). */
  datatype Flag = Default | Inner | Project

  /** The keys of `ALIGNMENTS`; `Left` is `ALIGN_DEFAULT`. */
  datatype Align = Left | Center | Right

  const AlignDefault: Align := Left

  /** `heading` is the attribute the source calls `label` (a reserved word
      here). */
  datatype Attribute = Attribute(flag: Flag, ordinal: Option<int>, order: Option<int>,
                                 heading: Option<string>, align: Align)

  /** A node and its children, in the order the tree's dictionary yields
      them. */
  datatype Node = Node(attribute: Attribute, tree: seq<Child>)

  datatype Child = Child(key: string, node: Node)

  /** Reference: the attributes of a subtree in depth-first pre-order. */
  function Preorder(n: Node): (r: seq<Attribute>)
    ensures |r| >= 1 && r[0] == n.attribute
    decreases n, 2
  {
    [n.attribute] + PreorderFrom(n, 0)
  }

  /** The pre-order of the children of `n` from the `i`-th on. */
  function PreorderFrom(n: Node, i: nat): seq<Attribute>
    decreases n, 1, |n.tree| - i
  {
    if i >= |n.tree| then []
    else Preorder(n.tree[i].node) + PreorderFrom(n, i + 1)
  }

  predicate IsProject(a: Attribute) {
    a.flag == Project
  }

  /** The attributes of `xs` that are flagged `PROJECT`, in order. */
  function Projected(xs: seq<Attribute>): (r: seq<Attribute>)
    ensures |r| <= |xs|
    ensures forall a :: a in r <==> a in xs && IsProject(a)
  {
    if |xs| == 0 then []
    else
      var rest := Projected(xs[1..]);
      assert forall a :: a in xs <==> a == xs[0] || a in xs[1..];
      (if IsProject(xs[0]) then [xs[0]] else []) + rest
  }

  lemma {:induction false} ProjectedAppend(xs: seq<Attribute>, ys: seq<Attribute>)
    ensures Projected(xs + ys) == Projected(xs) + Projected(ys)
    decreases |xs|
  {
    if |xs| > 0 {
      assert (xs + ys)[1..] == xs[1..] + ys;
      ProjectedAppend(xs[1..], ys);
    } else {
      assert xs + ys == ys;
    }
  }

  /** `_DFSOrdering(projection, ordering)`: appends the node's attribute
      when it is a `PROJECT` node, then visits the children in order. */
  function DfsOrdering(n: Node, acc: seq<Attribute>): (r: seq<Attribute>)
    ensures |r| >= |acc|
    decreases n, 2
  {
    var acc1 := if IsProject(n.attribute) then acc + [n.attribute] else acc;
    DfsChildren(n, 0, acc1)
  }

  function DfsChildren(n: Node, i: nat, acc: seq<Attribute>): (r: seq<Attribute>)
    ensures |r| >= |acc|
    decreases n, 1, |n.tree| - i
  {
    if i >= |n.tree| then acc
    else DfsChildren(n, i + 1, DfsOrdering(n.tree[i].node, acc))
  }

  /** `_Ordering()` on a tree. */
  function Ordering(root: Node): seq<Attribute> {
    DfsOrdering(root, [])
  }

  /** The walk collects exactly the `PROJECT` attributes, in pre-order. */
  lemma {:induction false} DfsOrderingIsPreorder(n: Node, acc: seq<Attribute>)
    ensures DfsOrdering(n, acc) == acc + Projected(Preorder(n))
    decreases n, 2
  {
    var acc1 := if IsProject(n.attribute) then acc + [n.attribute] else acc;
    DfsChildrenIsPreorder(n, 0, acc1);
    ProjectedAppend([n.attribute], PreorderFrom(n, 0));
    assert Projected([n.attribute]) == if IsProject(n.attribute) then [n.attribute] else [];
  }

  lemma {:induction false} DfsChildrenIsPreorder(n: Node, i: nat, acc: seq<Attribute>)
    ensures DfsChildren(n, i, acc) == acc + Projected(PreorderFrom(n, i))
    decreases n, 1, |n.tree| - i
  {
    if i < |n.tree| {
      var c := n.tree[i].node;
      DfsOrderingIsPreorder(c, acc);
      DfsChildrenIsPreorder(n, i + 1, DfsOrdering(c, acc));
      ProjectedAppend(Preorder(c), PreorderFrom(n, i + 1));
    }
  }

  /** `_Ordering` returns the `PROJECT` attributes in depth-first
      pre-order. */
  lemma OrderingIsProjectedPreorder(root: Node)
    ensures Ordering(root) == Projected(Preorder(root))
  {
    DfsOrderingIsPreorder(root, []);
  }

  /** The attribute a default projection keeps for a node. */
  function Reset(a: Attribute): (r: Attribute)
    ensures r.flag == Default && r.ordinal.None?
    ensures r.order == a.order && r.heading == a.heading && r.align == a.align
  {
    a.(flag := Default, ordinal := None)
  }

  /** `_Defaults(projection)` on a copy of the tree. */
  function DefaultsTree(n: Node): (r: Node)
    ensures r.attribute == Reset(n.attribute)
    ensures |r.tree| == |n.tree|
    ensures forall i :: 0 <= i < |n.tree| ==> r.tree[i].key == n.tree[i].key
    decreases n
  {
    Node(Reset(n.attribute),
         seq(|n.tree|, i requires 0 <= i < |n.tree| => Child(n.tree[i].key, DefaultsTree(n.tree[i].node))))
  }

  function MapReset(xs: seq<Attribute>): (r: seq<Attribute>)
    ensures |r| == |xs|
    ensures forall i :: 0 <= i < |xs| ==> r[i] == Reset(xs[i])
  {
    seq(|xs|, i requires 0 <= i < |xs| => Reset(xs[i]))
  }

  /** Every node of the defaulted tree, in pre-order, is the original node
      with its flag set to `DEFAULT` and its ordinal cleared. */
  lemma {:induction false} DefaultsPreorder(n: Node)
    ensures Preorder(DefaultsTree(n)) == MapReset(Preorder(n))
    decreases n, 2
  {
    DefaultsPreorderFrom(n, 0);
  }

  lemma {:induction false} DefaultsPreorderFrom(n: Node, i: nat)
    ensures PreorderFrom(DefaultsTree(n), i) == MapReset(PreorderFrom(n, i))
    decreases n, 1, |n.tree| - i
  {
    if i < |n.tree| {
      var d := DefaultsTree(n);
      assert d.tree[i].node == DefaultsTree(n.tree[i].node);
      DefaultsPreorder(n.tree[i].node);
      DefaultsPreorderFrom(n, i + 1);
    }
  }

  /** Applying `_Defaults` twice is applying it once. */
  lemma {:induction false} DefaultsIdempotent(n: Node)
    ensures DefaultsTree(DefaultsTree(n)) == DefaultsTree(n)
    decreases n
  {
    var d := DefaultsTree(n);
    var dd := DefaultsTree(d);
    forall i | 0 <= i < |n.tree|
      ensures dd.tree[i] == d.tree[i]
    {
      DefaultsIdempotent(n.tree[i].node);
    }
    assert dd.tree == d.tree;
  }

  lemma {:induction false} NoneProjected(xs: seq<Attribute>)
    requires forall i :: 0 <= i < |xs| ==> xs[i].flag == Default
    ensures Projected(xs) == []
    decreases |xs|
  {
    if |xs| > 0 {
      NoneProjected(xs[1..]);
    }
  }

  /** A default projection projects no column. */
  lemma DefaultsOrderingEmpty(n: Node)
    ensures Ordering(DefaultsTree(n)) == []
  {
    OrderingIsProjectedPreorder(DefaultsTree(n));
    DefaultsPreorder(n);
    NoneProjected(MapReset(Preorder(n)));
  }
}
