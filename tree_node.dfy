/**
 * One joint of the skeleton (`TreeNode`, src/js/tree.js:148-165).
 *
 * A node owns the ordered list of its children and points back to its
 * parent. Two ghost fields describe the subtree hanging from a node:
 *   Repr   the set of its nodes (the node and all its descendants),
 *   shape  the subtree as a value (`Tree`): positions, radii, child order.
 * `Valid()` ties them to the real `children` and `parent` fields. It reads
 * only those structural fields, so writing the mesh-builder fields
 * `firstIndex` and `texOffset` keeps every subtree valid.
 */
module TreeNodes {
  import opened GlMatrix

  /** A skeleton as a value: a joint's position, its radius and its subtrees in order. */
  datatype Tree = Tree(position: Vec3, radius: real, children: seq<Tree>)

  /** Number of joints of a tree. */
  function Size(t: Tree): nat
    decreases t, 1
  {
    1 + SizeOf(t.children)
  }

  /** Number of joints of a forest. */
  function SizeOf(ts: seq<Tree>): nat
    decreases ts, 0
  {
    if ts == [] then 0 else SizeOf(ts[..|ts| - 1]) + Size(ts[|ts| - 1])
  }

  /** Number of joints on the longest root-to-leaf path. */
  function Height(t: Tree): nat
    decreases t, 1
  {
    1 + HeightOf(t.children)
  }

  /** The largest height in a forest, 0 for none. */
  function HeightOf(ts: seq<Tree>): nat
    decreases ts, 0
  {
    if ts == [] then 0
    else
      var h, k := HeightOf(ts[..|ts| - 1]), Height(ts[|ts| - 1]);
      if h < k then k else h
  }

  /** A forest of one tree or of three trees, counted joint by joint and level by level. */
  lemma SmallForests(a: Tree, b: Tree, c: Tree)
    ensures SizeOf([a]) == Size(a) && HeightOf([a]) == Height(a)
    ensures SizeOf([a, b, c]) == Size(a) + Size(b) + Size(c)
    ensures HeightOf([a, b, c]) == Max(Height(a), Max(Height(b), Height(c)))
  {
    assert [a][..0] == [] && [a, b, c][..2] == [a, b] && [a, b][..1] == [a];
  }

  /**
   * Two footprints share no node. Sibling disjointness in `Valid` is
   * stated through this predicate so that it is only used where a proof
   * names two siblings' footprints.
   */
  predicate Apart(a: set<TreeNode>, b: set<TreeNode>) {
    a !! b
  }

  /** The larger of two counts. */
  function Max(x: nat, y: nat): nat {
    if x < y then y else x
  }

  class TreeNode {
    var parent: TreeNode?
    const position: Vec3
    const radius: real
    var children: seq<TreeNode>
    /** Index of this joint's first ring vertex; written by the mesh builder. */
    var firstIndex: int
    /** Wrapped V texture coordinate at this joint; written by the mesh builder. */
    var texOffset: real

    ghost var Repr: set<TreeNode>
    ghost var shape: Tree

    /**
     * The subtree is a tree: every child points back here, lies inside this
     * subtree without containing this node, and is valid itself; distinct
     * children share no node; `shape` mirrors the structure, child by child.
     */
    ghost predicate Valid()
      reads this`Repr, Repr`children, Repr`parent, Repr`Repr, Repr`shape
      decreases Repr
    {
      this in Repr && |shape.children| == |children| &&
      (forall i :: 0 <= i < |children| ==>
        children[i] in Repr && children[i].Repr <= Repr && this !in children[i].Repr &&
        children[i].parent == this && children[i].shape == shape.children[i] &&
        children[i].Valid()) &&
      (forall i, j {:trigger Apart(children[i].Repr, children[j].Repr)} :: 0 <= i < j < |children| ==>
        Apart(children[i].Repr, children[j].Repr)) &&
      shape.position == position && shape.radius == radius
    }

    /**
     * `Valid()` except that the last child's subtree is still being grown:
     * what holds of this node between `addChild` and the end of the growth.
     */
    ghost predicate ValidButLast()
      reads this`Repr, Repr`children, Repr`parent, Repr`Repr, Repr`shape
    {
      this in Repr && |children| > 0 && |shape.children| == |children| - 1 &&
      (forall i :: 0 <= i < |children| - 1 ==>
        children[i] in Repr && children[i].Repr <= Repr && this !in children[i].Repr &&
        children[i].parent == this && children[i].shape == shape.children[i] &&
        children[i].Valid()) &&
      (forall i, j {:trigger Apart(children[i].Repr, children[j].Repr)} :: 0 <= i < j < |children| - 1 ==>
        Apart(children[i].Repr, children[j].Repr)) &&
      shape.position == position && shape.radius == radius
    }

    /** `new TreeNode(position, radius)`: a parentless leaf. */
    constructor (position: Vec3, radius: real)
      ensures this.position == position && this.radius == radius
      ensures parent == null && children == []
      ensures Valid() && Repr == {this} && shape == Tree(position, radius, [])
    {
      this.position := position;
      this.radius := radius;
      parent := null;
      children := [];
      firstIndex := 0;
      texOffset := 0.0;
      Repr := {this};
      shape := Tree(position, radius, []);
    }

    /**
     * `addChild(node)`: appends `node` as the last child, keeps the earlier
     * children, and makes this node its parent.
     */
    method AddChild(node: TreeNode)
      modifies this`children, node`parent
      ensures children == old(children) + [node]
      ensures children[..|old(children)|] == old(children)
      ensures node.parent == this
      ensures old(Valid()) && node !in old(Repr) ==> ValidButLast()
    {
      children := children + [node];
      node.parent := this;
    }

    /**
     * Ghost bookkeeping once the last child's subtree is complete: its
     * joints join this subtree after all earlier ones, and this node is
     * valid again.
     */
    ghost method Adopt()
      requires ValidButLast()
      requires children[|children| - 1].Valid() && children[|children| - 1].parent == this
      requires Repr !! children[|children| - 1].Repr
      modifies this`Repr, this`shape
      ensures Valid()
      ensures Repr == old(Repr) + children[|children| - 1].Repr
      ensures shape == Tree(position, radius, old(shape.children) + [children[|children| - 1].shape])
    {
      var child := children[|children| - 1];
      Repr, shape := Repr + child.Repr, Tree(position, radius, shape.children + [child.shape]);
    }
  }
}
