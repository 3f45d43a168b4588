/**
 * The skeleton production system (`TreeLSystem`, src/js/tree.js:167-254).
 *
 * The generator drives a turtle: a `MatrixStack` whose working transform is
 * moved forward (`F`) and turned (`X`, `Y`); every new joint is placed where
 * the turtle's local origin lands. `A(n, node)` is the production
 *   A(n) -> F [X F A(n+1)] Y(d1) [X F A(n+1)] Y(d2) [X F A(n+1)]
 * and stops at depth `maxIter`.
 *
 * `Cont`, `Sub` and `TopAfter` give, as values, the joints `A` attaches and
 * the transform it leaves behind; the methods are proved to build exactly
 * these, and the lemmas state the shape of the result: how many joints, how
 * deep, how many children each joint has, and that radii taper.
 */
module LSystem {
  import opened GlMatrix
  import opened MatrixStack
  import opened TreeNodes

  /** The generator's construction parameters, in the constructor's order. */
  datatype Params = Params(
    divergenceAngle1: real,
    divergenceAngle2: real,
    branchingAngle: real,
    elongationRate: real,
    thickenningRate: real,
    defLen: real,
    defRadius: real,
    maxIter: int)

  /** `x` multiplied by itself `k` times. */
  function Pow(x: real, k: nat): real {
    if k == 0 then 1.0 else Pow(x, k - 1) * x
  }

  /** Three to the power `k`. */
  function Pow3(k: nat): nat {
    if k == 0 then 1 else 3 * Pow3(k - 1)
  }

  /** Iterations left below level `n`: `maxIter - n`, or none at or past the bound. */
  function Steps(p: Params, n: int): nat {
    if n < p.maxIter then p.maxIter - n else 0
  }

  /** Segment length at level `n`. */
  function LenAt(p: Params, n: int): real {
    p.defLen * Pow(p.elongationRate, Steps(p, n))
  }

  /** Branch radius at level `n`. */
  function RadiusAt(p: Params, n: int): real {
    p.defRadius * Pow(p.thickenningRate, Steps(p, n))
  }

  /** `len(numIter)`: start from `defLen` and multiply by `elongationRate` until level `maxIter`. */
  method Len(p: Params, numIter: int) returns (l: real)
    ensures numIter >= p.maxIter ==> l == p.defLen
    ensures numIter <= p.maxIter ==> l == p.defLen * Pow(p.elongationRate, p.maxIter - numIter)
    ensures l == LenAt(p, numIter)
  {
    l := p.defLen;
    var k := numIter;
    while k < p.maxIter
      invariant numIter <= k
      invariant k <= p.maxIter || k == numIter
      invariant l == p.defLen * Pow(p.elongationRate, k - numIter)
    {
      l := l * p.elongationRate;
      k := k + 1;
    }
  }

  /** `radius(numIter)`: start from `defRadius` and multiply by `thickenningRate` until level `maxIter`. */
  method Radius(p: Params, numIter: int) returns (r: real)
    ensures numIter >= p.maxIter ==> r == p.defRadius
    ensures numIter <= p.maxIter ==> r == p.defRadius * Pow(p.thickenningRate, p.maxIter - numIter)
    ensures r == RadiusAt(p, numIter)
  {
    r := p.defRadius;
    var k := numIter;
    while k < p.maxIter
      invariant numIter <= k
      invariant k <= p.maxIter || k == numIter
      invariant r == p.defRadius * Pow(p.thickenningRate, k - numIter)
    {
      r := r * p.thickenningRate;
      k := k + 1;
    }
  }

  /** A rate of at least one never shrinks a non-negative value as it is applied more often. */
  lemma {:induction false} PowGrows(x: real, i: nat, j: nat)
    requires 1.0 <= x && i <= j
    ensures 1.0 <= Pow(x, i) <= Pow(x, j)
    decreases j
  {
    if i < j {
      PowGrows(x, i, j - 1);
      assert Pow(x, j) == Pow(x, j - 1) * x;
    } else if i > 0 {
      PowGrows(x, i - 1, i - 1);
    }
  }

  /**
   * With `elongationRate >= 1` and `defLen >= 0`, segments get no longer as
   * the level increases; likewise radii with `thickenningRate` and `defRadius`.
   */
  lemma LevelsTaper(p: Params, n: int, n': int)
    requires n <= n'
    ensures 1.0 <= p.elongationRate && 0.0 <= p.defLen ==> 0.0 <= LenAt(p, n') <= LenAt(p, n)
    ensures 1.0 <= p.thickenningRate && 0.0 <= p.defRadius ==> 0.0 <= RadiusAt(p, n') <= RadiusAt(p, n)
  {
    if 1.0 <= p.elongationRate {
      PowGrows(p.elongationRate, Steps(p, n'), Steps(p, n));
    }
    if 1.0 <= p.thickenningRate {
      PowGrows(p.thickenningRate, Steps(p, n'), Steps(p, n));
    }
  }

  /**
   * What `A(n, node)` attaches to `node` when the turtle starts at `m`:
   * nothing at or past `maxIter`, otherwise one continuation joint one
   * segment ahead, carrying three branches that fan out by the two
   * divergence angles.
   */
  function Cont(p: Params, gl: MatrixOps, n: int, m: Mat4): seq<Tree>
    decreases Steps(p, n), 1
  {
    if n >= p.maxIter then []
    else
      var m1 := gl.translateY(m, LenAt(p, n));
      var m2 := gl.rotateY(m1, p.divergenceAngle1);
      var m3 := gl.rotateY(m2, p.divergenceAngle2);
      [Tree(gl.origin(m1), RadiusAt(p, n), [Sub(p, gl, n, m1), Sub(p, gl, n, m2), Sub(p, gl, n, m3)])]
  }

  /**
   * One bracketed branch `[X F A(n+1)]` from turtle `m`: incline by the
   * branching angle, move one segment, place a joint of the next level's
   * radius, and expand it at level `n + 1`.
   */
  function Sub(p: Params, gl: MatrixOps, n: int, m: Mat4): Tree
    requires n < p.maxIter
    decreases Steps(p, n), 0
  {
    var m' := gl.translateY(gl.rotateX(m, p.branchingAngle), LenAt(p, n));
    Tree(gl.origin(m'), RadiusAt(p, n + 1), Cont(p, gl, n + 1, m'))
  }

  /**
   * The working transform `A(n, ·)` leaves behind: the bracketed branches
   * restore it, so only the forward move and the two azimuth turns remain.
   */
  function TopAfter(p: Params, gl: MatrixOps, n: int, m: Mat4): Mat4 {
    if n >= p.maxIter then m
    else gl.rotateY(gl.rotateY(gl.translateY(m, LenAt(p, n)), p.divergenceAngle1), p.divergenceAngle2)
  }

  /** The turtle after the trunk move: identity, then forward three segments of level 0. */
  function TrunkTop(p: Params, gl: MatrixOps): Mat4 {
    gl.translateY(Identity, LenAt(p, 0) * 3.0)
  }

  /** The whole skeleton the constructor builds: root at the origin, one trunk joint, then `A(0, trunk)`. */
  function Skeleton(p: Params, gl: MatrixOps): Tree {
    var mt := TrunkTop(p, gl);
    Tree(Origin, RadiusAt(p, 0), [Tree(gl.origin(mt), RadiusAt(p, 0), Cont(p, gl, 0, mt))])
  }

  /**
   * Joint count of what `A(n, ·)` adds: `N(k) = 4 + 3 N(k - 1)`, `N(0) = 0`,
   * so `2 * 3^k - 2` for `k` remaining levels.
   */
  lemma {:induction false} ContSize(p: Params, gl: MatrixOps, n: int, m: Mat4)
    ensures SizeOf(Cont(p, gl, n, m)) == 2 * Pow3(Steps(p, n)) - 2
    decreases Steps(p, n)
  {
    if n < p.maxIter {
      var m1 := gl.translateY(m, LenAt(p, n));
      var m2 := gl.rotateY(m1, p.divergenceAngle1);
      var m3 := gl.rotateY(m2, p.divergenceAngle2);
      var s1, s2, s3 := Sub(p, gl, n, m1), Sub(p, gl, n, m2), Sub(p, gl, n, m3);
      var k := Steps(p, n + 1);
      assert Steps(p, n) == k + 1;
      ContSize(p, gl, n + 1, gl.translateY(gl.rotateX(m1, p.branchingAngle), LenAt(p, n)));
      ContSize(p, gl, n + 1, gl.translateY(gl.rotateX(m2, p.branchingAngle), LenAt(p, n)));
      ContSize(p, gl, n + 1, gl.translateY(gl.rotateX(m3, p.branchingAngle), LenAt(p, n)));
      assert Size(s1) == Size(s2) == Size(s3) == 2 * Pow3(k) - 1;
      var j := Tree(gl.origin(m1), RadiusAt(p, n), [s1, s2, s3]);
      assert Cont(p, gl, n, m) == [j];
      SmallForests(j, j, j);
      SmallForests(s1, s2, s3);
    }
  }

  /** The skeleton has `2 * 3^maxIter` joints (two when `maxIter <= 0`). */
  lemma SkeletonSize(p: Params, gl: MatrixOps)
    ensures Size(Skeleton(p, gl)) == 2 * Pow3(Steps(p, 0))
  {
    var mt := TrunkTop(p, gl);
    var trunk := Tree(gl.origin(mt), RadiusAt(p, 0), Cont(p, gl, 0, mt));
    ContSize(p, gl, 0, mt);
    SmallForests(trunk, trunk, trunk);
  }

  /** What `A(n, ·)` adds is `2k` joints deep for `k` remaining levels: continuation, branch, and so on. */
  lemma {:induction false} ContHeight(p: Params, gl: MatrixOps, n: int, m: Mat4)
    ensures HeightOf(Cont(p, gl, n, m)) == 2 * Steps(p, n)
    decreases Steps(p, n)
  {
    if n < p.maxIter {
      var m1 := gl.translateY(m, LenAt(p, n));
      var m2 := gl.rotateY(m1, p.divergenceAngle1);
      var m3 := gl.rotateY(m2, p.divergenceAngle2);
      var s1, s2, s3 := Sub(p, gl, n, m1), Sub(p, gl, n, m2), Sub(p, gl, n, m3);
      var k := Steps(p, n + 1);
      assert Steps(p, n) == k + 1;
      ContHeight(p, gl, n + 1, gl.translateY(gl.rotateX(m1, p.branchingAngle), LenAt(p, n)));
      ContHeight(p, gl, n + 1, gl.translateY(gl.rotateX(m2, p.branchingAngle), LenAt(p, n)));
      ContHeight(p, gl, n + 1, gl.translateY(gl.rotateX(m3, p.branchingAngle), LenAt(p, n)));
      assert Height(s1) == Height(s2) == Height(s3) == 2 * k + 1;
      var j := Tree(gl.origin(m1), RadiusAt(p, n), [s1, s2, s3]);
      assert Cont(p, gl, n, m) == [j];
      SmallForests(j, j, j);
      SmallForests(s1, s2, s3);
    }
  }

  /** The skeleton is `2 * maxIter + 2` joints deep: root, trunk, then two per level. */
  lemma SkeletonHeight(p: Params, gl: MatrixOps)
    ensures Height(Skeleton(p, gl)) == 2 * Steps(p, 0) + 2
  {
    var mt := TrunkTop(p, gl);
    var trunk := Tree(gl.origin(mt), RadiusAt(p, 0), Cont(p, gl, 0, mt));
    ContHeight(p, gl, 0, mt);
    SmallForests(trunk, trunk, trunk);
  }

  /** A continuation joint: exactly three children, each a branch joint. */
  ghost predicate ContinuationJoint(t: Tree)
    decreases t, 1
  {
    |t.children| == 3 && forall i :: 0 <= i < 3 ==> BranchJoint(t.children[i])
  }

  /** A branch joint: at most one child, a continuation joint. */
  ghost predicate BranchJoint(t: Tree)
    decreases t, 0
  {
    |t.children| <= 1 && forall i :: 0 <= i < |t.children| ==> ContinuationJoint(t.children[i])
  }

  /** `A(n, ·)` adds at most one joint, a continuation joint, and then alternates strictly. */
  lemma {:induction false} ContAlternates(p: Params, gl: MatrixOps, n: int, m: Mat4)
    ensures |Cont(p, gl, n, m)| == (if n < p.maxIter then 1 else 0)
    ensures forall i :: 0 <= i < |Cont(p, gl, n, m)| ==> ContinuationJoint(Cont(p, gl, n, m)[i])
    decreases Steps(p, n)
  {
    if n < p.maxIter {
      var m1 := gl.translateY(m, LenAt(p, n));
      var m2 := gl.rotateY(m1, p.divergenceAngle1);
      var m3 := gl.rotateY(m2, p.divergenceAngle2);
      ContAlternates(p, gl, n + 1, gl.translateY(gl.rotateX(m1, p.branchingAngle), LenAt(p, n)));
      ContAlternates(p, gl, n + 1, gl.translateY(gl.rotateX(m2, p.branchingAngle), LenAt(p, n)));
      ContAlternates(p, gl, n + 1, gl.translateY(gl.rotateX(m3, p.branchingAngle), LenAt(p, n)));
    }
  }

  /** The root has exactly one child, the trunk, which is a branch joint. */
  lemma SkeletonAlternates(p: Params, gl: MatrixOps)
    ensures |Skeleton(p, gl).children| == 1
    ensures BranchJoint(Skeleton(p, gl).children[0])
  {
    ContAlternates(p, gl, 0, TrunkTop(p, gl));
  }

  /** No child is thicker than its parent, all the way down. */
  ghost predicate Tapered(t: Tree)
    decreases t
  {
    forall i :: 0 <= i < |t.children| ==> t.children[i].radius <= t.radius && Tapered(t.children[i])
  }

  /**
   * With `thickenningRate >= 1` and `defRadius >= 0`, what `A(n, ·)` adds
   * tapers and is no thicker than level `n`.
   */
  lemma {:induction false} ContTapered(p: Params, gl: MatrixOps, n: int, m: Mat4)
    requires 1.0 <= p.thickenningRate && 0.0 <= p.defRadius
    ensures forall i :: 0 <= i < |Cont(p, gl, n, m)| ==>
      Cont(p, gl, n, m)[i].radius <= RadiusAt(p, n) && Tapered(Cont(p, gl, n, m)[i])
    decreases Steps(p, n)
  {
    if n < p.maxIter {
      var m1 := gl.translateY(m, LenAt(p, n));
      var m2 := gl.rotateY(m1, p.divergenceAngle1);
      var m3 := gl.rotateY(m2, p.divergenceAngle2);
      var s1, s2, s3 := Sub(p, gl, n, m1), Sub(p, gl, n, m2), Sub(p, gl, n, m3);
      LevelsTaper(p, n, n + 1);
      var b1 := gl.translateY(gl.rotateX(m1, p.branchingAngle), LenAt(p, n));
      var b2 := gl.translateY(gl.rotateX(m2, p.branchingAngle), LenAt(p, n));
      var b3 := gl.translateY(gl.rotateX(m3, p.branchingAngle), LenAt(p, n));
      ContTapered(p, gl, n + 1, b1);
      ContTapered(p, gl, n + 1, b2);
      ContTapered(p, gl, n + 1, b3);
      assert s1.children == Cont(p, gl, n + 1, b1) && s1.radius == RadiusAt(p, n + 1);
      assert s2.children == Cont(p, gl, n + 1, b2) && s2.radius == RadiusAt(p, n + 1);
      assert s3.children == Cont(p, gl, n + 1, b3) && s3.radius == RadiusAt(p, n + 1);
      assert Tapered(s1) && Tapered(s2) && Tapered(s3);
      var j := Tree(gl.origin(m1), RadiusAt(p, n), [s1, s2, s3]);
      assert Cont(p, gl, n, m) == [j];
      assert Tapered(j);
    }
  }

  /** With `thickenningRate >= 1` and `defRadius >= 0` the whole skeleton tapers. */
  lemma SkeletonTapered(p: Params, gl: MatrixOps)
    requires 1.0 <= p.thickenningRate && 0.0 <= p.defRadius
    ensures Tapered(Skeleton(p, gl))
  {
    ContTapered(p, gl, 0, TrunkTop(p, gl));
  }

  /** The generator object: parameters, the turtle's stack and the skeleton's root. */
  class TreeLSystem {
    const p: Params
    const gl: MatrixOps
    const matrix: MatrixStack
    const root: TreeNode

    /**
     * Builds the skeleton: the root at the origin, a trunk joint three
     * level-0 segments up, then `A(0, trunk)`. Every push is matched, so the
     * stack ends empty.
     */
    constructor (p: Params, gl: MatrixOps)
      ensures this.p == p && this.gl == gl
      ensures root.Valid() && root.parent == null && |root.children| == 1
      ensures root.shape == Skeleton(p, gl)
      ensures matrix.stack == []
      ensures fresh(root.Repr) && fresh(matrix)
    {
      this.p := p;
      this.gl := gl;
      var stack := new MatrixStack(gl.create);
      stack.top := Identity;
      matrix := stack;
      var r0 := Radius(p, 0);
      root := new TreeNode(Origin, r0);
      new;
      Trunk();
    }

    /**
     * The trunk: move three level-0 segments forward, hang a joint of the
     * level-0 radius there from the root, and expand it with `A(0, ·)`.
     */
    method Trunk()
      requires root.Valid() && root.children == []
      requires root.position == Origin && root.radius == RadiusAt(p, 0) && matrix.top == Identity
      modifies matrix, root`children, root`Repr, root`shape
      ensures root.Valid() && |root.children| == 1
      ensures root.shape == Skeleton(p, gl)
      ensures matrix.stack == old(matrix.stack)
      ensures old(root.Repr) <= root.Repr && fresh(root.Repr - old(root.Repr))
    {
      var l0 := Len(p, 0);
      var trunkPos := F(l0 * 3.0);
      var r1 := Radius(p, 0);
      var trunk := Grow(0, root, trunkPos, r1);
    }

    /** `F(len)`: move the turtle forward by `len` and return where its origin lands. */
    method F(len: real) returns (pos: Vec3)
      modifies matrix`top
      ensures matrix.top == gl.translateY(old(matrix.top), len)
      ensures pos == gl.origin(matrix.top)
    {
      matrix.top := gl.translateY(matrix.top, len);
      pos := gl.origin(matrix.top);
    }

    /** `X(angle)`: incline the turtle about its local X axis. */
    method X(angle: real)
      modifies matrix`top
      ensures matrix.top == gl.rotateX(old(matrix.top), angle)
    {
      matrix.top := gl.rotateX(matrix.top, angle);
    }

    /** `Y(angle)`: turn the turtle about its Y axis. */
    method Y(angle: real)
      modifies matrix`top
      ensures matrix.top == gl.rotateY(old(matrix.top), angle)
    {
      matrix.top := gl.rotateY(matrix.top, angle);
    }

    /**
     * `A(numIter, node)`. Past the depth bound it does nothing. Otherwise it
     * appends exactly one continuation joint to `node`, one segment ahead,
     * gives that joint exactly three branch children in order, and leaves
     * the stack's saved list exactly as it found it.
     */
    method A(numIter: int, node: TreeNode)
      requires node.Valid()
      modifies matrix, node`children, node`Repr, node`shape
      ensures node.Valid()
      ensures matrix.stack == old(matrix.stack)
      ensures matrix.top == TopAfter(p, gl, numIter, old(matrix.top))
      ensures node.shape == Tree(node.position, node.radius, old(node.shape.children) + Cont(p, gl, numIter, old(matrix.top)))
      ensures numIter >= p.maxIter ==> node.children == old(node.children)
      ensures numIter < p.maxIter ==>
        |node.children| == |old(node.children)| + 1 &&
        node.children[..|old(node.children)|] == old(node.children) &&
        |node.children[|node.children| - 1].children| == 3
      ensures old(node.Repr) <= node.Repr && fresh(node.Repr - old(node.Repr))
      decreases Steps(p, numIter), 4
    {
      if numIter >= p.maxIter {
        return;
      }
      var l := Len(p, numIter);
      var pos := F(l);
      var r := Radius(p, numIter);
      Sprout(numIter, node, pos, r);
    }

    /**
     * The continuation joint of `A(numIter, node)`: `new TreeNode(pos, r)`,
     * `node.addChild(·)`, then the three bracketed branches from it.
     */
    method Sprout(numIter: int, node: TreeNode, pos: Vec3, r: real)
      requires numIter < p.maxIter && node.Valid()
      modifies matrix, node`children, node`Repr, node`shape
      ensures node.Valid()
      ensures matrix.stack == old(matrix.stack)
      ensures var m1 := old(matrix.top);
        var m2 := gl.rotateY(m1, p.divergenceAngle1);
        var m3 := gl.rotateY(m2, p.divergenceAngle2);
        node.shape == Tree(node.position, node.radius, old(node.shape.children) +
          [Tree(pos, r, [Sub(p, gl, numIter, m1), Sub(p, gl, numIter, m2), Sub(p, gl, numIter, m3)])]) &&
        matrix.top == m3
      ensures |node.children| == |old(node.children)| + 1
      ensures node.children[..|old(node.children)|] == old(node.children)
      ensures |node.children[|node.children| - 1].children| == 3
      ensures old(node.Repr) <= node.Repr && fresh(node.Repr - old(node.Repr))
      decreases Steps(p, numIter), 3
    {
      var node1 := new TreeNode(pos, r);
      node.AddChild(node1);
      assert node1.Repr == {node1};
      Fan(numIter, node1);
      assert fresh(node1.Repr);
      node.Adopt();
    }

    /**
     * The three bracketed branches of `A(numIter, ·)` hanging from the
     * continuation joint `node1`, separated by the two azimuth turns.
     */
    method Fan(numIter: int, node1: TreeNode)
      requires numIter < p.maxIter && node1.Valid() && node1.children == []
      modifies matrix, node1`children, node1`Repr, node1`shape
      ensures node1.Valid() && |node1.children| == 3
      ensures var m1 := old(matrix.top);
        var m2 := gl.rotateY(m1, p.divergenceAngle1);
        var m3 := gl.rotateY(m2, p.divergenceAngle2);
        node1.shape == Tree(node1.position, node1.radius, [Sub(p, gl, numIter, m1), Sub(p, gl, numIter, m2), Sub(p, gl, numIter, m3)]) &&
        matrix.top == m3
      ensures matrix.stack == old(matrix.stack)
      ensures old(node1.Repr) <= node1.Repr && fresh(node1.Repr - old(node1.Repr))
      decreases Steps(p, numIter), 2
    {
      Branch(numIter, node1);
      Y(p.divergenceAngle1);
      Branch(numIter, node1);
      Y(p.divergenceAngle2);
      Branch(numIter, node1);
    }

    /**
     * One bracketed branch `push(); X(branchingAngle); F(len(n)); new joint;
     * addChild; A(n + 1, ·); pop()`: the pop always finds the copy its push
     * saved, so the turtle is restored.
     */
    method Branch(numIter: int, node1: TreeNode)
      requires numIter < p.maxIter && node1.Valid()
      modifies matrix, node1`children, node1`Repr, node1`shape
      ensures node1.Valid()
      ensures |node1.children| == |old(node1.children)| + 1
      ensures node1.children[..|old(node1.children)|] == old(node1.children)
      ensures node1.shape == Tree(node1.position, node1.radius, old(node1.shape.children) + [Sub(p, gl, numIter, old(matrix.top))])
      ensures old(node1.Repr) <= node1.Repr && fresh(node1.Repr - old(node1.Repr))
      ensures matrix.top == old(matrix.top) && matrix.stack == old(matrix.stack)
      decreases Steps(p, numIter), 1
    {
      matrix.Push();
      Limb(numIter, node1);
      var popped := matrix.Pop();
      assert popped == Pass;
    }

    /**
     * The inside of the bracket, `X(branchingAngle); F(len(n)); new joint;
     * addChild; A(n + 1, ·)`: appends the branch `Sub` grown from the
     * current turtle and leaves the saved list as it found it.
     */
    method Limb(numIter: int, node1: TreeNode)
      requires numIter < p.maxIter && node1.Valid()
      modifies matrix, node1`children, node1`Repr, node1`shape
      ensures node1.Valid()
      ensures |node1.children| == |old(node1.children)| + 1
      ensures node1.children[..|old(node1.children)|] == old(node1.children)
      ensures node1.shape == Tree(node1.position, node1.radius, old(node1.shape.children) + [Sub(p, gl, numIter, old(matrix.top))])
      ensures old(node1.Repr) <= node1.Repr && fresh(node1.Repr - old(node1.Repr))
      ensures matrix.stack == old(matrix.stack)
      decreases Steps(p, numIter), 0
    {
      X(p.branchingAngle);
      var l := Len(p, numIter);
      var pos := F(l);
      var r := Radius(p, numIter + 1);
      var c := Grow(numIter + 1, node1, pos, r);
    }

    /**
     * `new TreeNode(pos, r)`, `parent.addChild(·)`, then `A(numIter, ·)` on
     * the new joint: `parent` gains one last child whose subtree is what
     * `A` grows from the current turtle.
     */
    method Grow(numIter: int, parent: TreeNode, pos: Vec3, r: real) returns (c: TreeNode)
      requires parent.Valid()
      modifies matrix, parent`children, parent`Repr, parent`shape
      ensures parent.Valid() && fresh(c)
      ensures parent.children == old(parent.children) + [c]
      ensures parent.shape == Tree(parent.position, parent.radius,
        old(parent.shape.children) + [Tree(pos, r, Cont(p, gl, numIter, old(matrix.top)))])
      ensures old(parent.Repr) <= parent.Repr && fresh(parent.Repr - old(parent.Repr))
      ensures matrix.stack == old(matrix.stack)
      ensures matrix.top == TopAfter(p, gl, numIter, old(matrix.top))
      decreases Steps(p, numIter), 5
    {
      ghost var m := matrix.top;
      c := new TreeNode(pos, r);
      parent.AddChild(c);
      assert c.Repr == {c} && c.shape.children == [];
      A(numIter, c);
      assert fresh(c.Repr);
      assert c.shape == Tree(pos, r, Cont(p, gl, numIter, m)) by {
        assert [] + Cont(p, gl, numIter, m) == Cont(p, gl, numIter, m);
      }
      parent.Adopt();
    }
  }
}
