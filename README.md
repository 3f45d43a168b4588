# fractal-tree: the tree generator, modelled in Dafny

This project models the procedural tree generator of fractal-tree. That is the
L-system from *The Algorithmic Beauty of Plants* in `src/js/tree.js`,
together with the transform stack in `src/js/matrixStack.js` that its turtle
uses. It proves what the generator builds.

- `gl_matrix.dfy` (module `GlMatrix`). Vectors and 4x4 transforms are value
  types. The gl-matrix operations the generator calls are passed in as a
  record of function values (`MatrixOps`):
  - `create`;
  - translate along local Y;
  - rotate about local X or Y;
  - where the local origin lands.
- `matrix_stack.dfy` (module `MatrixStack`). The `MatrixStack` class holds
  `top` and the saved list, with `Push`, `Pop` and `GetTop`. A value model
  (`StackState`, `Step`, `Run`) sits beside it. The lemmas prove the
  save/restore discipline:
  - a balanced sequence never underflows;
  - push, any balanced sequence, then pop gives back exactly the state
    before the push.
- `tree_node.dfy` (module `TreeNodes`). `TreeNode` is a class with
  `parent`, `children`, `firstIndex` and `texOffset`. Two ghost fields
  mirror each subtree:
  - `Repr`, its nodes;
  - `shape`, a `Tree` value.

  `Valid()` ties them to the real pointers. `Size`/`Height` count joints
  and levels.
- `tree_lsystem.dfy` (module `LSystem`). `len`/`radius` are kept as loops.
  The `TreeLSystem` class mutates the shared stack and the nodes' child
  lists through the recursion `A` (`A` → `Sprout` → `Fan` → `Branch` →
  `Limb` → `Grow` → `A`). Each method is proved to build exactly the value
  `Cont(p, gl, n, m)`. Lemmas about `Cont` and `Skeleton` then give:
  - the joint count `2 * 3^maxIter`;
  - the depth `2 * maxIter + 2`;
  - alternation: every joint `A` adds has exactly three children, and each
    of those has at most one child, itself such a joint;
  - tapering radii.
- `tree_geometry.dfy` (module `TreeMesh`). The `TreeGeometry` constructor
  walks the skeleton in pre-order and does the index bookkeeping:
  - a ring of `radial` vertices per joint, starting at `firstIndex`;
  - `2 * radial` triangles per non-root joint, wrapping modulo `radial`
    into the parent's ring;
  - one UV triple per triangle;
  - the V offset, wrapped into [0, 1).

  The three lists are proved equal to the pre-order walk functions
  `WalkVerts`, `WalkFaces` and `WalkUvs` of the skeleton. These emit, for
  each child in turn, its ring and its band to the parent's ring, then the
  child's own subtree. It is also proved that:
  - `firstIndex` is `radial` times the joint's pre-order position, and the
    root's ring starts at 0;
  - the totals are `radial * joints` vertices and `2 * radial * (joints - 1)`
    triangles and UV triples;
  - every triangle names an existing vertex;
  - every joint but the root has its ring at vertices
    `[firstIndex, firstIndex + radial)`. Its band's triangles and UV triples
    sit at `[2 * (firstIndex - radial), 2 * firstIndex)` (`Placed`). The band
    joins the parent's ring to the joint's ring, from the parent's V offset
    up by the segment's height.

  `TreeModels` builds the four presets: 486 joints, 2916 vertices and 5820
  triangles each.

The floating-point parts of the mesh are parameters (`MeshMath`). These are
the ring vertex positions, the root ring's cosine/sine points and
`texHeight`. Everything proved holds whatever they return.

## Model

| member | source | states |
|---|---|---|
| MatrixStack.StepFailsOnlyOnEmptyPop | src/js/matrixStack.js:13-18 | A step fails exactly when it is a pop with nothing saved; push and changes to `top` never fail. |
| MatrixStack.PopUndoesPush | src/js/matrixStack.js:8-18 | A pop right after a push gives back the state before the push. |
| MatrixStack.PushAfterPop | src/js/matrixStack.js:8-18 | On a non-empty saved list, a push right after a pop gives back the saved list, with the restored copy as `top`. |
| MatrixStack.RunFits | src/js/matrixStack.js:8-18 | A sequence that never pops below `depth` saved entries runs without underflow. The saved list's length changes by pushes minus pops, and the entries below `depth` are untouched. |
| MatrixStack.BalancedKeepsSaved | src/js/matrixStack.js:8-18 | A balanced push/pop sequence never throws and leaves the saved list exactly as it was. |
| MatrixStack.RunAppend | src/js/matrixStack.js:8-18 | Running two sequences one after the other equals running their concatenation, and an underflow stops the run. |
| MatrixStack.ScopedRestores | src/js/matrixStack.js:8-18 | Push, any balanced sequence of changes to `top` and nested push/pop pairs, then pop, restores both `top` and the saved list. This holds because the saved entry is a copy. |
| MatrixStack.PopEmptyUnderflows | src/js/matrixStack.js:14-16 | A pop with nothing saved underflows, whatever follows. |
| MatrixStack.MatrixStack.constructor | src/js/matrixStack.js:4-7 | A new stack has `top` equal to the created matrix and an empty saved list. |
| MatrixStack.MatrixStack.Push | src/js/matrixStack.js:8-12 | `top` is unchanged, its value is appended to the saved list, and the step agrees with `Step`. |
| MatrixStack.MatrixStack.Pop | src/js/matrixStack.js:13-18 | On an empty list it fails with "Too many calls to MatrixStack.pop()" and changes nothing. Otherwise `top` becomes the last saved value and the list loses it. Agrees with `Step`. |
| MatrixStack.MatrixStack.GetTop | src/js/matrixStack.js:19-21 | Returns `top` and changes nothing. |
| TreeNodes.TreeNode.constructor | src/js/tree.js:149-154 | A new node has the given position and radius, no parent and no children. It is valid, with a one-node footprint and a leaf shape. |
| TreeNodes.TreeNode.AddChild | src/js/tree.js:155-158 | `node` becomes the last child and earlier children are unchanged. Its parent becomes the receiver. A valid receiver stays valid apart from the new, still-growing last child. |
| LSystem.Len | src/js/tree.js:190-197 | `defLen` when `numIter >= maxIter`, and `defLen * elongationRate^(maxIter - numIter)` otherwise. |
| LSystem.Radius | src/js/tree.js:198-205 | `defRadius` when `numIter >= maxIter`, and `defRadius * thickenningRate^(maxIter - numIter)` otherwise. |
| LSystem.PowGrows | src/js/tree.js:190-205 | A rate of at least 1 applied more often never gives less, and never less than 1. |
| LSystem.LevelsTaper | src/js/tree.js:190-205 | With rates of at least 1 and non-negative defaults, segment length and radius do not grow with the level. |
| LSystem.ContSize | src/js/tree.js:221-253 | `A(n, ·)` adds `2 * 3^k - 2` joints for `k` remaining levels. |
| LSystem.SkeletonSize | src/js/tree.js:182-188 | The finished skeleton has `2 * 3^maxIter` joints. |
| LSystem.ContHeight | src/js/tree.js:221-253 | What `A(n, ·)` adds is `2k` joints deep. |
| LSystem.SkeletonHeight | src/js/tree.js:182-188 | The skeleton is `2 * maxIter + 2` joints deep. |
| LSystem.ContAlternates | src/js/tree.js:221-253 | `A(n, ·)` adds nothing at or past `maxIter`, and exactly one joint otherwise. That joint has exactly three children, each with at most one child of the same kind, all the way down. |
| LSystem.SkeletonAlternates | src/js/tree.js:182-188 | The root has exactly one child, the trunk, and the alternation holds below it. |
| LSystem.ContTapered | src/js/tree.js:226-251 | With `thickenningRate >= 1` and `defRadius >= 0`, no joint `A` adds is thicker than its parent or than level `n`. |
| LSystem.SkeletonTapered | src/js/tree.js:182-188 | With `thickenningRate >= 1` and `defRadius >= 0`, no joint of the skeleton is thicker than its parent. |
| LSystem.TreeLSystem.constructor | src/js/tree.js:168-189 | The root is valid, has exactly one child and has the shape `Skeleton(p, gl)`. The stack ends with nothing saved. |
| LSystem.TreeLSystem.Trunk | src/js/tree.js:184-188 | The trunk joint is three level-0 segments above the root and is expanded by `A(0, ·)`. The whole tree equals `Skeleton`, and the saved list is unchanged. |
| LSystem.TreeLSystem.F | src/js/tree.js:206-214 | Moves `top` forward by `len` and returns where its origin lands. |
| LSystem.TreeLSystem.X | src/js/tree.js:215-217 | Rotates `top` about local X by `angle`. |
| LSystem.TreeLSystem.Y | src/js/tree.js:218-220 | Rotates `top` about local Y by `angle`. |
| LSystem.TreeLSystem.A | src/js/tree.js:221-253 | Past `maxIter` it adds nothing. Otherwise it appends exactly one child, with exactly three children, and keeps earlier children. The node's new shape is `Cont`, `top` ends at `TopAfter`, and the saved list is unchanged. |
| LSystem.TreeLSystem.Sprout | src/js/tree.js:226-253 | The continuation joint is appended with the three branches in order, and `top` ends after the two azimuth turns. |
| LSystem.TreeLSystem.Fan | src/js/tree.js:229-252 | The three bracketed branches hang in order from the continuation joint, separated by the two divergence turns. |
| LSystem.TreeLSystem.Branch | src/js/tree.js:229-234 | One `push … pop` bracket appends exactly the branch `Sub`. The pop never throws, and `top` and the saved list are restored. |
| LSystem.TreeLSystem.Limb | src/js/tree.js:230-233 | The inside of one bracket appends exactly the branch `Sub` grown from the current `top`, and the saved list is unchanged. |
| LSystem.TreeLSystem.Grow | src/js/tree.js:231-233 | A new joint is appended as the last child and expanded by `A(n, ·)` from the current transform. |
| TreeMesh.Frac | src/js/tree.js:125-126 | `x - floor(x)` lies in [0, 1) and is a whole number away from `x`. |
| TreeMesh.FracUnique | src/js/tree.js:125-126 | It is the only value in [0, 1) that is a whole number away from `x`. |
| TreeMesh.RingFacesAt | src/js/tree.js:106-112 | Segment `i` of a band has the two triangles `(pf+i, f+i, pf+(i+1)%radial)` and `(pf+(i+1)%radial, f+i, f+(i+1)%radial)`. |
| TreeMesh.RingFacesInBand | src/js/tree.js:106-112 | In every band triangle the first corner is in the parent ring and the second in the own ring. The third is in the parent ring for even triangles and the own ring for odd ones. |
| TreeMesh.UInUnit | src/js/tree.js:114-117 | `i * (1 / radial)` lies in [0, 1] for `0 <= i <= radial`. |
| TreeMesh.RingUvsOnBand | src/js/tree.js:114-120 | Every UV corner of a band has U in [0, 1]. Its V is either the parent's offset `t0` or `t0 + h`, the latter not wrapped. The middle corner has V `t0 + h`. |
| TreeMesh.VertsPerJoint | src/js/tree.js:123-136 | A walk over a subtree emits `radial` vertices per joint. |
| TreeMesh.StartAfterSiblings | src/js/tree.js:159-164 | Child `i`'s ring starts after the parent's ring and all vertices of the earlier children's subtrees. |
| TreeMesh.StartPastLast | src/js/tree.js:159-164 | After the last child, the parent's whole subtree has been emitted. |
| TreeMesh.StartIsPreOrder | src/js/tree.js:159-164 | Child `i`'s ring starts at `radial` times the number of joints before it in pre-order. |
| TreeMesh.RingVertsAt | src/js/tree.js:94-104 | Vertex `i` of a non-root ring is the `ringPoint` of the segment from the parent to the joint for segment `i`. |
| TreeMesh.RootVertsAt | src/js/tree.js:128-134 | Vertex `i` of the root ring is its `rootPoint` for segment `i`. |
| TreeMesh.WalkVertsAppends | src/js/tree.js:159-164 | The vertex walk keeps what was there before and, independently of it, adds `radial` vertices per joint below the start. |
| TreeMesh.KidsVertsAppend | src/js/tree.js:159-164 | The same over the first `i` children: the vertices added end where `Start` puts child `i`. |
| TreeMesh.WalkFacesAppends | src/js/tree.js:159-164 | The triangle walk keeps what was there before and, independently of it, adds `2 * radial` triangles per joint below the start. |
| TreeMesh.KidsFacesAppend | src/js/tree.js:159-164 | The same over the first `i` children: twice the vertices those children's subtrees take. |
| TreeMesh.WalkUvsAppends | src/js/tree.js:159-164 | The UV walk keeps what was there before and, independently of it, adds `2 * radial` UV triples per joint below the start. |
| TreeMesh.KidsUvsAppend | src/js/tree.js:159-164 | The same over the first `i` children. |
| TreeMesh.ChildRingFirst | src/js/tree.js:94-104 | What the walk emits for child `i` begins with that child's ring, around the segment from the parent. |
| TreeMesh.ChildBandFirst | src/js/tree.js:106-112 | The triangles emitted for child `i` begin with the band from the parent's ring at `first` to the child's ring at `Start(i)`. |
| TreeMesh.ChildUvBandFirst | src/js/tree.js:114-120 | The UV triples emitted for child `i` begin with the band's triples from the parent's offset up by the segment's height. |
| TreeMesh.PlacedExtends | src/js/tree.js:102-120 | Appending to the lists keeps every placed ring and band where it was. |
| TreeMesh.ChildPlacedExtends | src/js/tree.js:102-120 | The same for one child's ring and band. |
| TreeMesh.WalkPlaces | src/js/tree.js:102-120 | A walk that starts with `first + radial` vertices and `2 * first` triangles and UV triples places every joint below: each ring at its `Start`, each band from the parent's ring, each band's UVs from the parent's offset. |
| TreeMesh.KidsPlace | src/js/tree.js:159-164 | The same over the first `i` children, whose lists end exactly at `Start(i)`. |
| TreeMesh.ChildPlaces | src/js/tree.js:162 | Emitting child `i` places it and keeps its earlier siblings placed. |
| TreeMesh.NewChildPlaced | src/js/tree.js:102-120 | Child `i`, emitted right after lists that end at its `Start`, has its ring, band and band UVs at the positions `Start(i)` gives. |
| TreeMesh.TreeGeometry.constructor | src/js/tree.js:59-146 | The walk from the root leaves the skeleton and a well-formed mesh. The vertices are the root ring then `WalkVerts` of the skeleton, and the triangles and UV triples are `WalkFaces` and `WalkUvs` of it. Every joint's ring, band and band UVs sit at the positions its ring index gives (`Placed`). There are `radial * joints` vertices and `2 * radial * (joints - 1)` triangles. The root's ring is at 0 with V offset 0, and every joint is meshed. |
| TreeMesh.TreeGeometry.Traverse | src/js/tree.js:159-164 | Visits the node, then its children's subtrees in order. Each list becomes its old contents, then the node's own ring (and band to the parent's ring), then the walk below the node. It adds `radial` vertices per joint, puts the node's ring at the count it found, wraps the V offset from the parent's, and meshes the subtree in pre-order. |
| TreeMesh.TreeGeometry.TraverseChildren | src/js/tree.js:161-163 | Children's subtrees in stored order, appended after the node's own ring. Each child's ring starts after everything emitted before it, every child is meshed, and the lists end as the walk of the node's subtree. |
| TreeMesh.TreeGeometry.Finished | src/js/tree.js:161-163 | Once every child is walked, the node's own emission followed by its children's walks is the walk of its subtree. |
| TreeMesh.TreeGeometry.Descend | src/js/tree.js:162 | One turn of the loop: the lists grow by exactly child `i`'s emission, and child `i` is placed at its pre-order start. Earlier siblings stay meshed. |
| TreeMesh.TreeGeometry.Subtree | src/js/tree.js:162 | Child `i`'s whole subtree is appended to each list: its ring and band, then its walk. The child starts at `Start(i)` and the count reaches `Start(i + 1)`. |
| TreeMesh.TreeGeometry.EmitRing | src/js/tree.js:94-121 | One vertex, two triangles and two UV triples per segment. These are exactly `RingVerts`, `RingFaces` and `RingUvs`, appended to the earlier lists. |
| TreeMesh.TreeGeometry.Visit | src/js/tree.js:81-140 | Root: ring at 0, V offset 0, the `RootVerts` ring appended, and no triangles. Other joints: the ring at the current count, with `RingVerts`, the band's `RingFaces` and `RingUvs` appended and V offset `Frac(parent + texHeight)`. The count grows by `radial` and the mesh stays well formed. |
| TreeMesh.PresetSize | src/js/tree.js:14-57 | Each preset skeleton (`maxIter = 5`) has 486 joints. |
| TreeMesh.TreeModels | src/js/tree.js:14-57 | Four trees with the listed parameters in order, each with 6 radial segments, 2916 vertices and 5820 triangles. |
| TreeMesh.NewPreset | src/js/tree.js:16-24 | One preset tree with 6 radial segments, 2916 vertices and 5820 triangles. |

## Left out

- The gl-matrix operations are uninterpreted function values. These are translate, rotate, `multiplyVec3`, and `vec3.direction/length/subtract`. They are floating-point library code that is not part of this model. Positions and transforms are whatever those functions return.
- `degToRad` is folded into the uninterpreted rotations, which take degrees.
- The ring vertex coordinates, the root ring's `cos`/`sin` points and the `texHeight` formula (length over `radius * 6.28`) are `MeshMath` function values, for the same reason.
- Reals stand for JavaScript doubles. Rounding, `Infinity` and `NaN` are not modelled. In particular `i * (1 / radial)` at `i = radial` is exactly 1 here.
- Normals and `toBufferGeometry` are not modelled. These are `computeFaceNormals`, `computeVertexNormals` and the buffer conversion (three.js code that is not part of this model).
- The mesh lists are fields of `TreeGeometry`. The original keeps the three.js `Geometry` and `verticesNum` local to the constructor. Only the lists and the counter are modelled, not the `Geometry` object.
- `traverse(action)` is modelled with the builder's action inlined (`Visit`). Its loop over the children is `TraverseChildren`/`Descend`. No other action exists in the code.
- TreeNodes.TreeNode.constructor: it sets `firstIndex` and `texOffset` to 0, where the original leaves them undefined until the walk writes them.
- TreeMesh.TreeGeometry.Traverse: it requires a walk from the root to start with no vertices. The only caller, the constructor, does so.
- `radialSegments` is a `nat`. With 0 no ring loop runs and no `%` is evaluated, as in the original. Negative or fractional values are not modelled.
- The render loop, scene, environment and server files are not part of this model.
