/**
 * The mesh index builder (`TreeGeometry`, src/js/tree.js:59-146) and the
 * four preset trees (`TreeModels`, src/js/tree.js:14-57).
 *
 * The builder walks the skeleton in pre-order. Every joint gets a ring of
 * `radial` vertices starting at `firstIndex`; every joint but the root
 * joins its ring to its parent's with `2 * radial` triangles, each with
 * one triple of texture coordinates; the V coordinate climbs by the
 * segment's `texHeight` and wraps into [0, 1).
 *
 * Vertex coordinates and `texHeight` come from floating-point and library
 * code that is not part of this model: they are supplied as function
 * values (`MeshMath`), so what is proved is the index, count and wrap
 * bookkeeping, whatever those computations return.
 */
module TreeMesh {
  import opened GlMatrix
  import opened TreeNodes
  import opened LSystem

  /** A triangle: three vertex indices. */
  datatype Face3 = Face3(a: int, b: int, c: int)

  /** A texture coordinate. */
  datatype Uv = Uv(u: real, v: real)

  /** The texture coordinates of one triangle's three corners. */
  datatype UvTriple = UvTriple(a: Uv, b: Uv, c: Uv)

  /**
   * The floating-point parts of the builder, left uninterpreted.
   *   ringPoint:  (parent position, position, radius, i, radial) gives
   *               vertex `i` of a non-root ring (rotation about the branch)
   *   rootPoint:  (position, radius, i, radial) gives vertex `i` of the
   *               root ring (cosine and sine of the angle)
   *   texHeight:  (parent position, position, radius) gives the V length
   *               of the segment ending at a joint
   */
  datatype MeshMath = MeshMath(
    ringPoint: (Vec3, Vec3, real, int, int) -> Vec3,
    rootPoint: (Vec3, real, int, int) -> Vec3,
    texHeight: (Vec3, Vec3, real) -> real)

  /** `y` is a whole number. */
  predicate IsWhole(y: real) {
    y == y.Floor as real
  }

  /** `x - Math.floor(x)`: the fractional part, in [0, 1), a whole number away from `x`. */
  function Frac(x: real): (r: real)
    ensures 0.0 <= r < 1.0
    ensures IsWhole(x - r)
  {
    x - x.Floor as real
  }

  /** The fractional part is the only value in [0, 1) a whole number away from `x`. */
  lemma FracUnique(x: real, y: real)
    requires 0.0 <= y < 1.0 && IsWhole(x - y)
    ensures y == Frac(x)
  {
    var k := (x - y).Floor;
    assert x - y == k as real;
    assert k as real <= x < k as real + 1.0;
    assert x.Floor == k;
  }

  /**
   * The triangles of the band between a parent ring starting at `pf` and
   * a ring starting at `f`, for the first `k` of `radial` segments: two
   * per segment, wrapping from the last segment back to the first.
   */
  function RingFaces(pf: int, f: int, radial: nat, k: nat): (r: seq<Face3>)
    requires k <= radial
    ensures |r| == 2 * k
  {
    if k == 0 then []
    else
      var i := k - 1;
      RingFaces(pf, f, radial, i) +
        [Face3(pf + i, f + i, pf + (i + 1) % radial), Face3(pf + (i + 1) % radial, f + i, f + (i + 1) % radial)]
  }

  /** Segment `i` of the band is the quad on parent vertices `i`, `i+1` and own vertices `i`, `i+1`, modulo `radial`. */
  lemma {:induction false} RingFacesAt(pf: int, f: int, radial: nat, k: nat, i: nat)
    requires k <= radial && i < k
    ensures RingFaces(pf, f, radial, k)[2 * i] == Face3(pf + i, f + i, pf + (i + 1) % radial)
    ensures RingFaces(pf, f, radial, k)[2 * i + 1] == Face3(pf + (i + 1) % radial, f + i, f + (i + 1) % radial)
    decreases k
  {
    if i < k - 1 {
      RingFacesAt(pf, f, radial, k - 1, i);
    }
  }

  /** Index `x` lies in the ring of `radial` vertices starting at `start`. */
  predicate InRing(x: int, start: int, radial: nat) {
    start <= x < start + radial
  }

  /**
   * Every triangle of the band takes its first corner from the parent ring,
   * its second from the own ring, and its third from the parent ring for
   * the first triangle of a segment and from the own ring for the second.
   */
  lemma RingFacesInBand(pf: int, f: int, radial: nat)
    ensures forall j :: 0 <= j < 2 * radial ==>
      InRing(RingFaces(pf, f, radial, radial)[j].a, pf, radial) &&
      InRing(RingFaces(pf, f, radial, radial)[j].b, f, radial) &&
      InRing(RingFaces(pf, f, radial, radial)[j].c, if j % 2 == 0 then pf else f, radial)
  {
    forall j | 0 <= j < 2 * radial
      ensures InRing(RingFaces(pf, f, radial, radial)[j].a, pf, radial)
      ensures InRing(RingFaces(pf, f, radial, radial)[j].b, f, radial)
      ensures InRing(RingFaces(pf, f, radial, radial)[j].c, if j % 2 == 0 then pf else f, radial)
    {
      RingFacesAt(pf, f, radial, radial, j / 2);
    }
  }

  /** `i * (1 / radialSegments)`: the U coordinate of ring vertex `i`. */
  function U(i: int, radial: nat): real
    requires 0 < radial
  {
    i as real * (1.0 / radial as real)
  }

  /** For `0 <= i <= radial` the U coordinate lies in [0, 1]. */
  lemma UInUnit(i: int, radial: nat)
    requires 0 <= i <= radial && 0 < radial
    ensures 0.0 <= U(i, radial) <= 1.0
  {
    var step := 1.0 / radial as real;
    assert 0.0 < step && radial as real * step == 1.0;
    assert i as real * step <= radial as real * step;
  }

  /**
   * The texture coordinates of the band's triangles: U runs around the ring
   * in steps of `1 / radial`, V is `t0` on the parent ring and `t0 + h` on
   * the own ring.
   */
  function RingUvs(t0: real, h: real, radial: nat, k: nat): (r: seq<UvTriple>)
    requires k <= radial
    ensures |r| == 2 * k
  {
    if k == 0 then []
    else
      var i := k - 1;
      var uva, uvb := Uv(U(i, radial), t0), Uv(U(i + 1, radial), t0);
      var uvc, uvd := Uv(U(i, radial), t0 + h), Uv(U(i + 1, radial), t0 + h);
      RingUvs(t0, h, radial, i) + [UvTriple(uva, uvc, uvb), UvTriple(uvb, uvc, uvd)]
  }

  /** A corner on the parent ring (V = `t0`) or on the own ring (V = `t0 + h`) with U in [0, 1]. */
  predicate OnBand(uv: Uv, t0: real, h: real) {
    0.0 <= uv.u <= 1.0 && (uv.v == t0 || uv.v == t0 + h)
  }

  /**
   * Every texture coordinate of the band has U in [0, 1] and V on one of
   * the two rings; each triangle's middle corner is on the own ring.
   */
  lemma {:induction false} RingUvsOnBand(t0: real, h: real, radial: nat, k: nat)
    requires k <= radial
    ensures forall j :: 0 <= j < 2 * k ==>
      OnBand(RingUvs(t0, h, radial, k)[j].a, t0, h) &&
      OnBand(RingUvs(t0, h, radial, k)[j].b, t0, h) &&
      OnBand(RingUvs(t0, h, radial, k)[j].c, t0, h) &&
      RingUvs(t0, h, radial, k)[j].b.v == t0 + h
    decreases k
  {
    if k > 0 {
      RingUvsOnBand(t0, h, radial, k - 1);
      UInUnit(k - 1, radial);
      UInUnit(k, radial);
    }
  }

  /**
   * The first `k` vertices of a non-root ring: vertex `i` is the `ringPoint`
   * of the segment from `from` to `to` with radius `r`.
   */
  function RingVerts(mesh: MeshMath, from: Vec3, to: Vec3, r: real, radial: nat, k: nat): (s: seq<Vec3>)
    ensures |s| == k
  {
    if k == 0 then [] else RingVerts(mesh, from, to, r, radial, k - 1) + [mesh.ringPoint(from, to, r, k - 1, radial)]
  }

  /** Vertex `i` of a non-root ring is its `ringPoint`. */
  lemma {:induction false} RingVertsAt(mesh: MeshMath, from: Vec3, to: Vec3, r: real, radial: nat, k: nat, i: nat)
    requires i < k
    ensures RingVerts(mesh, from, to, r, radial, k)[i] == mesh.ringPoint(from, to, r, i, radial)
    decreases k
  {
    if i < k - 1 {
      RingVertsAt(mesh, from, to, r, radial, k - 1, i);
    }
  }

  /** The first `k` vertices of the root ring: vertex `i` is its `rootPoint`. */
  function RootVerts(mesh: MeshMath, at: Vec3, r: real, radial: nat, k: nat): (s: seq<Vec3>)
    ensures |s| == k
  {
    if k == 0 then [] else RootVerts(mesh, at, r, radial, k - 1) + [mesh.rootPoint(at, r, k - 1, radial)]
  }

  /** Vertex `i` of the root ring is its `rootPoint`. */
  lemma {:induction false} RootVertsAt(mesh: MeshMath, at: Vec3, r: real, radial: nat, k: nat, i: nat)
    requires i < k
    ensures RootVerts(mesh, at, r, radial, k)[i] == mesh.rootPoint(at, r, i, radial)
    decreases k
  {
    if i < k - 1 {
      RootVertsAt(mesh, at, r, radial, k - 1, i);
    }
  }

  /** With `n` rings of `r` vertices, the `n - 1` bands hold `2 * r` triangles each. */
  lemma BandCount(r: nat, n: nat)
    requires 1 <= n
    ensures (if r * n == 0 then 0 else 2 * (r * n - r)) == 2 * r * (n - 1)
  {
    Scale(r, n, n - 1, 1);
    Scale(2, r * (n - 1), r * (n - 1), 0);
  }

  /**
   * The vertices a walk emits for the subtree `t`: one ring of `r` per
   * joint, counted by addition along the tree.
   */
  function Verts(t: Tree, r: nat): nat
    decreases t, 1
  {
    r + VertsOf(t.children, r)
  }

  /** The vertices a walk emits for a forest, tree by tree. */
  function VertsOf(ts: seq<Tree>, r: nat): nat
    decreases ts, 0
  {
    if ts == [] then 0 else VertsOf(ts[..|ts| - 1], r) + Verts(ts[|ts| - 1], r)
  }

  /** A subtree's vertex count is `r` per joint. */
  lemma {:induction false} VertsPerJoint(t: Tree, r: nat)
    ensures Verts(t, r) == r * Size(t)
    decreases t, 1
  {
    VertsOfPerJoint(t.children, r);
    Scale(r, Size(t), 1, SizeOf(t.children));
  }

  /** A forest's vertex count is `r` per joint. */
  lemma {:induction false} VertsOfPerJoint(ts: seq<Tree>, r: nat)
    ensures VertsOf(ts, r) == r * SizeOf(ts)
    decreases ts, 0
  {
    if ts != [] {
      var last := ts[|ts| - 1];
      VertsOfPerJoint(ts[..|ts| - 1], r);
      VertsPerJoint(last, r);
      Scale(r, SizeOf(ts), SizeOf(ts[..|ts| - 1]), Size(last));
    }
  }

  /**
   * Where child `i` of `t` starts its ring when `t`'s ring starts at
   * `base`: the first child right after `t`'s own `r` vertices, each later
   * child after the whole subtree of the one before.
   */
  function Start(t: Tree, base: int, r: nat, i: nat): int
    requires i <= |t.children|
  {
    if i == 0 then base + r else Start(t, base, r, i - 1) + Verts(t.children[i - 1], r)
  }

  /** Child `i` starts after `t`'s ring and the vertices of the earlier children's subtrees. */
  lemma {:induction false} StartAfterSiblings(t: Tree, base: int, r: nat, i: nat)
    requires i <= |t.children|
    ensures Start(t, base, r, i) == base + r + VertsOf(t.children[..i], r)
    decreases i
  {
    if i > 0 {
      StartAfterSiblings(t, base, r, i - 1);
      assert t.children[..i][..i - 1] == t.children[..i - 1];
    }
  }

  /** Past the last child, the whole subtree of `t` has been placed. */
  lemma StartPastLast(t: Tree, base: int, r: nat)
    ensures Start(t, base, r, |t.children|) == base + Verts(t, r)
  {
    StartAfterSiblings(t, base, r, |t.children|);
    assert t.children[..|t.children|] == t.children;
  }

  /**
   * Child `i` starts `r` times the number of joints that precede it in
   * pre-order within `t`: `t` itself and the subtrees of its earlier children.
   */
  lemma StartIsPreOrder(t: Tree, base: int, r: nat, i: nat)
    requires i <= |t.children|
    ensures Start(t, base, r, i) == base + r * (1 + SizeOf(t.children[..i]))
  {
    StartAfterSiblings(t, base, r, i);
    VertsOfPerJoint(t.children[..i], r);
    Scale(r, 1 + SizeOf(t.children[..i]), 1, SizeOf(t.children[..i]));
  }

  /** Scaling a count that is a sum scales each part. */
  lemma Scale(r: nat, z: nat, x: nat, y: nat)
    requires z == x + y
    ensures r * z == r * x + r * y
  {
  }

  /** Every corner of every triangle names a vertex that exists. */
  predicate FacesBelow(faces: seq<Face3>, count: int) {
    forall j :: 0 <= j < |faces| ==>
      0 <= faces[j].a < count && 0 <= faces[j].b < count && 0 <= faces[j].c < count
  }

  /**
   * `acc` followed by the vertices a walk emits below the joint `t`: for
   * each child in order, the child's ring around the segment from `t`, then
   * the vertices below the child.
   */
  function WalkVerts(acc: seq<Vec3>, mesh: MeshMath, radial: nat, t: Tree): seq<Vec3>
    decreases t, 2, 0
  {
    KidsVerts(acc, mesh, radial, t, |t.children|)
  }

  /** `WalkVerts` over the first `i` children of `t`. */
  function KidsVerts(acc: seq<Vec3>, mesh: MeshMath, radial: nat, t: Tree, i: nat): seq<Vec3>
    requires i <= |t.children|
    decreases t, 1, i
  {
    if i == 0 then acc else ChildVerts(KidsVerts(acc, mesh, radial, t, i - 1), mesh, radial, t, i - 1)
  }

  /** `acc` followed by child `i`'s ring and the vertices below child `i`. */
  function ChildVerts(acc: seq<Vec3>, mesh: MeshMath, radial: nat, t: Tree, i: nat): seq<Vec3>
    requires i < |t.children|
    decreases t, 0, i
  {
    var c := t.children[i];
    WalkVerts(acc + RingVerts(mesh, t.position, c.position, c.radius, radial, radial), mesh, radial, c)
  }

  /**
   * `acc` followed by the triangles a walk emits below the joint `t` whose
   * ring starts at `first`: for each child in order, the band from `t`'s
   * ring to the child's ring at its `Start`, then the triangles below the
   * child.
   */
  function WalkFaces(acc: seq<Face3>, radial: nat, t: Tree, first: int): seq<Face3>
    decreases t, 2, 0
  {
    KidsFaces(acc, radial, t, first, |t.children|)
  }

  /** `WalkFaces` over the first `i` children of `t`. */
  function KidsFaces(acc: seq<Face3>, radial: nat, t: Tree, first: int, i: nat): seq<Face3>
    requires i <= |t.children|
    decreases t, 1, i
  {
    if i == 0 then acc else ChildFaces(KidsFaces(acc, radial, t, first, i - 1), radial, t, first, i - 1)
  }

  /** `acc` followed by child `i`'s band and the triangles below child `i`. */
  function ChildFaces(acc: seq<Face3>, radial: nat, t: Tree, first: int, i: nat): seq<Face3>
    requires i < |t.children|
    decreases t, 0, i
  {
    var s := Start(t, first, radial, i);
    WalkFaces(acc + RingFaces(first, s, radial, radial), radial, t.children[i], s)
  }

  /**
   * `acc` followed by the UV triples a walk emits below the joint `t` whose
   * V offset is `offset`: for each child in order, the band's triples from
   * `offset` up by the segment's height, then the triples below the child,
   * whose offset is `offset` plus that height, wrapped.
   */
  function WalkUvs(acc: seq<UvTriple>, mesh: MeshMath, radial: nat, t: Tree, offset: real): seq<UvTriple>
    decreases t, 2, 0
  {
    KidsUvs(acc, mesh, radial, t, offset, |t.children|)
  }

  /** `WalkUvs` over the first `i` children of `t`. */
  function KidsUvs(acc: seq<UvTriple>, mesh: MeshMath, radial: nat, t: Tree, offset: real, i: nat): seq<UvTriple>
    requires i <= |t.children|
    decreases t, 1, i
  {
    if i == 0 then acc else ChildUvs(KidsUvs(acc, mesh, radial, t, offset, i - 1), mesh, radial, t, offset, i - 1)
  }

  /** `acc` followed by child `i`'s band triples and the triples below child `i`. */
  function ChildUvs(acc: seq<UvTriple>, mesh: MeshMath, radial: nat, t: Tree, offset: real, i: nat): seq<UvTriple>
    requires i < |t.children|
    decreases t, 0, i
  {
    var c := t.children[i];
    var h := mesh.texHeight(t.position, c.position, c.radius);
    WalkUvs(acc + RingUvs(offset, h, radial, radial), mesh, radial, c, Frac(offset + h))
  }

  /**
   * A walk only appends: it keeps `acc` and adds, independently of `acc`,
   * `radial` vertices for every joint below `t`.
   */
  lemma {:induction false} WalkVertsAppends(acc: seq<Vec3>, mesh: MeshMath, radial: nat, t: Tree)
    ensures WalkVerts(acc, mesh, radial, t) == acc + WalkVerts([], mesh, radial, t)
    ensures |WalkVerts([], mesh, radial, t)| == Verts(t, radial) - radial
    decreases t, 1, 0
  {
    KidsVertsAppend(acc, mesh, radial, t, |t.children|);
    StartPastLast(t, 0, radial);
  }

  /** `WalkVertsAppends` over the first `i` children of `t`. */
  lemma {:induction false} KidsVertsAppend(acc: seq<Vec3>, mesh: MeshMath, radial: nat, t: Tree, i: nat)
    requires i <= |t.children|
    ensures KidsVerts(acc, mesh, radial, t, i) == acc + KidsVerts([], mesh, radial, t, i)
    ensures |KidsVerts([], mesh, radial, t, i)| == Start(t, 0, radial, i) - radial
    decreases t, 0, i
  {
    if i > 0 {
      var c := t.children[i - 1];
      var ring := RingVerts(mesh, t.position, c.position, c.radius, radial, radial);
      var k, k0 := KidsVerts(acc, mesh, radial, t, i - 1), KidsVerts([], mesh, radial, t, i - 1);
      KidsVertsAppend(acc, mesh, radial, t, i - 1);
      WalkVertsAppends(k + ring, mesh, radial, c);
      WalkVertsAppends(k0 + ring, mesh, radial, c);
      assert (acc + k0) + ring + WalkVerts([], mesh, radial, c) == acc + (k0 + ring + WalkVerts([], mesh, radial, c));
    }
  }

  /**
   * A walk only appends: it keeps `acc` and adds, independently of `acc`,
   * `2 * radial` triangles for every joint below `t`.
   */
  lemma {:induction false} WalkFacesAppends(acc: seq<Face3>, radial: nat, t: Tree, first: int)
    ensures WalkFaces(acc, radial, t, first) == acc + WalkFaces([], radial, t, first)
    ensures |WalkFaces([], radial, t, first)| == 2 * (Verts(t, radial) - radial)
    decreases t, 1, 0
  {
    KidsFacesAppend(acc, radial, t, first, |t.children|);
    StartPastLast(t, first, radial);
  }

  /** `WalkFacesAppends` over the first `i` children of `t`. */
  lemma {:induction false} KidsFacesAppend(acc: seq<Face3>, radial: nat, t: Tree, first: int, i: nat)
    requires i <= |t.children|
    ensures KidsFaces(acc, radial, t, first, i) == acc + KidsFaces([], radial, t, first, i)
    ensures |KidsFaces([], radial, t, first, i)| == 2 * (Start(t, first, radial, i) - first - radial)
    decreases t, 0, i
  {
    if i > 0 {
      var c, s := t.children[i - 1], Start(t, first, radial, i - 1);
      var band := RingFaces(first, s, radial, radial);
      var k, k0 := KidsFaces(acc, radial, t, first, i - 1), KidsFaces([], radial, t, first, i - 1);
      KidsFacesAppend(acc, radial, t, first, i - 1);
      WalkFacesAppends(k + band, radial, c, s);
      WalkFacesAppends(k0 + band, radial, c, s);
      assert (acc + k0) + band + WalkFaces([], radial, c, s) == acc + (k0 + band + WalkFaces([], radial, c, s));
    }
  }

  /**
   * A walk only appends: it keeps `acc` and adds, independently of `acc`,
   * `2 * radial` UV triples for every joint below `t`.
   */
  lemma {:induction false} WalkUvsAppends(acc: seq<UvTriple>, mesh: MeshMath, radial: nat, t: Tree, offset: real)
    ensures WalkUvs(acc, mesh, radial, t, offset) == acc + WalkUvs([], mesh, radial, t, offset)
    ensures |WalkUvs([], mesh, radial, t, offset)| == 2 * (Verts(t, radial) - radial)
    decreases t, 1, 0
  {
    KidsUvsAppend(acc, mesh, radial, t, offset, |t.children|);
    StartPastLast(t, 0, radial);
  }

  /** `WalkUvsAppends` over the first `i` children of `t`. */
  lemma {:induction false} KidsUvsAppend(acc: seq<UvTriple>, mesh: MeshMath, radial: nat, t: Tree, offset: real, i: nat)
    requires i <= |t.children|
    ensures KidsUvs(acc, mesh, radial, t, offset, i) == acc + KidsUvs([], mesh, radial, t, offset, i)
    ensures |KidsUvs([], mesh, radial, t, offset, i)| == 2 * (Start(t, 0, radial, i) - radial)
    decreases t, 0, i
  {
    if i > 0 {
      var c := t.children[i - 1];
      var h := mesh.texHeight(t.position, c.position, c.radius);
      var band, o := RingUvs(offset, h, radial, radial), Frac(offset + h);
      var k, k0 := KidsUvs(acc, mesh, radial, t, offset, i - 1), KidsUvs([], mesh, radial, t, offset, i - 1);
      KidsUvsAppend(acc, mesh, radial, t, offset, i - 1);
      WalkUvsAppends(k + band, mesh, radial, c, o);
      WalkUvsAppends(k0 + band, mesh, radial, c, o);
      assert (acc + k0) + band + WalkUvs([], mesh, radial, c, o) == acc + (k0 + band + WalkUvs([], mesh, radial, c, o));
    }
  }

  /**
   * What the walk emits for child `i` of `t` starts with the child's ring:
   * `radial` vertices around the segment from `t` to the child.
   */
  lemma ChildRingFirst(acc: seq<Vec3>, mesh: MeshMath, radial: nat, t: Tree, i: nat)
    requires i < |t.children|
    ensures var c := t.children[i];
      acc + RingVerts(mesh, t.position, c.position, c.radius, radial, radial) <= ChildVerts(acc, mesh, radial, t, i)
  {
    var c := t.children[i];
    WalkVertsAppends(acc + RingVerts(mesh, t.position, c.position, c.radius, radial, radial), mesh, radial, c);
  }

  /**
   * What the walk emits for child `i` of `t` starts with the band joining
   * `t`'s ring at `first` to the child's ring at its `Start`.
   */
  lemma ChildBandFirst(acc: seq<Face3>, radial: nat, t: Tree, first: int, i: nat)
    requires i < |t.children|
    ensures acc + RingFaces(first, Start(t, first, radial, i), radial, radial) <= ChildFaces(acc, radial, t, first, i)
  {
    var s := Start(t, first, radial, i);
    WalkFacesAppends(acc + RingFaces(first, s, radial, radial), radial, t.children[i], s);
  }

  /**
   * The UV triples emitted for child `i` of `t` start with the band's
   * triples, from `t`'s offset up by the segment's height.
   */
  lemma ChildUvBandFirst(acc: seq<UvTriple>, mesh: MeshMath, radial: nat, t: Tree, offset: real, i: nat)
    requires i < |t.children|
    ensures var c := t.children[i];
      acc + RingUvs(offset, mesh.texHeight(t.position, c.position, c.radius), radial, radial) <= ChildUvs(acc, mesh, radial, t, offset, i)
  {
    var c := t.children[i];
    var h := mesh.texHeight(t.position, c.position, c.radius);
    WalkUvsAppends(acc + RingUvs(offset, h, radial, radial), mesh, radial, c, Frac(offset + h));
  }

  /**
   * In the lists `vs`, `fs`, `us`, every child of `t` (whose ring starts at
   * `first`, with V offset `offset`) and, recursively, every joint below
   * has its ring, band and band UVs where its ring index puts them: the
   * ring at `[s, s + radial)` and the band's triangles and UV triples at
   * `[2 * (s - radial), 2 * s)`, for the child's ring start `s`.
   */
  predicate Placed(vs: seq<Vec3>, fs: seq<Face3>, us: seq<UvTriple>, mesh: MeshMath, radial: nat,
                   t: Tree, first: int, offset: real)
    decreases t, 1
  {
    forall i :: 0 <= i < |t.children| ==> ChildPlaced(vs, fs, us, mesh, radial, t, first, offset, i)
  }

  /** `Placed` for child `i` of `t` alone. */
  predicate ChildPlaced(vs: seq<Vec3>, fs: seq<Face3>, us: seq<UvTriple>, mesh: MeshMath, radial: nat,
                        t: Tree, first: int, offset: real, i: nat)
    requires i < |t.children|
    decreases t, 0
  {
    var c, s := t.children[i], Start(t, first, radial, i);
    var h := mesh.texHeight(t.position, c.position, c.radius);
    0 <= s - radial && s + radial <= |vs| && 2 * s <= |fs| && 2 * s <= |us| &&
    vs[s .. s + radial] == RingVerts(mesh, t.position, c.position, c.radius, radial, radial) &&
    fs[2 * (s - radial) .. 2 * s] == RingFaces(first, s, radial, radial) &&
    us[2 * (s - radial) .. 2 * s] == RingUvs(offset, h, radial, radial) &&
    Placed(vs, fs, us, mesh, radial, c, s, Frac(offset + h))
  }

  /** Appending to the lists keeps everything placed. */
  lemma {:induction false} PlacedExtends(vs: seq<Vec3>, fs: seq<Face3>, us: seq<UvTriple>, mesh: MeshMath, radial: nat,
                                         t: Tree, first: int, offset: real, vs': seq<Vec3>, fs': seq<Face3>, us': seq<UvTriple>)
    requires Placed(vs, fs, us, mesh, radial, t, first, offset)
    ensures Placed(vs + vs', fs + fs', us + us', mesh, radial, t, first, offset)
    decreases t, 1
  {
    forall i | 0 <= i < |t.children|
      ensures ChildPlaced(vs + vs', fs + fs', us + us', mesh, radial, t, first, offset, i)
    {
      ChildPlacedExtends(vs, fs, us, mesh, radial, t, first, offset, i, vs', fs', us');
    }
  }

  /** `PlacedExtends` for child `i` of `t` alone. */
  lemma {:induction false} ChildPlacedExtends(vs: seq<Vec3>, fs: seq<Face3>, us: seq<UvTriple>, mesh: MeshMath, radial: nat,
                                              t: Tree, first: int, offset: real, i: nat,
                                              vs': seq<Vec3>, fs': seq<Face3>, us': seq<UvTriple>)
    requires i < |t.children|
    requires ChildPlaced(vs, fs, us, mesh, radial, t, first, offset, i)
    ensures ChildPlaced(vs + vs', fs + fs', us + us', mesh, radial, t, first, offset, i)
    decreases t, 0
  {
    var c, s := t.children[i], Start(t, first, radial, i);
    var h := mesh.texHeight(t.position, c.position, c.radius);
    assert (vs + vs')[s .. s + radial] == vs[s .. s + radial];
    assert (fs + fs')[2 * (s - radial) .. 2 * s] == fs[2 * (s - radial) .. 2 * s];
    assert (us + us')[2 * (s - radial) .. 2 * s] == us[2 * (s - radial) .. 2 * s];
    PlacedExtends(vs, fs, us, mesh, radial, c, s, Frac(offset + h), vs', fs', us');
  }

  /**
   * A walk from a joint whose ring starts at `first`, with the joint's own
   * ring and band already emitted (`first + radial` vertices, `2 * first`
   * triangles and UV triples), places every joint below it.
   */
  lemma {:induction false} WalkPlaces(vs: seq<Vec3>, fs: seq<Face3>, us: seq<UvTriple>, mesh: MeshMath, radial: nat,
                                      t: Tree, first: int, offset: real)
    requires 0 <= first && |vs| == first + radial && |fs| == 2 * first && |us| == 2 * first
    ensures Placed(WalkVerts(vs, mesh, radial, t), WalkFaces(fs, radial, t, first), WalkUvs(us, mesh, radial, t, offset),
                   mesh, radial, t, first, offset)
    decreases t, 1, 0
  {
    KidsPlace(vs, fs, us, mesh, radial, t, first, offset, |t.children|);
  }

  /** `WalkPlaces` over the first `i` children of `t`, which end at `Start(t, first, radial, i)`. */
  lemma {:induction false} KidsPlace(vs: seq<Vec3>, fs: seq<Face3>, us: seq<UvTriple>, mesh: MeshMath, radial: nat,
                                     t: Tree, first: int, offset: real, i: nat)
    requires 0 <= first && |vs| == first + radial && |fs| == 2 * first && |us| == 2 * first
    requires i <= |t.children|
    ensures var s := Start(t, first, radial, i);
      var vk, fk, uk := KidsVerts(vs, mesh, radial, t, i), KidsFaces(fs, radial, t, first, i), KidsUvs(us, mesh, radial, t, offset, i);
      |vk| == s && |fk| == 2 * (s - radial) && |uk| == 2 * (s - radial) &&
      forall j :: 0 <= j < i ==> ChildPlaced(vk, fk, uk, mesh, radial, t, first, offset, j)
    decreases t, 0, i
  {
    if i > 0 {
      KidsPlace(vs, fs, us, mesh, radial, t, first, offset, i - 1);
      ChildPlaces(KidsVerts(vs, mesh, radial, t, i - 1), KidsFaces(fs, radial, t, first, i - 1),
                  KidsUvs(us, mesh, radial, t, offset, i - 1), mesh, radial, t, first, offset, i - 1);
    }
  }

  /**
   * Emitting child `i` after the lists that end at its `Start` places the
   * child and keeps its earlier siblings placed.
   */
  lemma {:induction false} ChildPlaces(vk: seq<Vec3>, fk: seq<Face3>, uk: seq<UvTriple>, mesh: MeshMath, radial: nat,
                                       t: Tree, first: int, offset: real, i: nat)
    requires 0 <= first && i < |t.children|
    requires var s := Start(t, first, radial, i); |vk| == s && |fk| == 2 * (s - radial) && |uk| == 2 * (s - radial)
    requires forall j :: 0 <= j < i ==> ChildPlaced(vk, fk, uk, mesh, radial, t, first, offset, j)
    ensures var s := Start(t, first, radial, i + 1);
      var vc, fc, uc := ChildVerts(vk, mesh, radial, t, i), ChildFaces(fk, radial, t, first, i), ChildUvs(uk, mesh, radial, t, offset, i);
      |vc| == s && |fc| == 2 * (s - radial) && |uc| == 2 * (s - radial) &&
      forall j :: 0 <= j < i + 1 ==> ChildPlaced(vc, fc, uc, mesh, radial, t, first, offset, j)
    decreases t, 0, i, 1
  {
    var c, s := t.children[i], Start(t, first, radial, i);
    var h := mesh.texHeight(t.position, c.position, c.radius);
    var ring, band, uvs := RingVerts(mesh, t.position, c.position, c.radius, radial, radial),
      RingFaces(first, s, radial, radial), RingUvs(offset, h, radial, radial);
    var wv, wf, wu := WalkVerts([], mesh, radial, c), WalkFaces([], radial, c, s), WalkUvs([], mesh, radial, c, Frac(offset + h));
    WalkVertsAppends(vk + ring, mesh, radial, c);
    WalkFacesAppends(fk + band, radial, c, s);
    WalkUvsAppends(uk + uvs, mesh, radial, c, Frac(offset + h));
    assert vk + ring + wv == vk + (ring + wv);
    assert fk + band + wf == fk + (band + wf);
    assert uk + uvs + wu == uk + (uvs + wu);
    forall j | 0 <= j < i
      ensures ChildPlaced(vk + (ring + wv), fk + (band + wf), uk + (uvs + wu), mesh, radial, t, first, offset, j)
    {
      ChildPlacedExtends(vk, fk, uk, mesh, radial, t, first, offset, j, ring + wv, band + wf, uvs + wu);
    }
    NewChildPlaced(vk, fk, uk, mesh, radial, t, first, offset, i);
  }

  /** Child `i`, emitted right after lists that end at its `Start`, is placed. */
  lemma {:induction false} NewChildPlaced(vk: seq<Vec3>, fk: seq<Face3>, uk: seq<UvTriple>, mesh: MeshMath, radial: nat,
                                          t: Tree, first: int, offset: real, i: nat)
    requires 0 <= first && i < |t.children|
    requires var s := Start(t, first, radial, i); |vk| == s && |fk| == 2 * (s - radial) && |uk| == 2 * (s - radial)
    ensures ChildPlaced(ChildVerts(vk, mesh, radial, t, i), ChildFaces(fk, radial, t, first, i),
                        ChildUvs(uk, mesh, radial, t, offset, i), mesh, radial, t, first, offset, i)
    decreases t, 0, i, 0
  {
    var c, s := t.children[i], Start(t, first, radial, i);
    var h := mesh.texHeight(t.position, c.position, c.radius);
    var ring, band, uvs := RingVerts(mesh, t.position, c.position, c.radius, radial, radial),
      RingFaces(first, s, radial, radial), RingUvs(offset, h, radial, radial);
    WalkPlaces(vk + ring, fk + band, uk + uvs, mesh, radial, c, s, Frac(offset + h));
    WalkVertsAppends(vk + ring, mesh, radial, c);
    WalkFacesAppends(fk + band, radial, c, s);
    WalkUvsAppends(uk + uvs, mesh, radial, c, Frac(offset + h));
    assert (vk + ring + WalkVerts([], mesh, radial, c))[s .. s + radial] == ring;
    assert (fk + band + WalkFaces([], radial, c, s))[2 * (s - radial) .. 2 * s] == band;
    assert (uk + uvs + WalkUvs([], mesh, radial, c, Frac(offset + h)))[2 * (s - radial) .. 2 * s] == uvs;
  }

  /** The geometry of one preset tree: its generator and its mesh. */
  class TreeGeometry {
    const treeLSystem: TreeLSystem
    const radial: nat
    const mesh: MeshMath
    var verticesNum: int
    var vertices: seq<Vec3>
    var faces: seq<Face3>
    var faceVertexUvs: seq<UvTriple>

    /**
     * The mesh so far is well formed: one vertex per counted index, one UV
     * triple per triangle, and no triangle names a vertex not yet emitted.
     * Every ring but the root's brings `2 * radial` triangles, so once the
     * root's ring is out there are `2 * radial` triangles per further ring.
     */
    ghost predicate Consistent()
      reads this
    {
      |vertices| == verticesNum && |faceVertexUvs| == |faces| && FacesBelow(faces, verticesNum) &&
      |faces| == (if verticesNum == 0 then 0 else 2 * (verticesNum - radial))
    }

    /**
     * The subtree of `n` has been meshed: every child is meshed as
     * `ChildMeshed` says, and every texture offset lies in [0, 1).
     */
    ghost predicate Meshed(n: TreeNode)
      reads n`Repr, n.Repr`children, n.Repr`parent, n.Repr`Repr, n.Repr`shape
      reads n.Repr`firstIndex, n.Repr`texOffset
      decreases n.Repr, 1
    {
      n.Valid() && 0.0 <= n.texOffset < 1.0 &&
      forall i :: 0 <= i < |n.children| ==> ChildMeshed(n, i)
    }

    /**
     * Child `i` of `n` is meshed: its ring starts where `Start` puts it
     * relative to `n`'s (so, by `StartIsPreOrder`, every joint's ring starts
     * `radial` times its pre-order position), its texture offset is `n`'s
     * plus the segment's height, wrapped, and its own subtree is meshed.
     */
    ghost predicate ChildMeshed(n: TreeNode, i: int)
      requires n.Valid() && 0 <= i < |n.children|
      reads n`Repr, n.Repr`children, n.Repr`parent, n.Repr`Repr, n.Repr`shape
      reads n`firstIndex, n`texOffset, {n.children[i]}`firstIndex, {n.children[i]}`texOffset
      reads n.children[i].Repr`firstIndex, n.children[i].Repr`texOffset
      decreases n.Repr, 0
    {
      var c := n.children[i];
      c.firstIndex == Start(n.shape, n.firstIndex, radial, i) &&
      c.texOffset == Frac(n.texOffset + TexHeight(n, c)) &&
      Meshed(c)
    }

    /** A valid subtree whose children are all meshed is meshed once its own offset is in range. */
    lemma MeshedByChildren(n: TreeNode)
      requires n.Valid() && 0.0 <= n.texOffset < 1.0
      requires forall i :: 0 <= i < |n.children| ==> ChildMeshed(n, i)
      ensures Meshed(n)
    {
    }

    /** The V length of the segment from `parent` to `node`. */
    function TexHeight(parent: TreeNode, node: TreeNode): real {
      mesh.texHeight(parent.position, node.position, node.radius)
    }

    /**
     * `new TreeGeometry(...)`: grows the skeleton, then meshes it in one
     * pre-order walk from the root. The root's ring starts at 0 with V
     * offset 0, the vertex count is `radial` per joint, and every joint
     * but the root contributes `2 * radial` triangles.
     */
    constructor (p: Params, gl: MatrixOps, radialSegments: nat, mesh: MeshMath)
      ensures treeLSystem.p == p && treeLSystem.gl == gl && radial == radialSegments
      ensures treeLSystem.root.Valid() && treeLSystem.root.shape == Skeleton(p, gl)
      ensures Consistent()
      ensures verticesNum == radial * Size(Skeleton(p, gl))
      ensures |faces| == 2 * radial * (Size(Skeleton(p, gl)) - 1)
      ensures treeLSystem.root.firstIndex == 0 && treeLSystem.root.texOffset == 0.0
      ensures Meshed(treeLSystem.root)
      ensures var t := Skeleton(p, gl);
        vertices == WalkVerts(RootVerts(mesh, t.position, t.radius, radial, radial), mesh, radial, t)
      ensures faces == WalkFaces([], radial, Skeleton(p, gl), 0)
      ensures faceVertexUvs == WalkUvs([], mesh, radial, Skeleton(p, gl), 0.0)
      ensures Placed(vertices, faces, faceVertexUvs, mesh, radial, Skeleton(p, gl), 0, 0.0)
    {
      treeLSystem := new TreeLSystem(p, gl);
      radial := radialSegments;
      this.mesh := mesh;
      verticesNum := 0;
      vertices := [];
      faces := [];
      faceVertexUvs := [];
      new;
      Traverse(treeLSystem.root);
      ghost var root := treeLSystem.root;
      assert [] + RootVerts(mesh, root.position, root.radius, radial, radial)
          == RootVerts(mesh, root.shape.position, root.shape.radius, radial, radial);
      WalkPlaces(RootVerts(mesh, root.shape.position, root.shape.radius, radial, radial), [], [], mesh, radial, root.shape, 0, 0.0);
      VertsPerJoint(Skeleton(p, gl), radial);
      BandCount(radial, Size(Skeleton(p, gl)));
    }

    /**
     * `node.traverse(action)` with the builder's action: visit `node`, then
     * each child's subtree in stored order. The walk adds `radial` vertices
     * per joint of the subtree and `2 * radial` triangles per joint that has
     * a parent, and leaves the subtree meshed with `node`'s ring at the
     * vertex count it found. The root always takes index 0, so a walk from
     * the root starts with no vertices.
     */
    method Traverse(node: TreeNode)
      requires node.Valid() && Consistent()
      requires node.parent == null ==> verticesNum == 0
      requires node.parent != null ==>
        node.parent !in node.Repr && 0 <= node.parent.firstIndex && node.parent.firstIndex + radial <= verticesNum
      modifies this`vertices, this`faces, this`faceVertexUvs, this`verticesNum
      modifies node.Repr`firstIndex, node.Repr`texOffset
      ensures Walked(node, old(verticesNum), old(vertices), old(faces), old(faceVertexUvs))
      decreases node.Repr, 3
    {
      assert node in node.Repr;
      ghost var n0, v0, f0, u0 := verticesNum, vertices, faces, faceVertexUvs;
      Visit(node);
      TraverseChildren(node, n0, v0, f0, u0);
    }

    /**
     * The state right after the action on `node`, which found `n0` vertices
     * and the lists `v0`, `f0`, `u0`: `node`'s ring starts at `n0` and is
     * the last thing emitted.
     */
    ghost predicate Visited(node: TreeNode, n0: int, v0: seq<Vec3>, f0: seq<Face3>, u0: seq<UvTriple>)
      reads this, node`parent, node.parent, node`Repr, node.Repr`children, node.Repr`parent, node.Repr`Repr
      reads node.Repr`shape, node`firstIndex, node`texOffset
    {
      Consistent() && node.Valid() && 0 <= n0 && node.firstIndex == n0 && verticesNum == n0 + radial &&
      0.0 <= node.texOffset < 1.0 && (node.parent != null ==> node.parent !in node.Repr) &&
      OwnRing(node, n0, node.texOffset, v0, f0, u0, vertices, faces, faceVertexUvs)
    }

    /**
     * `v1`, `f1`, `u1` are `v0`, `f0`, `u0` followed by what the action
     * emits for `node` with its ring at `n0`: the root's ring alone, or any
     * other joint's ring with the band of triangles and UV triples to its
     * parent's ring; `offset` is `node`'s V offset, 0 for the root.
     */
    ghost predicate OwnRing(node: TreeNode, n0: int, offset: real, v0: seq<Vec3>, f0: seq<Face3>, u0: seq<UvTriple>,
                            v1: seq<Vec3>, f1: seq<Face3>, u1: seq<UvTriple>)
      reads node`parent, node.parent
    {
      if node.parent == null then
        offset == 0.0 && v1 == v0 + RootVerts(mesh, node.position, node.radius, radial, radial) && f1 == f0 && u1 == u0
      else
        var p := node.parent;
        var h := TexHeight(p, node);
        offset == Frac(p.texOffset + h) &&
        v1 == v0 + RingVerts(mesh, p.position, node.position, node.radius, radial, radial) &&
        f1 == f0 + RingFaces(p.firstIndex, n0, radial, radial) &&
        u1 == u0 + RingUvs(p.texOffset, h, radial, radial)
    }

    /**
     * The state after a walk of `node`'s subtree that started with `n0`
     * vertices and the lists `v0`, `f0`, `u0`: the mesh is consistent,
     * `node`'s ring starts at `n0`, the walk added `radial` vertices per
     * joint, the subtree is meshed, and each list is its old contents
     * followed by `node`'s own ring (and band to the parent's ring, unless
     * `node` is the root) and then everything emitted below `node`.
     */
    ghost predicate Walked(node: TreeNode, n0: int, v0: seq<Vec3>, f0: seq<Face3>, u0: seq<UvTriple>)
      reads this, node`parent, node.parent, node`Repr, node.Repr`children, node.Repr`parent, node.Repr`Repr
      reads node.Repr`shape, node.Repr`firstIndex, node.Repr`texOffset
    {
      Consistent() && Meshed(node) && node.firstIndex == n0 &&
      verticesNum == n0 + Verts(node.shape, radial) && n0 + radial <= verticesNum &&
      if node.parent == null then
        node.texOffset == 0.0 &&
        vertices == WalkVerts(v0 + RootVerts(mesh, node.position, node.radius, radial, radial), mesh, radial, node.shape) &&
        faces == WalkFaces(f0, radial, node.shape, n0) &&
        faceVertexUvs == WalkUvs(u0, mesh, radial, node.shape, 0.0)
      else
        var p := node.parent;
        var h := TexHeight(p, node);
        node.texOffset == Frac(p.texOffset + h) &&
        vertices == WalkVerts(v0 + RingVerts(mesh, p.position, node.position, node.radius, radial, radial), mesh, radial, node.shape) &&
        faces == WalkFaces(f0 + RingFaces(p.firstIndex, n0, radial, radial), radial, node.shape, n0) &&
        faceVertexUvs == WalkUvs(u0 + RingUvs(p.texOffset, h, radial, radial), mesh, radial, node.shape, node.texOffset)
    }

    /**
     * The loop of `traverse` after the action: each child's subtree in
     * stored order, each ring placed after everything emitted so far.
     */
    method TraverseChildren(node: TreeNode, ghost n0: int, ghost v0: seq<Vec3>, ghost f0: seq<Face3>, ghost u0: seq<UvTriple>)
      requires Visited(node, n0, v0, f0, u0)
      modifies this`vertices, this`faces, this`faceVertexUvs, this`verticesNum
      modifies node.Repr`firstIndex, node.Repr`texOffset
      ensures Walked(node, n0, v0, f0, u0)
      decreases node.Repr, 2
    {
      ghost var shape := node.shape;
      ghost var first, offset := node.firstIndex, node.texOffset;
      ghost var v1, f1, u1 := vertices, faces, faceVertexUvs;
      var i := 0;
      while i < |node.children|
        invariant i <= |node.children|
        invariant Progress(node, i, shape, first, offset, v1, f1, u1)
      {
        Descend(node, i, shape, first, offset, v1, f1, u1);
        i := i + 1;
      }
      assert OwnRing(node, n0, offset, v0, f0, u0, v1, f1, u1);
      Finished(node, n0, v0, f0, u0, shape, offset, v1, f1, u1);
    }

    /**
     * Once the loop has walked every child, the lists emitted for `node`
     * followed by its children's walks are the walk of `node`'s subtree.
     */
    lemma Finished(node: TreeNode, n0: int, v0: seq<Vec3>, f0: seq<Face3>, u0: seq<UvTriple>,
                   shape: Tree, offset: real, v1: seq<Vec3>, f1: seq<Face3>, u1: seq<UvTriple>)
      requires Progress(node, |node.children|, shape, n0, offset, v1, f1, u1)
      requires OwnRing(node, n0, offset, v0, f0, u0, v1, f1, u1)
      ensures Walked(node, n0, v0, f0, u0)
    {
      MeshedByChildren(node);
      StartPastLast(shape, n0, radial);
    }

    /**
     * The state of the loop over `node`'s children after `i` turns: the
     * first `i` children are meshed, the vertex count is where `Start`
     * puts child `i`, and the lists hold what they held before the loop
     * followed by what the walk emits for the first `i` children.
     */
    ghost predicate Progress(node: TreeNode, i: nat, shape: Tree, first: int, offset: real,
                             v0: seq<Vec3>, f0: seq<Face3>, u0: seq<UvTriple>)
      reads this, node`Repr, node.Repr`children, node.Repr`parent, node.Repr`Repr, node.Repr`shape
      reads node.Repr`firstIndex, node.Repr`texOffset
    {
      node.Valid() && node.shape == shape && i <= |node.children| && Consistent() &&
      0 <= first && node.firstIndex == first && node.texOffset == offset &&
      verticesNum == Start(shape, first, radial, i) && first + radial <= verticesNum &&
      (forall j :: 0 <= j < i ==> ChildMeshed(node, j)) &&
      vertices == KidsVerts(v0, mesh, radial, shape, i) &&
      faces == KidsFaces(f0, radial, shape, first, i) &&
      faceVertexUvs == KidsUvs(u0, mesh, radial, shape, offset, i)
    }

    /** One turn of the loop over `node`'s children: child `i`'s whole subtree. */
    method Descend(node: TreeNode, i: nat, ghost shape: Tree, ghost first: int, ghost offset: real,
                   ghost v0: seq<Vec3>, ghost f0: seq<Face3>, ghost u0: seq<UvTriple>)
      requires Progress(node, i, shape, first, offset, v0, f0, u0) && i < |node.children|
      modifies this`vertices, this`faces, this`faceVertexUvs, this`verticesNum
      modifies node.children[i].Repr`firstIndex, node.children[i].Repr`texOffset
      ensures Progress(node, i + 1, shape, first, offset, v0, f0, u0)
      decreases node.Repr, 1
    {
      Subtree(node, i);
    }

    /** `children[i].traverse(action)`: child `i`'s whole subtree. */
    method Subtree(node: TreeNode, i: nat)
      requires node.Valid() && Consistent() && i < |node.children|
      requires 0 <= node.firstIndex && node.firstIndex + radial <= verticesNum
      requires verticesNum == Start(node.shape, node.firstIndex, radial, i)
      requires forall j :: 0 <= j < i ==> ChildMeshed(node, j)
      modifies this`vertices, this`faces, this`faceVertexUvs, this`verticesNum
      modifies node.children[i].Repr`firstIndex, node.children[i].Repr`texOffset
      ensures Consistent()
      ensures verticesNum == Start(node.shape, node.firstIndex, radial, i + 1)
      ensures old(verticesNum) + radial <= verticesNum
      ensures forall j :: 0 <= j < i ==> ChildMeshed(node, j)
      ensures ChildMeshed(node, i)
      ensures vertices == ChildVerts(old(vertices), mesh, radial, node.shape, i)
      ensures faces == ChildFaces(old(faces), radial, node.shape, node.firstIndex, i)
      ensures faceVertexUvs == ChildUvs(old(faceVertexUvs), mesh, radial, node.shape, node.texOffset, i)
      decreases node.Repr, 0
    {
      assert forall j :: 0 <= j < i ==> Apart(node.children[j].Repr, node.children[i].Repr);
      Traverse(node.children[i]);
    }

    /**
     * The segment loop of a non-root joint: per segment, the joint's ring
     * vertex, the two triangles of the band to the parent ring starting at
     * `pf`, and their two UV triples with V from `t0` to `t0 + h`.
     */
    method EmitRing(from: Vec3, to: Vec3, r: real, pf: int, f: int, t0: real, h: real)
      modifies this`vertices, this`faces, this`faceVertexUvs
      ensures vertices == old(vertices) + RingVerts(mesh, from, to, r, radial, radial)
      ensures faces == old(faces) + RingFaces(pf, f, radial, radial)
      ensures faceVertexUvs == old(faceVertexUvs) + RingUvs(t0, h, radial, radial)
    {
      ghost var v0, f0, u0 := vertices, faces, faceVertexUvs;
      var i := 0;
      while i < radial
        invariant 0 <= i <= radial
        invariant vertices == v0 + RingVerts(mesh, from, to, r, radial, i)
        invariant faces == f0 + RingFaces(pf, f, radial, i)
        invariant faceVertexUvs == u0 + RingUvs(t0, h, radial, i)
      {
        vertices := vertices + [mesh.ringPoint(from, to, r, i, radial)];
        faces := faces + [Face3(pf + i, f + i, pf + (i + 1) % radial)];
        faces := faces + [Face3(pf + (i + 1) % radial, f + i, f + (i + 1) % radial)];
        var uva := Uv(U(i, radial), t0);
        var uvb := Uv(U(i + 1, radial), t0);
        var uvc := Uv(U(i, radial), t0 + h);
        var uvd := Uv(U(i + 1, radial), t0 + h);
        faceVertexUvs := faceVertexUvs + [UvTriple(uva, uvc, uvb)];
        faceVertexUvs := faceVertexUvs + [UvTriple(uvb, uvc, uvd)];
        i := i + 1;
      }
    }

    /**
     * The traverse action on one joint. The root's ring goes at index 0 with
     * V offset 0 and no triangles. Any other joint's ring starts at the
     * current vertex count; the band to the parent's ring gets `2 * radial`
     * triangles and as many UV triples, and the V offset becomes the
     * parent's plus the segment's height, wrapped into [0, 1).
     */
    method Visit(node: TreeNode)
      requires Consistent()
      requires node.parent == null ==> verticesNum == 0
      requires node.parent != null ==>
        node.parent != node && 0 <= node.parent.firstIndex && node.parent.firstIndex + radial <= verticesNum
      modifies this`vertices, this`faces, this`faceVertexUvs, this`verticesNum, node`firstIndex, node`texOffset
      ensures Consistent()
      ensures verticesNum == old(verticesNum) + radial
      ensures node.parent == null ==>
        node.firstIndex == 0 && node.texOffset == 0.0 &&
        vertices == old(vertices) + RootVerts(mesh, node.position, node.radius, radial, radial) &&
        faces == old(faces) && faceVertexUvs == old(faceVertexUvs)
      ensures node.parent != null ==>
        node.firstIndex == old(verticesNum) &&
        faces == old(faces) + RingFaces(node.parent.firstIndex, node.firstIndex, radial, radial) &&
        faceVertexUvs == old(faceVertexUvs) +
          RingUvs(node.parent.texOffset, TexHeight(node.parent, node), radial, radial) &&
        node.texOffset == Frac(node.parent.texOffset + TexHeight(node.parent, node)) &&
        vertices == old(vertices) + RingVerts(mesh, node.parent.position, node.position, node.radius, radial, radial)
    {
      if node.parent != null {
        var parent := node.parent;
        var texHeight := mesh.texHeight(parent.position, node.position, node.radius);
        node.firstIndex := verticesNum;
        EmitRing(parent.position, node.position, node.radius, parent.firstIndex, node.firstIndex, parent.texOffset, texHeight);
        verticesNum := verticesNum + radial;
        node.texOffset := parent.texOffset + texHeight;
        node.texOffset := node.texOffset - node.texOffset.Floor as real;
        RingFacesInBand(parent.firstIndex, node.firstIndex, radial);
      } else {
        var i := 0;
        while i < radial
          modifies this`vertices
          invariant 0 <= i <= radial
          invariant vertices == old(vertices) + RootVerts(mesh, node.position, node.radius, radial, i)
        {
          vertices := vertices + [mesh.rootPoint(node.position, node.radius, i, radial)];
          i := i + 1;
        }
        verticesNum := verticesNum + radial;
        node.firstIndex := 0;
        node.texOffset := 0.0;
      }
    }
  }

  /** The preset parameters of the four trees, in order, each with 6 radial segments. */
  const Presets: seq<Params> := [
    Params(94.74, 132.63, 18.95, 1.109, 1.932, 1.0, 0.02, 5),
    Params(137.5, 137.5, 25.95, 1.009, 1.732, 1.0, 0.02, 5),
    Params(112.5, 157.5, 22.5, 1.009, 1.732, 1.0, 0.02, 5),
    Params(180.0, 252.0, 36.0, 1.007, 1.9, 1.0, 0.02, 5)]

  /** A preset tree has 486 joints: 2 * 3^5. */
  lemma PresetSize(p: Params, gl: MatrixOps)
    requires p.maxIter == 5
    ensures Size(Skeleton(p, gl)) == 486
  {
    SkeletonSize(p, gl);
    assert Steps(p, 0) == 5;
  }

  /**
   * `TreeModels()`: the four preset trees, each meshed with 6 radial
   * segments: 2916 vertices and 5820 triangles apiece.
   */
  method TreeModels(gl: MatrixOps, mesh: MeshMath) returns (models: seq<TreeGeometry>)
    ensures |models| == 4
    ensures forall k :: 0 <= k < 4 ==>
      models[k].treeLSystem.p == Presets[k] && models[k].radial == 6 &&
      models[k].verticesNum == 2916 && |models[k].faces| == 5820 && models[k].Consistent()
  {
    var g0 := NewPreset(Presets[0], gl, mesh);
    var g1 := NewPreset(Presets[1], gl, mesh);
    var g2 := NewPreset(Presets[2], gl, mesh);
    var g3 := NewPreset(Presets[3], gl, mesh);
    models := [g0, g1, g2, g3];
  }

  /** One preset tree with 6 radial segments. */
  method NewPreset(p: Params, gl: MatrixOps, mesh: MeshMath) returns (g: TreeGeometry)
    requires p.maxIter == 5
    ensures fresh(g)
    ensures g.treeLSystem.p == p && g.radial == 6
    ensures g.verticesNum == 2916 && |g.faces| == 5820 && g.Consistent()
  {
    g := new TreeGeometry(p, gl, 6, mesh);
    PresetSize(p, gl);
  }
}
