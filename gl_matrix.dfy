/**
 * The slice of the gl-matrix library that the tree generator relies on.
 *
 * Vectors and matrices are values: assigning one never aliases another, which
 * is what `mat4.set` into a freshly created matrix achieves in the original.
 * The library's floating-point operations (translation, rotation, applying a
 * matrix to a point) are not part of this model; they are supplied as
 * function values in a `MatrixOps` record, so every statement proved about
 * the generator holds whatever those operations compute.
 */
module GlMatrix {

  /** A point or direction in world space. */
  datatype Vec3 = Vec3(x: real, y: real, z: real)

  /** The world origin, where the root of every skeleton is placed. */
  const Origin: Vec3 := Vec3(0.0, 0.0, 0.0)

  /** A 4x4 transform, sixteen entries in gl-matrix's column-major layout. */
  datatype Mat4 = Mat4(cells: seq<real>)

  /** What `mat4.identity` writes into a matrix. */
  const Identity: Mat4 := Mat4([1.0, 0.0, 0.0, 0.0,
                                0.0, 1.0, 0.0, 0.0,
                                0.0, 0.0, 1.0, 0.0,
                                0.0, 0.0, 0.0, 1.0])

  /**
   * The library operations the generator calls, left uninterpreted.
   *   create:     the matrix `mat4.create()` returns
   *   translateY: `mat4.translate(m, [0, d, 0])`, a move along the local "up" axis
   *   rotateX:    `mat4.rotate(m, degToRad(a), [1, 0, 0])`, angle `a` in degrees
   *   rotateY:    `mat4.rotate(m, degToRad(a), [0, 1, 0])`, angle `a` in degrees
   *   origin:     `mat4.multiplyVec3(m, [0, 0, 0])`, where the local origin lands
   */
  datatype MatrixOps = MatrixOps(
    create: Mat4,
    translateY: (Mat4, real) -> Mat4,
    rotateX: (Mat4, real) -> Mat4,
    rotateY: (Mat4, real) -> Mat4,
    origin: Mat4 -> Vec3)
}
