/** Vectors, the player capsule and collision results, over exact reals.
    Floating-point rounding is not modelled. */
module Geometry {

  /** `Math.PI`, written as the decimal the runtime prints for it. */
  const PI: real := 3.141592653589793

  datatype Vec3 = Vec3(x: real, y: real, z: real)

  const Zero: Vec3 := Vec3(0.0, 0.0, 0.0)

  /** `Object3D.DEFAULT_UP`, the camera's up vector. */
  const Up: Vec3 := Vec3(0.0, 1.0, 0.0)

  function Add(a: Vec3, b: Vec3): Vec3 {
    Vec3(a.x + b.x, a.y + b.y, a.z + b.z)
  }

  function Sub(a: Vec3, b: Vec3): Vec3 {
    Vec3(a.x - b.x, a.y - b.y, a.z - b.z)
  }

  function Scale(a: Vec3, k: real): Vec3 {
    Vec3(a.x * k, a.y * k, a.z * k)
  }

  function Dot(a: Vec3, b: Vec3): real {
    a.x * b.x + a.y * b.y + a.z * b.z
  }

  function Cross(a: Vec3, b: Vec3): Vec3 {
    Vec3(a.y * b.z - a.z * b.y, a.z * b.x - a.x * b.z, a.x * b.y - a.y * b.x)
  }

  /** Subtraction undoes addition, so a translation is recovered from its endpoints. */
  lemma AddThenSub(a: Vec3, v: Vec3)
    ensures Sub(Add(a, v), a) == v
  {
  }

  /** Adding a multiple of `b` to `v` changes its component along `a` by
      that multiple of `Dot(a, b)`. */
  lemma DotAddScale(a: Vec3, v: Vec3, b: Vec3, k: real)
    ensures Dot(a, Add(v, Scale(b, k))) == Dot(a, v) + k * Dot(a, b)
  {
  }

  /** A line segment with a radius: the player's collision volume. */
  datatype Capsule = Capsule(start: Vec3, end: Vec3, radius: real)

  /** The segment's direction and length, the only geometric content of
      `start` and `end` apart from where the capsule is. */
  function Segment(c: Capsule): Vec3 {
    Sub(c.end, c.start)
  }

  /** `Capsule.translate`: both endpoints move by `v`. */
  function Translate(c: Capsule, v: Vec3): (r: Capsule)
    ensures Segment(r) == Segment(c)
    ensures r.radius == c.radius
    ensures Sub(r.start, c.start) == v && Sub(r.end, c.end) == v
  {
    Capsule(Add(c.start, v), Add(c.end, v), c.radius)
  }

  /** Two translations compose into one by the sum of the offsets. */
  lemma TranslateCompose(c: Capsule, u: Vec3, v: Vec3)
    ensures Translate(Translate(c, u), v) == Translate(c, Add(u, v))
  {
  }

  /** The result of `Octree.capsuleIntersect`: `false`, or the push-out
      normal and penetration depth. */
  datatype Contact = NoContact | Hit(normal: Vec3, depth: real)

  /** The camera's viewing direction with its vertical part dropped and then
      normalised, as `getWorldDirection` followed by `y = 0` and `normalize()`
      yield it. Only the horizontal components exist, so it is horizontal
      by construction; its length (one, or zero when looking straight up or
      down) is the oracle's business. */
  datatype Heading = Heading(x: real, z: real)

  /** `getForwardVector`. */
  function Forward(h: Heading): (f: Vec3)
    ensures f.y == 0.0
  {
    Vec3(h.x, 0.0, h.z)
  }

  /** `getSideVector`: the forward vector crossed with the camera's up vector. */
  function Side(h: Heading): (s: Vec3)
    ensures s.y == 0.0
  {
    Cross(Forward(h), Up)
  }

  /** The side vector is horizontal, perpendicular to the forward vector and
      as long: with a unit heading the two form the player's ground frame. */
  lemma SideIsPerpendicular(h: Heading)
    ensures Dot(Side(h), Forward(h)) == 0.0
    ensures Dot(Side(h), Side(h)) == Dot(Forward(h), Forward(h))
  {
  }
}
