// Public/Delivery/Helpers/DeliveryShapeHelpersV3.cpp: the collision shape a
// delivery primitive queries with, and the two size figures drivers use.
module ShapeHelpers {
  import opened Common

  /** EDeliveryShapeV3. */
  datatype ShapeKind = Sphere | Box | Capsule | Ray

  /**
   * FDeliveryShapeV3 as the helpers read it: the capsule radius and the
   * ray length are separate fields there.
   */
  datatype DeliveryShape = DeliveryShape(kind: ShapeKind, radius: real, halfHeight: real, extents: Vec,
                                         capsuleRadius: real, rayLength: real)

  /** FCollisionShape, for the three kinds the helpers build. */
  datatype CollisionShape = SphereShape(sphereRadius: real)
                          | BoxShape(halfExtents: Vec)
                          | CapsuleShape(capRadius: real, capHalfHeight: real)

  function Abs(x: real): (r: real)
    ensures r >= 0.0 && (r == x || r == -x)
  {
    if x < 0.0 then -x else x
  }

  /** No dimension of the shape is negative. */
  predicate NonNegative(c: CollisionShape) {
    match c
    case SphereShape(r) => r >= 0.0
    case BoxShape(e) => e.x >= 0.0 && e.y >= 0.0 && e.z >= 0.0
    case CapsuleShape(r, h) => r >= 0.0 && h >= 0.0
  }

  /** `out` is `x` clamped from below at 0: `x` itself when non-negative, else 0. */
  predicate ClampedAtZero(out: real, x: real) {
    out >= 0.0 && (x >= 0.0 ==> out == x) && (x < 0.0 ==> out == 0.0)
  }

  /**
   * BuildCollisionShape: a shape for Sphere, Box and Capsule with every
   * dimension clamped to at least 0; no shape for a Ray.
   */
  function BuildCollisionShape(s: DeliveryShape): (r: Option<CollisionShape>)
    ensures r.Some? <==> s.kind != Ray
    ensures r.Some? ==> NonNegative(r.value)
    ensures s.kind == Sphere ==> r.value.SphereShape? && ClampedAtZero(r.value.sphereRadius, s.radius)
    ensures s.kind == Box ==>
              r.value.BoxShape? && ClampedAtZero(r.value.halfExtents.x, s.extents.x) &&
              ClampedAtZero(r.value.halfExtents.y, s.extents.y) && ClampedAtZero(r.value.halfExtents.z, s.extents.z)
    ensures s.kind == Capsule ==>
              r.value.CapsuleShape? && ClampedAtZero(r.value.capRadius, s.capsuleRadius) &&
              ClampedAtZero(r.value.capHalfHeight, s.halfHeight)
  {
    match s.kind
    case Sphere => Some(SphereShape(Max(0.0, s.radius)))
    case Box => Some(BoxShape(Vec(Max(0.0, s.extents.x), Max(0.0, s.extents.y), Max(0.0, s.extents.z))))
    case Capsule => Some(CapsuleShape(Max(0.0, s.capsuleRadius), Max(0.0, s.halfHeight)))
    case Ray => None
  }

  /**
   * GetRayLength: the shape's own ray length for a Ray with a positive
   * length, the default otherwise.
   */
  function GetRayLength(s: DeliveryShape, defaultLen: real): (r: real)
    ensures s.kind == Ray && s.rayLength > 0.0 ==> r == s.rayLength
    ensures !(s.kind == Ray && s.rayLength > 0.0) ==> r == defaultLen
  {
    if s.kind == Ray then (if s.rayLength > 0.0 then s.rayLength else defaultLen) else defaultLen
  }

  /** A positive default makes the ray length positive. */
  lemma RayLengthPositive(s: DeliveryShape, defaultLen: real)
    requires defaultLen > 0.0
    ensures GetRayLength(s, defaultLen) > 0.0
  {
  }

  /**
   * GetApproxRadius: never negative; the clamped radius for Sphere and
   * Capsule, the largest absolute extent for Box, 0 for Ray.
   */
  function GetApproxRadius(s: DeliveryShape): (r: real)
    ensures r >= 0.0
    ensures s.kind == Ray ==> r == 0.0
    ensures s.kind == Box ==>
              r >= Abs(s.extents.x) && r >= Abs(s.extents.y) && r >= Abs(s.extents.z) &&
              (r == Abs(s.extents.x) || r == Abs(s.extents.y) || r == Abs(s.extents.z))
    ensures s.kind == Sphere ==> ClampedAtZero(r, s.radius)
    ensures s.kind == Capsule ==> ClampedAtZero(r, s.capsuleRadius)
  {
    match s.kind
    case Sphere => Max(0.0, s.radius)
    case Capsule => Max(0.0, s.capsuleRadius)
    case Box => Max(Max(Abs(s.extents.x), Abs(s.extents.y)), Abs(s.extents.z))
    case Ray => 0.0
  }

  /**
   * The approximate radius agrees with the built shape: it is the built
   * radius for spheres and capsules, and covers every built box extent.
   */
  lemma ApproxRadiusCoversShape(s: DeliveryShape)
    requires s.kind != Ray
    ensures match BuildCollisionShape(s).value
            case SphereShape(r) => GetApproxRadius(s) == r
            case CapsuleShape(r, _) => GetApproxRadius(s) == r
            case BoxShape(e) => e.x <= GetApproxRadius(s) && e.y <= GetApproxRadius(s) && e.z <= GetApproxRadius(s)
  {
  }
}
