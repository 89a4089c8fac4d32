/**
 * One simulated body (RigidObject): a polygon fixed at construction, a
 * position and a linear velocity that the simulation and the input handler
 * update in place, a mass, and the pinned and colliding flags. The narrow
 * phase of collision detection (collidesWith) is a pure test on two bodies.
 */
module RigidObjects {
  import opened Geometry

  /** The state of one body at one instant, as a value. */
  datatype Body = Body(
    vertices: seq<Point>,
    position: Vec2,
    velocity: Vec2,
    mass: real,
    pinned: bool,
    collides: bool)

  /**
   * The vertices of the width-by-height rectangle built by the (width, height)
   * constructor. Each half extent is the C++ quotient by two, so the box is
   * symmetric about the body's local origin and its centre is that origin.
   */
  function RectangleVertices(width: int, height: int): (r: seq<Point>)
    ensures |r| == 4
    ensures var hw, hh := HalfTowardZero(width), HalfTowardZero(height);
      var ax, ay := if hw >= 0 then hw else -hw, if hh >= 0 then hh else -hh;
      BoundingRect(r) == Rect(-ax, -ay, ax, ay)
    ensures Center(BoundingRect(r)) == Point(0, 0)
  {
    var x := HalfTowardZero(width);
    var y := HalfTowardZero(height);
    var r := [Point(x, y), Point(x, -y), Point(-x, -y), Point(-x, y)];
    var ax, ay := if x >= 0 then x else -x, if y >= 0 then y else -y;
    assert r[..3][..2] == r[..2] && r[..2][..1] == r[..1] && r[..4] == r;
    assert BoundingRect(r[..2]) == Extend(Rect(x, y, x, y), r[1]);
    assert BoundingRect(r[..3]) == Extend(BoundingRect(r[..2]), r[2]);
    assert BoundingRect(r) == Extend(BoundingRect(r[..3]), r[3]);
    r
  }

  /**
   * The squared radius of a body's bounding circle: the squared distance from
   * the top-left corner of its local bounding box to the box's centre.
   */
  function BoundingRadiusSquared(vertices: seq<Point>): (r: real)
    ensures r >= 0.0
  {
    var box := BoundingRect(vertices);
    LengthSquared(ToVec(PointSub(TopLeft(box), Center(box))))
  }

  /**
   * The box a body occupies in the world, as BoundingPoint::getCoordinate
   * computes it: the bounding rectangle of the polygon translated by the
   * rounded position. A polygon without vertices gives an empty box.
   */
  function Box(b: Body): (r: Rect)
    ensures |b.vertices| > 0 ==> r.left <= r.right && r.top <= r.bottom
    ensures |b.vertices| == 0 ==> r.right == r.left - 1 && r.bottom == r.top - 1
  {
    Translate(BoundingRect(b.vertices), RoundPoint(b.position))
  }

  /** Every vertex, placed at the body's rounded position, lies inside its box. */
  lemma BoxContainsVertices(b: Body)
    ensures forall i :: 0 <= i < |b.vertices| ==>
      var p := RoundPoint(b.position);
      Box(b).left <= b.vertices[i].x + p.x <= Box(b).right &&
      Box(b).top <= b.vertices[i].y + p.y <= Box(b).bottom
  {
    BoundingRectContains(b.vertices);
  }

  /** The boxes of a sequence of bodies, body by body. */
  function Boxes(w: seq<Body>): (r: seq<Rect>)
    ensures |r| == |w|
    ensures forall i :: 0 <= i < |w| ==> r[i] == Box(w[i])
  {
    seq(|w|, i requires 0 <= i < |w| => Box(w[i]))
  }

  /** The squared distance between the origins of two bodies. */
  function DistanceSquared(a: Body, b: Body): real
  {
    LengthSquared(Sub(a.position, b.position))
  }

  /**
   * The comparison at the heart of collidesQuick, on the squared distance d
   * and the squared radii ra and rb. The source compares d with
   * ra + rb + 2 * sqrt(ra * rb); this form decides the same comparison
   * without a square root (RootFormArithmetic).
   */
  function QuickTest(d: real, ra: real, rb: real): bool
  {
    var t := d - ra - rb;
    t < 0.0 || t * t < 4.0 * ra * rb
  }

  /**
   * The bounding-circle test collidesQuick. With squared radii ra and rb the
   * circles overlap when the squared distance is below (r1 + r2)^2, which
   * lies between ra + rb and 2 (ra + rb): closer pairs are always accepted,
   * farther ones always rejected.
   */
  function CollidesQuick(a: Body, b: Body): (r: bool)
    ensures DistanceSquared(a, b) < BoundingRadiusSquared(a.vertices) + BoundingRadiusSquared(b.vertices) ==> r
    ensures r ==> DistanceSquared(a, b) < 2.0 * (BoundingRadiusSquared(a.vertices) + BoundingRadiusSquared(b.vertices))
  {
    var d, ra, rb := DistanceSquared(a, b), BoundingRadiusSquared(a.vertices), BoundingRadiusSquared(b.vertices);
    QuickTestBounds(d, ra, rb);
    QuickTest(d, ra, rb)
  }

  /** Between ra + rb and 2 (ra + rb): the product term 4 ra rb is at most (ra + rb)^2. */
  lemma QuickTestBounds(d: real, ra: real, rb: real)
    requires ra >= 0.0 && rb >= 0.0
    ensures d < ra + rb ==> QuickTest(d, ra, rb)
    ensures QuickTest(d, ra, rb) ==> d < 2.0 * (ra + rb)
  {
    var t := d - ra - rb;
    if t >= 0.0 && t * t < 4.0 * ra * rb {
      assert (ra + rb) * (ra + rb) - 4.0 * ra * rb == (ra - rb) * (ra - rb);
      SquareMonotone(t, ra + rb);
    }
  }

  /** The exact polygon test collidesExact: a placeholder that always accepts. */
  function CollidesExact(a: Body, b: Body): (r: bool)
    ensures r
  {
    true
  }

  /** collidesWith: the quick test, then the exact one. */
  function CollidesWith(a: Body, b: Body): (r: bool)
    ensures r <==> CollidesQuick(a, b)
  {
    CollidesQuick(a, b) && CollidesExact(a, b)
  }

  lemma ProductPositive(a: real, b: real)
    requires a > 0.0 && b > 0.0
    ensures a * b > 0.0
  {
  }

  lemma DifferenceOfSquares(t: real, u: real)
    ensures u * u - t * t == (u - t) * (u + t)
  {
  }

  lemma SquareStrict(t: real, u: real)
    requires 0.0 <= t < u
    ensures t * t < u * u
  {
    ProductPositive(u - t, u + t);
    DifferenceOfSquares(t, u);
  }

  /** On non-negative reals, squaring preserves and reflects strict order. */
  lemma SquareMonotone(t: real, u: real)
    requires 0.0 <= t && 0.0 <= u
    ensures t < u <==> t * t < u * u
  {
    if t < u {
      SquareStrict(t, u);
    } else if u < t {
      SquareStrict(u, t);
    }
  }

  lemma DoubleSquared(s: real)
    ensures (2.0 * s) * (2.0 * s) == 4.0 * (s * s)
  {
  }

  /**
   * For every non-negative square root s of ra * rb, the quick test agrees
   * with the comparison d < ra + rb + 2 * s that the source evaluates.
   */
  lemma RootFormArithmetic(d: real, ra: real, rb: real, s: real)
    requires s >= 0.0 && s * s == ra * rb
    ensures QuickTest(d, ra, rb) <==> d < ra + rb + 2.0 * s
  {
    var t := d - ra - rb;
    if t >= 0.0 {
      SquareMonotone(t, 2.0 * s);
      DoubleSquared(s);
      assert 4.0 * (s * s) == 4.0 * ra * rb;
    }
  }

  /**
   * For every non-negative square root s of ra * rb, the quick test agrees
   * with the source's comparison d < ra + rb + 2 * s.
   */
  lemma QuickMatchesRootForm(a: Body, b: Body, s: real)
    requires s >= 0.0
    requires s * s == BoundingRadiusSquared(a.vertices) * BoundingRadiusSquared(b.vertices)
    ensures CollidesQuick(a, b) <==>
      DistanceSquared(a, b) < BoundingRadiusSquared(a.vertices) + BoundingRadiusSquared(b.vertices) + 2.0 * s
  {
    RootFormArithmetic(DistanceSquared(a, b), BoundingRadiusSquared(a.vertices), BoundingRadiusSquared(b.vertices), s);
  }

  /** QuickTest compares the squared distance with the square of the summed radii. */
  lemma RadiiFormArithmetic(d: real, ra: real, rb: real, r1: real, r2: real)
    requires r1 >= 0.0 && r2 >= 0.0 && r1 * r1 == ra && r2 * r2 == rb
    ensures QuickTest(d, ra, rb) <==> d < (r1 + r2) * (r1 + r2)
  {
    SquareOfProduct(r1, r2);
    ProductNonNegative(r1, r2);
    RootFormArithmetic(d, ra, rb, r1 * r2);
    SquareOfSum(r1, r2);
  }

  lemma ProductNonNegative(a: real, b: real)
    requires a >= 0.0 && b >= 0.0
    ensures a * b >= 0.0
  {
  }

  /**
   * With the radii themselves, r1 and r2, the quick test says that the
   * squared distance is below (r1 + r2)^2: the bounding circles overlap.
   */
  lemma QuickMatchesRadiiForm(a: Body, b: Body, r1: real, r2: real)
    requires r1 >= 0.0 && r2 >= 0.0
    requires r1 * r1 == BoundingRadiusSquared(a.vertices)
    requires r2 * r2 == BoundingRadiusSquared(b.vertices)
    ensures CollidesQuick(a, b) <==> DistanceSquared(a, b) < (r1 + r2) * (r1 + r2)
  {
    RadiiFormArithmetic(DistanceSquared(a, b), BoundingRadiusSquared(a.vertices), BoundingRadiusSquared(b.vertices), r1, r2);
  }

  lemma SquareOfProduct(p: real, q: real)
    ensures (p * q) * (p * q) == (p * p) * (q * q)
  {
  }

  lemma SquareOfSum(p: real, q: real)
    ensures (p + q) * (p + q) == p * p + q * q + 2.0 * (p * q)
  {
  }

  lemma SquareOfDifference(p: real, q: real)
    ensures (p - q) * (p - q) == (q - p) * (q - p)
  {
  }

  lemma QuickTestSymmetric(d: real, ra: real, rb: real)
    ensures QuickTest(d, ra, rb) == QuickTest(d, rb, ra)
  {
    assert 4.0 * ra * rb == 4.0 * rb * ra;
  }

  lemma DistanceSymmetric(a: Body, b: Body)
    ensures DistanceSquared(a, b) == DistanceSquared(b, a)
  {
    SquareOfDifference(a.position.x, b.position.x);
    SquareOfDifference(a.position.y, b.position.y);
  }

  /** The quick test, and so collidesWith, does not depend on the order of the pair. */
  lemma CollidesWithSymmetric(a: Body, b: Body)
    ensures CollidesWith(a, b) == CollidesWith(b, a)
  {
    DistanceSymmetric(a, b);
    QuickTestSymmetric(DistanceSquared(a, b), BoundingRadiusSquared(a.vertices), BoundingRadiusSquared(b.vertices));
  }

  lemma QuickTestAtZeroDistance(ra: real, rb: real)
    requires ra >= 0.0 && rb >= 0.0
    ensures QuickTest(0.0, ra, rb) <==> ra + rb > 0.0
  {
    if ra + rb <= 0.0 {
      assert ra == 0.0 && rb == 0.0;
      assert 4.0 * ra * rb == 0.0;
    }
  }

  lemma CoincidentDistanceZero(a: Body, b: Body)
    requires a.position == b.position
    ensures DistanceSquared(a, b) == 0.0
  {
    var v := Sub(a.position, b.position);
    assert v == Vec2(0.0, 0.0);
  }

  lemma ZeroDistanceCollide(a: Body, b: Body)
    requires DistanceSquared(a, b) == 0.0
    ensures CollidesWith(a, b) <==>
      BoundingRadiusSquared(a.vertices) + BoundingRadiusSquared(b.vertices) > 0.0
  {
    QuickTestAtZeroDistance(BoundingRadiusSquared(a.vertices), BoundingRadiusSquared(b.vertices));
  }

  /**
   * Two bodies at the same position collide exactly when their bounding
   * circles are not both of radius zero.
   */
  lemma CoincidentBodiesCollide(a: Body, b: Body)
    requires a.position == b.position
    ensures CollidesWith(a, b) <==>
      BoundingRadiusSquared(a.vertices) + BoundingRadiusSquared(b.vertices) > 0.0
  {
    CoincidentDistanceZero(a, b);
    ZeroDistanceCollide(a, b);
  }

  /** The same, with the pair taken in both orders. */
  lemma CoincidentBodiesCollideBothWays(a: Body, b: Body)
    requires a.position == b.position
    requires BoundingRadiusSquared(a.vertices) + BoundingRadiusSquared(b.vertices) > 0.0
    ensures CollidesWith(a, b) && CollidesWith(b, a)
  {
    CoincidentBodiesCollide(a, b);
    CollidesWithSymmetric(a, b);
  }

  /** The bounding circle of the (width, height) rectangle has squared radius (w/2)^2 + (h/2)^2. */
  lemma RectangleRadius(width: int, height: int)
    ensures var x, y := HalfTowardZero(width), HalfTowardZero(height);
      BoundingRadiusSquared(RectangleVertices(width, height)) == (x * x + y * y) as real
  {
    var x, y := HalfTowardZero(width), HalfTowardZero(height);
    var box := BoundingRect(RectangleVertices(width, height));
    var d := PointSub(TopLeft(box), Center(box));
    assert d == Point(-(if x >= 0 then x else -x), -(if y >= 0 then y else -y));
    NegatedSquare(x);
    NegatedSquare(y);
    assert d.x * d.x + d.y * d.y == x * x + y * y;
    PointLengthSquared(d);
  }

  lemma NegatedSquare(n: int)
    ensures (-n) * (-n) == n * n
  {
  }

  lemma PointLengthSquared(p: Point)
    ensures LengthSquared(ToVec(p)) == (p.x * p.x + p.y * p.y) as real
  {
    IntSquareAsReal(p.x);
    IntSquareAsReal(p.y);
  }

  lemma IntSquareAsReal(n: int)
    ensures (n as real) * (n as real) == (n * n) as real
  {
  }

  /**
   * A body of the simulation. The polygon and the mass are fixed when the
   * body is built (no member changes them); the rest is updated in place.
   */
  class RigidObject {
    const vertices: seq<Point>
    const mass: real
    var position: Vec2
    var linearVelocity: Vec2
    var pinned: bool
    var collides: bool

    function State(): Body
      reads this
    {
      Body(vertices, position, linearVelocity, mass, pinned, collides)
    }

    /** What the (width, height) constructor fixes for good: four vertices and mass 1. */
    predicate Valid()
    {
      |vertices| == 4 && mass == 1.0
    }

    /** RigidObject(width, height): a rectangle at rest at the origin, mass 1, unpinned, not colliding. */
    constructor (width: int, height: int)
      ensures State() == Body(RectangleVertices(width, height), Zero, Zero, 1.0, false, false)
      ensures Valid()
    {
      vertices := RectangleVertices(width, height);
      mass := 1.0;
      position := Zero;
      linearVelocity := Zero;
      pinned := false;
      collides := false;
    }

    method Move(positionDelta: Vec2)
      modifies this`position
      ensures State() == old(State()).(position := Add(old(position), positionDelta))
    {
      position := Add(position, positionDelta);
    }

    method SetPosition(newPosition: Vec2)
      modifies this`position
      ensures State() == old(State()).(position := newPosition)
    {
      position := newPosition;
    }

    method LinearAccelerate(linearVelocityDelta: Vec2)
      modifies this`linearVelocity
      ensures State() == old(State()).(velocity := Add(old(linearVelocity), linearVelocityDelta))
    {
      linearVelocity := Add(linearVelocity, linearVelocityDelta);
    }

    method SetLinearVelocity(newVelocity: Vec2)
      modifies this`linearVelocity
      ensures State() == old(State()).(velocity := newVelocity)
    {
      linearVelocity := newVelocity;
    }

    /** Pinning a body stops it; unpinning leaves its velocity as it was. */
    method SetPinned(newPinned: bool)
      modifies this`pinned, this`linearVelocity
      ensures pinned == newPinned
      ensures linearVelocity == if newPinned then Zero else old(linearVelocity)
      ensures State() == old(State()).(pinned := newPinned, velocity := linearVelocity)
    {
      pinned := newPinned;
      if pinned {
        linearVelocity := Zero;
      }
    }

    method SetCollides(newCollides: bool)
      modifies this`collides
      ensures collides == newCollides
      ensures State() == old(State()).(collides := newCollides)
    {
      collides := newCollides;
    }
  }

  /** The states of a sequence of bodies, in order. */
  function States(os: seq<RigidObject>): (r: seq<Body>)
    reads os
    ensures |r| == |os|
    ensures forall i :: 0 <= i < |os| ==> r[i] == os[i].State()
  {
    seq(|os|, i requires 0 <= i < |os| reads os => os[i].State())
  }
}
