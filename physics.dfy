/**
 * The simulation step (Physics): the endpoint list kept between frames, the
 * sweep and prune broad phase along X, the pairwise test inside each
 * candidate group, and the integration of unpinned bodies under gravity.
 * What one frame does to the bodies is stated as a function on their states,
 * FrameStep, and the class's methods are proved to perform it.
 */
module PhysicsEngine {
  import opened Geometry
  import opened RigidObjects
  import opened Sweep

  // ---------------------------------------------------------------------
  // Gravity and integration
  // ---------------------------------------------------------------------

  /** The acceleration of gravity: 9.8 downward. */
  const Gravity: Vec2 := Vec2(0.0, -9.8)

  /** Physics::gravityForce: a body's weight, its mass times g. */
  function GravityForce(b: Body): (r: Vec2)
    ensures r.x == 0.0 && (b.mass > 0.0 ==> r.y < 0.0)
  {
    Scale(b.mass, Gravity)
  }

  /** The acceleration renderFrame applies: the weight divided by the mass, which is g itself. */
  function Acceleration(b: Body): (r: Vec2)
    requires b.mass != 0.0
    ensures r == Gravity
  {
    Scale(1.0 / b.mass, GravityForce(b))
  }

  /**
   * One body's step in renderFrame (semi-implicit Euler): an unpinned body
   * first gains acceleration times dt in velocity, then moves by its new
   * velocity times dt. A pinned body is left as it is.
   */
  function Integrate(b: Body, dt: real): (r: Body)
    requires b.mass != 0.0
    ensures b.pinned ==> r == b
    ensures !b.pinned ==> r.velocity == Add(b.velocity, Scale(dt, Gravity))
    ensures !b.pinned ==> r.position == Add(b.position, Scale(dt, r.velocity))
    ensures r.vertices == b.vertices && r.mass == b.mass && r.pinned == b.pinned && r.collides == b.collides
  {
    if b.pinned then b
    else
      var velocity := Add(b.velocity, Scale(dt, Acceleration(b)));
      b.(velocity := velocity, position := Add(b.position, Scale(dt, velocity)))
  }

  /** Falling from rest for one frame: speed g dt, and a drop of g dt squared. */
  lemma FreeFallFromRest(b: Body, dt: real)
    requires b.mass != 0.0 && !b.pinned && b.velocity == Zero
    ensures Integrate(b, dt).velocity == Vec2(0.0, -9.8 * dt)
    ensures Integrate(b, dt).position == Vec2(b.position.x, b.position.y - 9.8 * dt * dt)
  {
  }

  // ---------------------------------------------------------------------
  // Collision flags
  // ---------------------------------------------------------------------

  /*
   * The flag rule is stated for any pairwise test `collide`; the frame uses
   * collidesWith. Keeping the test a parameter keeps the bookkeeping lemmas
   * independent of the circle arithmetic.
   */

  /** Bodies i and j are two different members of the group and pass the test. */
  ghost predicate PairCollides(w: seq<Body>, group: set<nat>, i: nat, j: nat, collide: (Body, Body) -> bool)
  {
    i in group && j in group && i != j && i < |w| && j < |w| && collide(w[i], w[j])
  }

  /** Body i collides with some other body of the group. */
  ghost predicate Hit(w: seq<Body>, group: set<nat>, i: nat, collide: (Body, Body) -> bool)
  {
    exists j :: PairCollides(w, group, i, j, collide)
  }

  /** Body i collides with some other body of one of the groups. */
  ghost predicate Flagged(w: seq<Body>, groups: seq<set<nat>>, i: nat, collide: (Body, Body) -> bool)
  {
    exists k :: 0 <= k < |groups| && Hit(w, groups[k], i, collide)
  }

  /** The two worlds differ at most in the collision flags. */
  ghost predicate SameButFlags(w: seq<Body>, v: seq<Body>)
  {
    |w| == |v| && forall k :: 0 <= k < |w| ==> v[k] == w[k].(collides := v[k].collides)
  }

  /** The test looks at shapes and positions, never at the collision flags. */
  ghost predicate IgnoresFlags(collide: (Body, Body) -> bool)
  {
    forall a: Body, b: Body, ca: bool, cb: bool ::
      collide(a.(collides := ca), b.(collides := cb)) == collide(a, b)
  }

  ghost predicate Symmetric(collide: (Body, Body) -> bool)
  {
    forall a: Body, b: Body :: collide(a, b) == collide(b, a)
  }

  lemma CollidesWithIgnoresFlags()
    ensures IgnoresFlags(CollidesWith)
  {
    forall a: Body, b: Body, ca: bool, cb: bool
      ensures CollidesWith(a.(collides := ca), b.(collides := cb)) == CollidesWith(a, b)
    {
      var a', b' := a.(collides := ca), b.(collides := cb);
      assert a'.vertices == a.vertices && b'.vertices == b.vertices;
      assert DistanceSquared(a', b') == DistanceSquared(a, b);
    }
  }

  lemma CollidesWithIsSymmetric()
    ensures Symmetric(CollidesWith)
  {
    forall a: Body, b: Body
      ensures CollidesWith(a, b) == CollidesWith(b, a)
    {
      CollidesWithSymmetric(a, b);
    }
  }

  lemma SameButFlagsSymmetric(w: seq<Body>, v: seq<Body>)
    requires SameButFlags(w, v)
    ensures SameButFlags(v, w)
  {
  }

  lemma HitTransfers(w: seq<Body>, v: seq<Body>, group: set<nat>, i: nat, collide: (Body, Body) -> bool)
    requires SameButFlags(w, v) && IgnoresFlags(collide)
    requires Hit(w, group, i, collide)
    ensures Hit(v, group, i, collide)
  {
    var j: nat :| PairCollides(w, group, i, j, collide);
    assert v[i] == w[i].(collides := v[i].collides) && v[j] == w[j].(collides := v[j].collides);
    assert collide(v[i], v[j]) == collide(w[i], w[j]);
    assert PairCollides(v, group, i, j, collide);
  }

  /** The flags never decide a collision: only shapes and positions do. */
  lemma HitIgnoresFlags(w: seq<Body>, v: seq<Body>, group: set<nat>, i: nat, collide: (Body, Body) -> bool)
    requires SameButFlags(w, v) && IgnoresFlags(collide)
    ensures Hit(w, group, i, collide) == Hit(v, group, i, collide)
  {
    if Hit(w, group, i, collide) {
      HitTransfers(w, v, group, i, collide);
    }
    if Hit(v, group, i, collide) {
      SameButFlagsSymmetric(w, v);
      HitTransfers(v, w, group, i, collide);
    }
  }

  lemma FlaggedIgnoresFlags(w: seq<Body>, v: seq<Body>, groups: seq<set<nat>>, i: nat, collide: (Body, Body) -> bool)
    requires SameButFlags(w, v) && IgnoresFlags(collide)
    ensures Flagged(w, groups, i, collide) == Flagged(v, groups, i, collide)
  {
    forall k | 0 <= k < |groups|
      ensures Hit(w, groups[k], i, collide) == Hit(v, groups[k], i, collide)
    {
      HitIgnoresFlags(w, v, groups[k], i, collide);
    }
  }

  lemma FlaggedAppend(w: seq<Body>, groups: seq<set<nat>>, g: set<nat>, i: nat, collide: (Body, Body) -> bool)
    ensures Flagged(w, groups + [g], i, collide) <==> Flagged(w, groups, i, collide) || Hit(w, g, i, collide)
  {
    var groups' := groups + [g];
    if Flagged(w, groups', i, collide) {
      var k :| 0 <= k < |groups'| && Hit(w, groups'[k], i, collide);
      if k < |groups| {
        assert groups'[k] == groups[k];
      }
    }
    if Flagged(w, groups, i, collide) {
      var k :| 0 <= k < |groups| && Hit(w, groups[k], i, collide);
      assert groups'[k] == groups[k];
    }
    if Hit(w, g, i, collide) {
      assert groups'[|groups|] == g;
    }
  }

  // ---------------------------------------------------------------------
  // One frame, as a function of the bodies' states
  // ---------------------------------------------------------------------

  /**
   * The bodies after one frame with candidate groups `groups`: each flag is
   * recomputed from scratch (set exactly when the body collides with another
   * member of one of its groups), then every unpinned body is integrated.
   */
  ghost function FrameStep(w: seq<Body>, groups: seq<set<nat>>, dt: real): (r: seq<Body>)
    requires forall i :: 0 <= i < |w| ==> w[i].mass != 0.0
    ensures |r| == |w|
    ensures forall i :: 0 <= i < |w| ==> r[i].vertices == w[i].vertices && r[i].mass == w[i].mass
  {
    seq(|w|, i requires 0 <= i < |w| => Integrate(w[i].(collides := Flagged(w, groups, i, CollidesWith)), dt))
  }

  /** Flags are not sticky: the flags a frame starts with do not influence the frame at all. */
  lemma FrameForgetsFlags(w: seq<Body>, v: seq<Body>, groups: seq<set<nat>>, dt: real)
    requires forall i :: 0 <= i < |w| ==> w[i].mass != 0.0
    requires SameButFlags(w, v)
    ensures FrameStep(w, groups, dt) == FrameStep(v, groups, dt)
  {
    forall i | 0 <= i < |w|
      ensures FrameStep(w, groups, dt)[i] == FrameStep(v, groups, dt)[i]
    {
      CollidesWithIgnoresFlags();
      FlaggedIgnoresFlags(w, v, groups, i, CollidesWith);
      assert w[i].(collides := Flagged(w, groups, i, CollidesWith)) == v[i].(collides := Flagged(v, groups, i, CollidesWith));
    }
  }

  /** After a frame, a body's flag says whether it collides with another member of one of its groups. */
  lemma FrameFlag(w: seq<Body>, groups: seq<set<nat>>, dt: real, i: nat)
    requires forall i :: 0 <= i < |w| ==> w[i].mass != 0.0
    requires i < |w|
    ensures FrameStep(w, groups, dt)[i].collides <==>
      exists k, j :: 0 <= k < |groups| && i in groups[k] && j in groups[k] && j != i && j < |w| &&
        CollidesWith(w[i], w[j])
  {
    if FrameStep(w, groups, dt)[i].collides {
      var k :| 0 <= k < |groups| && Hit(w, groups[k], i, CollidesWith);
      var j :| PairCollides(w, groups[k], i, j, CollidesWith);
    }
    if exists k, j :: 0 <= k < |groups| && i in groups[k] && j in groups[k] && j != i && j < |w| &&
        CollidesWith(w[i], w[j]) {
      var k, j :| 0 <= k < |groups| && i in groups[k] && j in groups[k] && j != i && j < |w| &&
        CollidesWith(w[i], w[j]);
      assert PairCollides(w, groups[k], i, j, CollidesWith);
    }
  }

  /** A pinned body keeps its position and velocity through a frame. */
  lemma FramePinned(w: seq<Body>, groups: seq<set<nat>>, dt: real, i: nat)
    requires forall i :: 0 <= i < |w| ==> w[i].mass != 0.0
    requires i < |w| && w[i].pinned
    ensures FrameStep(w, groups, dt)[i].position == w[i].position
    ensures FrameStep(w, groups, dt)[i].velocity == w[i].velocity
  {
  }

  /** An unpinned body gains g dt in velocity, then moves by its new velocity times dt. */
  lemma FrameUnpinned(w: seq<Body>, groups: seq<set<nat>>, dt: real, i: nat)
    requires forall i :: 0 <= i < |w| ==> w[i].mass != 0.0
    requires i < |w| && !w[i].pinned
    ensures FrameStep(w, groups, dt)[i].velocity == Add(w[i].velocity, Scale(dt, Gravity))
    ensures FrameStep(w, groups, dt)[i].position ==
      Add(w[i].position, Scale(dt, Add(w[i].velocity, Scale(dt, Gravity))))
  {
  }

  lemma FlaggedByPair(w: seq<Body>, groups: seq<set<nat>>, k: nat, i: nat, j: nat, collide: (Body, Body) -> bool)
    requires k < |groups| && PairCollides(w, groups[k], i, j, collide)
    ensures Flagged(w, groups, i, collide)
  {
  }

  lemma FlaggedHasPartner(w: seq<Body>, groups: seq<set<nat>>, i: nat, collide: (Body, Body) -> bool)
    requires Flagged(w, groups, i, collide)
    ensures exists j: nat :: j != i && j < |w| && Together(groups, i, j) && collide(w[i], w[j])
  {
    var k :| 0 <= k < |groups| && Hit(w, groups[k], i, collide);
    var j :| PairCollides(w, groups[k], i, j, collide);
    assert Together(groups, i, j);
  }

  lemma FrameCollides(w: seq<Body>, groups: seq<set<nat>>, dt: real, i: nat)
    requires forall i :: 0 <= i < |w| ==> w[i].mass != 0.0
    requires i < |w|
    ensures FrameStep(w, groups, dt)[i].collides == Flagged(w, groups, i, CollidesWith)
  {
  }

  /**
   * Two members of one group that sit at the same position, with bounding
   * circles not both of radius zero, are both flagged.
   */
  lemma FrameCoincidentPair(w: seq<Body>, groups: seq<set<nat>>, dt: real, k: nat, i: nat, j: nat)
    requires forall i :: 0 <= i < |w| ==> w[i].mass != 0.0
    requires k < |groups| && i in groups[k] && j in groups[k] && i != j && i < |w| && j < |w|
    requires w[i].position == w[j].position
    requires BoundingRadiusSquared(w[i].vertices) + BoundingRadiusSquared(w[j].vertices) > 0.0
    ensures FrameStep(w, groups, dt)[i].collides && FrameStep(w, groups, dt)[j].collides
  {
    assert Flagged(w, groups, i, CollidesWith) && Flagged(w, groups, j, CollidesWith) by {
      CoincidentBodiesCollideBothWays(w[i], w[j]);
      FlaggedByPair(w, groups, k, i, j, CollidesWith);
      FlaggedByPair(w, groups, k, j, i, CollidesWith);
    }
    FrameCollides(w, groups, dt, i);
    FrameCollides(w, groups, dt, j);
  }

  /** A flagged body has a partner it shares a group with and collides with. */
  lemma FrameFlagNeedsPartner(w: seq<Body>, groups: seq<set<nat>>, dt: real, i: nat)
    requires forall i :: 0 <= i < |w| ==> w[i].mass != 0.0
    requires i < |w| && FrameStep(w, groups, dt)[i].collides
    ensures exists j: nat :: j != i && j < |w| && Together(groups, i, j) && CollidesWith(w[i], w[j])
  {
    FrameCollides(w, groups, dt, i);
    FlaggedHasPartner(w, groups, i, CollidesWith);
  }

  // ---------------------------------------------------------------------
  // The boxes the broad phase sorts
  // ---------------------------------------------------------------------

  /** The X extents of boxes x and y overlap with positive length. */
  ghost predicate OverlapOnX(boxes: seq<Rect>, x: nat, y: nat)
  {
    x < |boxes| && y < |boxes| && boxes[x].left < boxes[y].right && boxes[y].left < boxes[x].right
  }

  /** Bodies with vertices have boxes whose Begin on X is not after their End. */
  lemma BoxesOrderedOnX(w: seq<Body>)
    requires forall i :: 0 <= i < |w| ==> |w[i].vertices| > 0
    ensures OrderedOnX(Boxes(w))
  {
  }

  /**
   * On the Y axis the Begin coordinate is the box's bottom and the End its
   * top, so the End never comes after the Begin, and comes strictly before
   * it once the box is more than one row tall.
   */
  lemma YEndNotAfterBegin(w: seq<Body>, x: nat)
    requires x < |w| && |w[x].vertices| > 0
    ensures Coordinate(BoundingPoint(End, x), Boxes(w), Y) <= Coordinate(BoundingPoint(Begin, x), Boxes(w), Y)
    ensures Box(w[x]).top < Box(w[x]).bottom ==>
      Coordinate(BoundingPoint(End, x), Boxes(w), Y) < Coordinate(BoundingPoint(Begin, x), Boxes(w), Y)
  {
  }

  /** The boxes depend on shapes and positions only. */
  lemma BoxesIgnoreFlags(w: seq<Body>, v: seq<Body>)
    requires SameButFlags(w, v)
    ensures Boxes(w) == Boxes(v)
  {
    forall k | 0 <= k < |w|
      ensures Boxes(w)[k] == Boxes(v)[k]
    {
      assert v[k].vertices == w[k].vertices && v[k].position == w[k].position;
    }
  }

  lemma EndObjectsBelow(pts: seq<BoundingPoint>, n: nat)
    requires IndicesBelow(pts, n)
    ensures forall x :: x in EndObjects(pts, 0, |pts|) ==> x < n
  {
  }

  /**
   * Sorting keeps the list well formed; a stable sort on X also keeps each
   * Begin before its End, as every box's left edge is at most its right edge.
   */
  lemma SortKeepsOrder(before: seq<BoundingPoint>, pts: seq<BoundingPoint>, origin: seq<nat>,
                       boxes: seq<Rect>, axis: SweepAxis)
    requires |before| == 0 || (WellFormed(before, |boxes|) && BeginBeforeEnd(before))
    requires OrderedOnX(boxes)
    requires SortedBy(pts, boxes, axis) && Rearranged(pts, origin, before) && Stable(pts, origin, boxes, axis)
    ensures |pts| == 0 || WellFormed(pts, |boxes|)
    ensures axis == X ==> |pts| == 0 || BeginBeforeEnd(pts)
  {
    if |before| != 0 {
      SortKeepsWellFormed(pts, origin, before, |boxes|);
      if axis == X {
        StableSortKeepsBeginBeforeEnd(pts, origin, before, boxes);
      }
    }
  }

  /**
   * What pruning a well-formed list sorted on X gives: the groups are
   * disjoint, hold two or more bodies each, pair bodies exactly by the
   * counter of open intervals, and pair every two bodies whose X extents
   * overlap.
   */
  lemma PruneFacts(pts: seq<BoundingPoint>, boxes: seq<Rect>, groups: seq<set<nat>>)
    requires WellFormed(pts, |boxes|) && BeginBeforeEnd(pts) && SortedBy(pts, boxes, X)
    requires Balanced(pts) && DistinctEnds(pts) ==> Partitioned(groups)
    requires Balanced(pts) && DistinctEnds(pts) ==>
      forall i :: 0 <= i < |groups| ==> groups[i] <= EndObjects(pts, 0, |pts|)
    requires Balanced(pts) && DistinctEnds(pts) ==>
      forall x, y :: x != y ==> (Together(groups, x, y) <==> SameGroup(pts, x, y))
    ensures Partitioned(groups)
    ensures forall k :: 0 <= k < |groups| ==> forall x :: x in groups[k] ==> x < |boxes|
    ensures forall x, y :: x != y ==> (Together(groups, x, y) <==> SameGroup(pts, x, y))
    ensures forall x, y :: x != y && OverlapOnX(boxes, x, y) ==> Together(groups, x, y)
  {
    var n := |boxes|;
    CounterBalanced(pts, n);
    WellFormedDistinctEnds(pts, n);
    EndObjectsBelow(pts, n);
    forall x, y | x != y && OverlapOnX(boxes, x, y)
      ensures Together(groups, x, y)
    {
      OverlapImpliesSameGroup(pts, boxes, x, y);
    }
  }

  /**
   * What the groups of a frame rule out: when no box crosses the vertical
   * line c, a body ending left of c and one beginning at or right of it are
   * never in one group, so the frame never tests them against each other.
   */
  lemma SeparatedNotTogether(pts: seq<BoundingPoint>, boxes: seq<Rect>, groups: seq<set<nat>>, c: int, x: nat, y: nat)
    requires WellFormed(pts, |boxes|) && BeginBeforeEnd(pts) && SortedBy(pts, boxes, X)
    requires OrderedOnX(boxes)
    requires forall x, y :: x != y ==> (Together(groups, x, y) <==> SameGroup(pts, x, y))
    requires forall z :: 0 <= z < |boxes| ==>
      Coordinate(BoundingPoint(End, z), boxes, X) < c || c <= Coordinate(BoundingPoint(Begin, z), boxes, X)
    requires x < |boxes| && y < |boxes|
    requires Coordinate(BoundingPoint(End, x), boxes, X) < c <= Coordinate(BoundingPoint(Begin, y), boxes, X)
    ensures !Together(groups, x, y)
  {
    SeparatedNotSameGroup(pts, boxes, c, x, y);
    assert x != y by {
      assert boxes[x].left <= boxes[x].right;
    }
  }

  // ---------------------------------------------------------------------
  // The three passes of a frame, as functions on the bodies' states
  // ---------------------------------------------------------------------

  /** The first pass of renderFrame: every flag is cleared. */
  ghost function Cleared(w: seq<Body>): (r: seq<Body>)
    ensures |r| == |w|
  {
    seq(|w|, i requires 0 <= i < |w| => w[i].(collides := false))
  }

  /**
   * The flags after detectCollisions has run on each of `groups`: a flag
   * already set stays set, and a body is flagged when it collides with
   * another member of one of the groups. Nothing else changes.
   */
  ghost function Detected(w: seq<Body>, groups: seq<set<nat>>, collide: (Body, Body) -> bool): (r: seq<Body>)
    ensures |r| == |w|
  {
    seq(|w|, i requires 0 <= i < |w| => w[i].(collides := w[i].collides || Flagged(w, groups, i, collide)))
  }

  /** The last pass of renderFrame: every body is integrated (pinned ones are left alone). */
  ghost function Integrated(w: seq<Body>, dt: real): (r: seq<Body>)
    requires forall i :: 0 <= i < |w| ==> w[i].mass != 0.0
    ensures |r| == |w|
  {
    seq(|w|, i requires 0 <= i < |w| => Integrate(w[i], dt))
  }

  /** Integrating one more body of a partly integrated world. */
  lemma IntegratedPrefix(w: seq<Body>, dt: real, i: nat)
    requires forall i :: 0 <= i < |w| ==> w[i].mass != 0.0
    requires i < |w|
    ensures Integrated(w[..i + 1], dt) + w[i + 1..] == (Integrated(w[..i], dt) + w[i..])[i := Integrate(w[i], dt)]
  {
    var u := Integrated(w[..i + 1], dt) + w[i + 1..];
    var v := (Integrated(w[..i], dt) + w[i..])[i := Integrate(w[i], dt)];
    assert forall t :: 0 <= t < |w| ==> u[t] == v[t];
  }

  lemma IntegratedAll(w: seq<Body>, dt: real)
    requires forall i :: 0 <= i < |w| ==> w[i].mass != 0.0
    ensures Integrated(w[..|w|], dt) + w[|w|..] == Integrated(w, dt)
  {
    assert w[..|w|] == w;
  }

  /** Clearing and detecting only ever touch the flags. */
  lemma PassesKeepShapes(w: seq<Body>, groups: seq<set<nat>>, collide: (Body, Body) -> bool)
    ensures SameButFlags(w, Cleared(w)) && SameButFlags(w, Detected(w, groups, collide))
    ensures forall i :: 0 <= i < |w| ==> !Cleared(w)[i].collides
  {
  }

  /** Detecting nothing changes nothing. */
  lemma DetectedNothing(w: seq<Body>, collide: (Body, Body) -> bool)
    ensures Detected(w, [], collide) == w
  {
    assert forall i :: 0 <= i < |w| ==> !Flagged(w, [], i, collide);
  }

  /**
   * Detecting group by group is detecting all the groups at once: the flags
   * set by the earlier groups do not change what the later groups find.
   */
  lemma DetectedAppend(w: seq<Body>, groups: seq<set<nat>>, g: set<nat>, collide: (Body, Body) -> bool)
    requires IgnoresFlags(collide)
    ensures Detected(Detected(w, groups, collide), [g], collide) == Detected(w, groups + [g], collide)
  {
    var v := Detected(w, groups, collide);
    forall i | 0 <= i < |w|
      ensures Detected(v, [g], collide)[i] == Detected(w, groups + [g], collide)[i]
    {
      FlaggedAppend(v, [], g, i, collide);
      assert [] + [g] == [g];
      HitIgnoresFlags(w, v, g, i, collide);
      FlaggedAppend(w, groups, g, i, collide);
    }
  }

  /** One more group of the frame's list, detected on the world the earlier groups left. */
  lemma DetectedNext(w: seq<Body>, groups: seq<set<nat>>, k: nat)
    requires k < |groups|
    ensures Detected(Detected(w, groups[..k], CollidesWith), [groups[k]], CollidesWith) ==
            Detected(w, groups[..k + 1], CollidesWith)
  {
    CollidesWithIgnoresFlags();
    DetectedAppend(w, groups[..k], groups[k], CollidesWith);
    assert groups[..k + 1] == groups[..k] + [groups[k]];
  }

  /** Running detection a second time on the same groups changes nothing. */
  lemma DetectedIdempotent(w: seq<Body>, groups: seq<set<nat>>, collide: (Body, Body) -> bool)
    requires IgnoresFlags(collide)
    ensures Detected(Detected(w, groups, collide), groups, collide) == Detected(w, groups, collide)
  {
    var v := Detected(w, groups, collide);
    forall i | 0 <= i < |w|
      ensures Detected(v, groups, collide)[i] == v[i]
    {
      FlaggedIgnoresFlags(w, v, groups, i, collide);
    }
  }

  /** Two members of a group that collide are both flagged, whatever the order of the test. */
  lemma DetectedPair(w: seq<Body>, groups: seq<set<nat>>, k: nat, i: nat, j: nat, collide: (Body, Body) -> bool)
    requires Symmetric(collide)
    requires k < |groups| && PairCollides(w, groups[k], i, j, collide)
    ensures Detected(w, groups, collide)[i].collides && Detected(w, groups, collide)[j].collides
  {
    FlaggedByPair(w, groups, k, i, j, collide);
    assert PairCollides(w, groups[k], j, i, collide);
    FlaggedByPair(w, groups, k, j, i, collide);
  }

  /**
   * The three passes make up one frame: clearing, detecting in every group
   * and integrating is FrameStep.
   */
  lemma FrameIsThreePasses(w: seq<Body>, groups: seq<set<nat>>, dt: real)
    requires forall i :: 0 <= i < |w| ==> w[i].mass != 0.0
    ensures Integrated(Detected(Cleared(w), groups, CollidesWith), dt) == FrameStep(w, groups, dt)
  {
    var v := Cleared(w);
    CollidesWithIgnoresFlags();
    forall i | 0 <= i < |w|
      ensures Detected(v, groups, CollidesWith)[i] == w[i].(collides := Flagged(w, groups, i, CollidesWith))
    {
      FlaggedIgnoresFlags(w, v, groups, i, CollidesWith);
    }
  }

  // ---------------------------------------------------------------------
  // detectCollisions pair by pair
  // ---------------------------------------------------------------------

  /*
   * detectCollisions walks the group with two iterators: the first visits
   * the members in the set's own order, and for each one the second visits
   * the members after it. `members` is that order, and the loops stand at
   * positions (i, j). The pairs of positions (p, q), p < q, tested before
   * (i, j) are those of earlier rows and those of row i left of column j.
   */

  /** The members of a group in the order its set hands them out, each once. */
  ghost predicate Enumerates(members: seq<nat>, group: set<nat>)
  {
    && (forall p, q :: 0 <= p < q < |members| ==> members[p] != members[q])
    && (forall x :: x in group <==> x in members)
  }

  /** The pair at positions (p, q), p < q, has body x as a member and passes the test. */
  ghost predicate PairHit(w: seq<Body>, members: seq<nat>, p: nat, q: nat, x: nat, collide: (Body, Body) -> bool)
  {
    && p < q < |members| && members[p] < |w| && members[q] < |w|
    && (members[p] == x || members[q] == x) && collide(w[members[p]], w[members[q]])
  }

  /** Row p, left of column j, holds a colliding pair with body x. */
  ghost predicate FoundInRow(w: seq<Body>, members: seq<nat>, p: nat, j: nat, x: nat, collide: (Body, Body) -> bool)
    decreases j
  {
    j > 0 && (FoundInRow(w, members, p, j - 1, x, collide) || PairHit(w, members, p, j - 1, x, collide))
  }

  /** One of the rows above row i holds a colliding pair with body x. */
  ghost predicate FoundInRows(w: seq<Body>, members: seq<nat>, i: nat, x: nat, collide: (Body, Body) -> bool)
    decreases i
  {
    i > 0 && (FoundInRows(w, members, i - 1, x, collide) || FoundInRow(w, members, i - 1, |members|, x, collide))
  }

  /** Body x is in a colliding pair that the loops have tested before reaching (i, j). */
  ghost predicate FoundBefore(w: seq<Body>, members: seq<nat>, i: nat, j: nat, x: nat,
                              collide: (Body, Body) -> bool)
  {
    FoundInRows(w, members, i, x, collide) || FoundInRow(w, members, i, j, x, collide)
  }

  /** The bodies when the loops stand at (i, j): exactly the tested colliding pairs are flagged. */
  ghost function TestedBefore(w: seq<Body>, members: seq<nat>, i: nat, j: nat,
                              collide: (Body, Body) -> bool): (r: seq<Body>)
    ensures |r| == |w|
  {
    seq(|w|, x requires 0 <= x < |w| =>
      w[x].(collides := w[x].collides || FoundBefore(w, members, i, j, x, collide)))
  }

  /** Both bodies of a pair flagged, when the test says they collide. */
  ghost function Mark(cur: seq<Body>, a: nat, b: nat, hit: bool): (r: seq<Body>)
    requires a < |cur| && b < |cur|
    ensures |r| == |cur|
  {
    if hit then cur[a := cur[a].(collides := true)][b := cur[b].(collides := true)] else cur
  }

  /** A row holds a colliding pair with x left of column j exactly when some column q < j does. */
  lemma {:induction false} RowHits(w: seq<Body>, members: seq<nat>, p: nat, j: nat, x: nat, collide: (Body, Body) -> bool)
    ensures FoundInRow(w, members, p, j, x, collide) <==> exists q :: 0 <= q < j && PairHit(w, members, p, q, x, collide)
  {
    if j > 0 {
      RowHits(w, members, p, j - 1, x, collide);
      if exists q :: 0 <= q < j && PairHit(w, members, p, q, x, collide) {
        var q :| 0 <= q < j && PairHit(w, members, p, q, x, collide);
        if q < j - 1 {
          assert FoundInRow(w, members, p, j - 1, x, collide);
        }
      }
    }
  }

  /** The rows above i hold a colliding pair with x exactly when some pair (p, q) with p < i does. */
  lemma {:induction false} RowsHit(w: seq<Body>, members: seq<nat>, i: nat, x: nat, collide: (Body, Body) -> bool)
    ensures FoundInRows(w, members, i, x, collide) <==>
      exists p, q :: 0 <= p < i && 0 <= q < |members| && PairHit(w, members, p, q, x, collide)
  {
    if i > 0 {
      RowsHit(w, members, i - 1, x, collide);
      RowHits(w, members, i - 1, |members|, x, collide);
      if exists p, q :: 0 <= p < i && 0 <= q < |members| && PairHit(w, members, p, q, x, collide) {
        var p, q :| 0 <= p < i && 0 <= q < |members| && PairHit(w, members, p, q, x, collide);
        if p < i - 1 {
          assert FoundInRows(w, members, i - 1, x, collide);
        } else {
          assert FoundInRow(w, members, i - 1, |members|, x, collide);
        }
      }
    }
  }

  /** Before the first pair nothing is flagged. */
  lemma TestedNone(w: seq<Body>, members: seq<nat>, collide: (Body, Body) -> bool)
    ensures TestedBefore(w, members, 0, 0, collide) == w
  {
    assert forall x :: 0 <= x < |w| ==> !FoundBefore(w, members, 0, 0, x, collide);
  }

  /** No column up to i of row i holds a pair. */
  lemma {:induction false} RowEmpty(w: seq<Body>, members: seq<nat>, i: nat, j: nat, x: nat, collide: (Body, Body) -> bool)
    requires j <= i + 1
    ensures !FoundInRow(w, members, i, j, x, collide)
  {
    if j > 0 {
      RowEmpty(w, members, i, j - 1, x, collide);
    }
  }

  /** The first column of row i is i + 1: the columns up to i hold no pair. */
  lemma RowStart(w: seq<Body>, members: seq<nat>, i: nat, collide: (Body, Body) -> bool)
    ensures TestedBefore(w, members, i, i + 1, collide) == TestedBefore(w, members, i, 0, collide)
  {
    forall x | 0 <= x < |w|
      ensures FoundBefore(w, members, i, i + 1, x, collide) == FoundBefore(w, members, i, 0, x, collide)
    {
      RowEmpty(w, members, i, i + 1, x, collide);
    }
  }

  /** A finished row i leaves the loops where row i + 1 starts. */
  lemma RowEnd(w: seq<Body>, members: seq<nat>, i: nat, collide: (Body, Body) -> bool)
    ensures TestedBefore(w, members, i, |members|, collide) == TestedBefore(w, members, i + 1, 0, collide)
  {
    forall x | 0 <= x < |w|
      ensures FoundBefore(w, members, i, |members|, x, collide) == FoundBefore(w, members, i + 1, 0, x, collide)
    {
      assert FoundInRows(w, members, i + 1, x, collide) ==
        (FoundInRows(w, members, i, x, collide) || FoundInRow(w, members, i, |members|, x, collide));
    }
  }

  /** Testing the pair at (i, j) flags both its bodies exactly when they collide. */
  lemma PairTested(w: seq<Body>, members: seq<nat>, i: nat, j: nat, collide: (Body, Body) -> bool)
    requires i < j < |members| && members[i] < |w| && members[j] < |w|
    ensures Mark(TestedBefore(w, members, i, j, collide), members[i], members[j],
                 collide(w[members[i]], w[members[j]])) ==
            TestedBefore(w, members, i, j + 1, collide)
  {
    var a, b := members[i], members[j];
    var next := Mark(TestedBefore(w, members, i, j, collide), a, b, collide(w[a], w[b]));
    forall x | 0 <= x < |w|
      ensures next[x] == TestedBefore(w, members, i, j + 1, collide)[x]
    {
      assert FoundInRow(w, members, i, j + 1, x, collide) ==
        (FoundInRow(w, members, i, j, x, collide) || PairHit(w, members, i, j, x, collide));
    }
  }

  /** After every pair of members, the flags are those of detecting the one group. */
  lemma AllTested(w: seq<Body>, members: seq<nat>, group: set<nat>, collide: (Body, Body) -> bool)
    requires Enumerates(members, group) && Symmetric(collide)
    ensures TestedBefore(w, members, |members|, 0, collide) == Detected(w, [group], collide)
  {
    var n := |members|;
    forall x | 0 <= x < |w|
      ensures FoundBefore(w, members, n, 0, x, collide) == Flagged(w, [group], x, collide)
    {
      FlaggedAppend(w, [], group, x, collide);
      assert [] + [group] == [group];
      RowsHit(w, members, n, x, collide);
      if FoundBefore(w, members, n, 0, x, collide) {
        var p, q :| 0 <= p < n && 0 <= q < n && PairHit(w, members, p, q, x, collide);
        if members[p] == x {
          assert PairCollides(w, group, x, members[q], collide);
        } else {
          assert collide(w[members[q]], w[members[p]]);
          assert PairCollides(w, group, x, members[p], collide);
        }
      }
      if Hit(w, group, x, collide) {
        var y :| PairCollides(w, group, x, y, collide);
        var p :| 0 <= p < n && members[p] == x;
        var q :| 0 <= q < n && members[q] == y;
        if p < q {
          assert PairHit(w, members, p, q, x, collide);
        } else {
          assert collide(w[members[q]], w[members[p]]);
          assert PairHit(w, members, q, p, x, collide);
        }
      }
    }
  }

  /** A test that ignores the flags gives the same answer on states that differ only in flags. */
  lemma TestIgnoresFlags(w: seq<Body>, v: seq<Body>, a: nat, b: nat, collide: (Body, Body) -> bool)
    requires SameButFlags(w, v) && IgnoresFlags(collide)
    requires a < |w| && b < |w|
    ensures collide(v[a], v[b]) == collide(w[a], w[b])
  {
    assert collide(w[a].(collides := v[a].collides), w[b].(collides := v[b].collides)) == collide(w[a], w[b]);
  }

  /**
   * One step of the inner loop with collidesWith: the test on the current
   * states agrees with the test on the states the call started from, and
   * flagging the pair when it collides gives the next state.
   */
  lemma PairStep(w: seq<Body>, members: seq<nat>, i: nat, j: nat)
    requires i < j < |members| && members[i] < |w| && members[j] < |w|
    ensures var cur := TestedBefore(w, members, i, j, CollidesWith);
      && CollidesWith(cur[members[i]], cur[members[j]]) == CollidesWith(w[members[i]], w[members[j]])
      && Mark(cur, members[i], members[j], CollidesWith(cur[members[i]], cur[members[j]])) ==
         TestedBefore(w, members, i, j + 1, CollidesWith)
  {
    var cur := TestedBefore(w, members, i, j, CollidesWith);
    CollidesWithIgnoresFlags();
    assert SameButFlags(w, cur);
    TestIgnoresFlags(w, cur, members[i], members[j], CollidesWith);
    PairTested(w, members, i, j, CollidesWith);
  }

  /**
   * The order in which an unordered set hands out its members: any order,
   * each member once. The hash order itself is not modelled; every result
   * below holds for all of them.
   */
  method Enumerate(group: set<nat>) returns (members: seq<nat>)
    ensures Enumerates(members, group)
  {
    members := [];
    var rest := group;
    while rest != {}
      invariant rest <= group
      invariant forall p, q :: 0 <= p < q < |members| ==> members[p] != members[q]
      invariant forall x :: x in members <==> x in group && x !in rest
      decreases rest
    {
      var x :| x in rest;
      members := members + [x];
      rest := rest - {x};
    }
  }

  /** The members enumerated from a group of bodies below n are positions below n. */
  lemma EnumeratedBelow(members: seq<nat>, group: set<nat>, n: nat)
    requires Enumerates(members, group) && forall x :: x in group ==> x < n
    ensures forall p :: 0 <= p < |members| ==> members[p] < n
  {
    assert forall p :: 0 <= p < |members| ==> members[p] in group;
  }

  // ---------------------------------------------------------------------
  // The simulation
  // ---------------------------------------------------------------------

  /**
   * Physics: the bodies it steps (shared with the window, never added to or
   * removed from) and its persistent list of bounding points, which is built
   * on first use and re-sorted every frame.
   */
  class Physics {
    const objects: seq<RigidObject>
    var boundingPoints: array<BoundingPoint>

    /** Distinct bodies, each built by the (width, height) constructor. */
    ghost predicate BodiesValid()
    {
      && (forall i, j :: 0 <= i < j < |objects| ==> objects[i] != objects[j])
      && (forall i :: 0 <= i < |objects| ==> objects[i].Valid())
    }

    /** Valid bodies; the list, once built, holds every body's two points, Begin first. */
    ghost predicate Valid()
      reads this, boundingPoints
    {
      && BodiesValid()
      && (boundingPoints.Length == 0 ||
          (WellFormed(boundingPoints[..], |objects|) && BeginBeforeEnd(boundingPoints[..])))
    }

    /** The states of all bodies, in order. */
    function World(): seq<Body>
      reads objects
    {
      States(objects)
    }

    lemma WorldMasses()
      requires BodiesValid()
      ensures forall i :: 0 <= i < |World()| ==> World()[i].mass != 0.0 && |World()[i].vertices| > 0
    {
    }

    /** Physics(objects, mutex): the endpoint list starts empty. */
    constructor (objects: seq<RigidObject>)
      requires forall i, j :: 0 <= i < j < |objects| ==> objects[i] != objects[j]
      requires forall i :: 0 <= i < |objects| ==> objects[i].Valid()
      ensures this.objects == objects && boundingPoints.Length == 0
      ensures Valid()
    {
      this.objects := objects;
      boundingPoints := new BoundingPoint[0];
    }

    /** Physics::sweepBoundingPoints: appends a Begin and an End for each body, in body order. */
    method SweepBoundingPoints()
      modifies this`boundingPoints
      ensures fresh(boundingPoints)
      ensures boundingPoints[..] == old(boundingPoints[..]) + InitialPoints(|objects|)
    {
      var previous := boundingPoints;
      var m := previous.Length;
      var n := |objects|;
      var points := new BoundingPoint[m + 2 * n];
      forall t | 0 <= t < m {
        points[t] := previous[t];
      }
      for i := 0 to n
        invariant forall t :: 0 <= t < m ==> points[t] == previous[t]
        invariant forall x :: 0 <= x < i ==>
          points[m + 2 * x] == BoundingPoint(Begin, x) && points[m + 2 * x + 1] == BoundingPoint(End, x)
      {
        points[m + 2 * i] := BoundingPoint(Begin, i);
        points[m + 2 * i + 1] := BoundingPoint(End, i);
      }
      InitialPointsByBody(points[m..], n);
      assert points[..] == points[..m] + points[m..];
      assert points[..m] == previous[..];
      boundingPoints := points;
    }

    /** The first step of sweepAndPrune: an empty list is built from the bodies; a built one is kept. */
    method SweepIfEmpty()
      requires Valid()
      modifies this`boundingPoints
      ensures Valid() && WellFormed(boundingPoints[..], |objects|)
      ensures World() == old(World())
      ensures old(boundingPoints.Length) == 0 ==> fresh(boundingPoints) && boundingPoints[..] == InitialPoints(|objects|)
      ensures old(boundingPoints.Length) != 0 ==> boundingPoints == old(boundingPoints)
    {
      if boundingPoints.Length == 0 {
        SweepBoundingPoints();
        assert boundingPoints[..] == InitialPoints(|objects|);
        InitialPointsWellFormed(|objects|);
      }
    }

    /**
     * Physics::sweepAndPrune along X: the list is built if it is empty, sorted
     * on the current boxes, and cut into candidate groups. The groups are
     * disjoint sets of two or more bodies; two bodies share one exactly when
     * the count of open intervals stays above zero between their Ends, so
     * any two bodies whose X extents overlap share one.
     */
    method SweepAndPrune() returns (activeGroups: seq<set<nat>>)
      requires Valid()
      modifies this`boundingPoints, boundingPoints
      ensures Valid() && World() == old(World())
      ensures WellFormed(boundingPoints[..], |objects|) && BeginBeforeEnd(boundingPoints[..])
      ensures SortedBy(boundingPoints[..], Boxes(World()), X)
      ensures Partitioned(activeGroups)
      ensures forall k :: 0 <= k < |activeGroups| ==> forall x :: x in activeGroups[k] ==> x < |objects|
      ensures forall x, y :: x != y ==> (Together(activeGroups, x, y) <==> SameGroup(boundingPoints[..], x, y))
      ensures forall x, y :: x != y && OverlapOnX(Boxes(World()), x, y) ==> Together(activeGroups, x, y)
    {
      SweepIfEmpty();
      ghost var origin := SortBoundingPoints(X);
      activeGroups := PruneBoundingPoints(boundingPoints[..]);
      PruneFacts(boundingPoints[..], Boxes(World()), activeGroups);
    }

    /**
     * Physics::sortBoundingPoints: the list is sorted on the boxes of the
     * bodies as they are now. The ghost result tells where each point came
     * from: the points are only rearranged, and points with equal
     * coordinates keep their order. On X the list keeps every Begin before
     * its End.
     */
    method SortBoundingPoints(axis: SweepAxis) returns (ghost origin: seq<nat>)
      requires Valid()
      modifies boundingPoints
      ensures SortedBy(boundingPoints[..], Boxes(World()), axis)
      ensures Rearranged(boundingPoints[..], origin, old(boundingPoints[..]))
      ensures Stable(boundingPoints[..], origin, Boxes(World()), axis)
      ensures boundingPoints.Length == 0 || WellFormed(boundingPoints[..], |objects|)
      ensures axis == X ==> Valid()
      ensures World() == old(World())
    {
      ghost var before := boundingPoints[..];
      ghost var w := World();
      var boxes := Boxes(World());
      WorldMasses();
      BoxesOrderedOnX(World());
      origin := Sweep.SortBoundingPoints(boundingPoints, boxes, axis);
      assert World() == w;
      SortKeepsOrder(before, boundingPoints[..], origin, boxes, axis);
    }

    /** The first loop of renderFrame: every body's collision flag is cleared. */
    method ClearCollisionFlags()
      requires BodiesValid()
      modifies objects
      ensures World() == Cleared(old(World()))
    {
      ghost var w := World();
      for i := 0 to |objects|
        invariant forall t :: 0 <= t < i ==> objects[t].State() == w[t].(collides := false)
        invariant forall t :: i <= t < |objects| ==> objects[t].State() == w[t]
      {
        objects[i].SetCollides(false);
      }
      assert forall t :: 0 <= t < |objects| ==> World()[t] == Cleared(w)[t];
    }

    /**
     * Physics::detectCollisions: every two members of the group are tested
     * once, in the set's own order, and both are flagged when they collide.
     * Flags already set stay set; what the test finds does not depend on them.
     */
    method DetectCollisions(group: set<nat>)
      requires BodiesValid()
      requires forall x :: x in group ==> x < |objects|
      modifies objects
      ensures World() == Detected(old(World()), [group], CollidesWith)
    {
      ghost var w := World();
      var members := Enumerate(group);
      EnumeratedBelow(members, group, |objects|);
      TestAllPairs(members, w);
      CollidesWithIsSymmetric();
      AllTested(w, members, group, CollidesWith);
    }

    /** The outer loop of detectCollisions: each member in turn is tested against the ones after it. */
    method TestAllPairs(members: seq<nat>, ghost w: seq<Body>)
      requires BodiesValid() && w == World()
      requires forall p :: 0 <= p < |members| ==> members[p] < |objects|
      modifies objects
      ensures World() == TestedBefore(w, members, |members|, 0, CollidesWith)
    {
      TestedNone(w, members, CollidesWith);
      for i := 0 to |members|
        invariant World() == TestedBefore(w, members, i, 0, CollidesWith)
      {
        RowStart(w, members, i, CollidesWith);
        TestAgainstLater(members, i, w);
        RowEnd(w, members, i, CollidesWith);
      }
    }

    /**
     * The inner loop of detectCollisions: the member at position i is tested
     * against each member after it in the set's order.
     */
    method TestAgainstLater(members: seq<nat>, i: nat, ghost w: seq<Body>)
      requires BodiesValid() && |w| == |objects| && i < |members|
      requires forall p :: 0 <= p < |members| ==> members[p] < |objects|
      requires World() == TestedBefore(w, members, i, i + 1, CollidesWith)
      modifies objects
      ensures World() == TestedBefore(w, members, i, |members|, CollidesWith)
    {
      for j := i + 1 to |members|
        invariant World() == TestedBefore(w, members, i, j, CollidesWith)
      {
        TestPair(members, i, j, w);
      }
    }

    /** The body of the inner loop of detectCollisions: both bodies are flagged when they collide. */
    method TestPair(members: seq<nat>, i: nat, j: nat, ghost w: seq<Body>)
      requires BodiesValid() && |w| == |objects| && i < j < |members|
      requires forall p :: 0 <= p < |members| ==> members[p] < |objects|
      requires World() == TestedBefore(w, members, i, j, CollidesWith)
      modifies objects
      ensures World() == TestedBefore(w, members, i, j + 1, CollidesWith)
    {
      PairStep(w, members, i, j);
      if CollidesWith(objects[members[i]].State(), objects[members[j]].State()) {
        FlagBody(members[i]);
        FlagBody(members[j]);
      }
    }

    /** One body's setCollides(true), seen on the states of all the bodies. */
    method FlagBody(i: nat)
      requires BodiesValid() && i < |objects|
      modifies objects[i]
      ensures World() == old(World())[i := old(World())[i].(collides := true)]
    {
      objects[i].SetCollides(true);
      assert forall t :: 0 <= t < |objects| ==> World()[t] == old(World())[i := old(World())[i].(collides := true)][t];
    }

    /** The second loop of renderFrame: detectCollisions on each group in turn. */
    method DetectGroups(groups: seq<set<nat>>)
      requires BodiesValid()
      requires forall k :: 0 <= k < |groups| ==> forall x :: x in groups[k] ==> x < |objects|
      modifies objects
      ensures World() == Detected(old(World()), groups, CollidesWith)
    {
      ghost var w := World();
      DetectedNothing(w, CollidesWith);
      for k := 0 to |groups|
        invariant World() == Detected(w, groups[..k], CollidesWith)
      {
        DetectCollisions(groups[k]);
        DetectedNext(w, groups, k);
      }
      assert groups[..|groups|] == groups;
    }

    /** The last loop of renderFrame: every body in turn is integrated over the frame time. */
    method IntegrateBodies(frameTime: real)
      requires BodiesValid()
      modifies objects
      ensures World() == Integrated(old(World()), frameTime)
    {
      ghost var w := World();
      WorldMasses();
      for i := 0 to |objects|
        invariant World() == Integrated(w[..i], frameTime) + w[i..]
      {
        IntegrateBody(i, frameTime);
        IntegratedPrefix(w, frameTime, i);
      }
      IntegratedAll(w, frameTime);
    }

    /**
     * The body of the last loop of renderFrame: an unpinned body gains its
     * acceleration (its weight over its mass) times the frame time in
     * velocity, then moves by its new velocity times the frame time.
     */
    method IntegrateBody(i: nat, frameTime: real)
      requires BodiesValid() && i < |objects|
      modifies objects[i]
      ensures World() == old(World())[i := Integrate(old(World())[i], frameTime)]
    {
      var body := objects[i];
      if !body.pinned {
        var acceleration := Acceleration(body.State());
        var linearVelocityDelta := Scale(frameTime, acceleration);
        body.LinearAccelerate(linearVelocityDelta);
        var positionDelta := Scale(frameTime, body.linearVelocity);
        body.Move(positionDelta);
      }
      assert forall t :: 0 <= t < |objects| ==>
        World()[t] == old(World())[i := Integrate(old(World())[i], frameTime)][t];
    }

    /**
     * Physics::renderFrame: flags are cleared, the broad phase groups the
     * bodies along X, every group is checked pair by pair, and every unpinned
     * body falls for frameTime. The bodies end up as FrameStep says, with
     * groups that hold together every two bodies whose X extents overlap.
     */
    method RenderFrame(frameTime: real) returns (ghost activeGroups: seq<set<nat>>)
      requires Valid()
      modifies this`boundingPoints, boundingPoints, objects
      ensures Valid()
      ensures World() == FrameStep(old(World()), activeGroups, frameTime)
      ensures WellFormed(boundingPoints[..], |objects|) && BeginBeforeEnd(boundingPoints[..])
      ensures SortedBy(boundingPoints[..], Boxes(old(World())), X)
      ensures Partitioned(activeGroups)
      ensures forall k :: 0 <= k < |activeGroups| ==> forall x :: x in activeGroups[k] ==> x < |objects|
      ensures forall x, y :: x != y ==> (Together(activeGroups, x, y) <==> SameGroup(boundingPoints[..], x, y))
      ensures forall x, y :: x != y && OverlapOnX(Boxes(old(World())), x, y) ==> Together(activeGroups, x, y)
    {
      ghost var w0 := World();
      WorldMasses();
      ClearCollisionFlags();
      ghost var w1 := World();
      var groups := SweepAndPrune();
      activeGroups := groups;
      ghost var pts := boundingPoints[..];
      PassesKeepShapes(w0, [], CollidesWith);
      BoxesIgnoreFlags(w0, w1);
      DetectGroups(groups);
      assert Valid();
      IntegrateBodies(frameTime);
      assert Valid();
      assert boundingPoints[..] == pts;
      FrameIsThreePasses(w0, groups, frameTime);
    }
  }
}
