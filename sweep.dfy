/**
 * The broad phase of collision detection: sweep-and-prune along one axis.
 * Every body contributes two bounding points to one persistent list, the
 * Begin and the End of its bounding box along the sweep axis. Each frame the
 * list is insertion-sorted by the points' current coordinates, then one scan
 * with a counter of open intervals cuts it into candidate groups.
 */
module Sweep {
  import opened Geometry

  datatype BoxBound = Begin | End

  datatype SweepAxis = X | Y

  /** One end of a body's bounding interval; `owner` is the body's index in the world. */
  datatype BoundingPoint = BoundingPoint(bound: BoxBound, owner: nat)

  /**
   * BoundingPoint::getCoordinate, given each body's bounding box in world
   * coordinates: on X a Begin is the box's left and an End its right, on Y a
   * Begin is the box's bottom and an End its top.
   */
  function Coordinate(p: BoundingPoint, boxes: seq<Rect>, axis: SweepAxis): (r: int)
    requires p.owner < |boxes|
    ensures axis == X && boxes[p.owner].left <= boxes[p.owner].right ==>
      boxes[p.owner].left <= r <= boxes[p.owner].right
    ensures axis == Y && boxes[p.owner].top <= boxes[p.owner].bottom ==>
      boxes[p.owner].top <= r <= boxes[p.owner].bottom
  {
    var box := boxes[p.owner];
    match p.bound
    case Begin => if axis == X then box.left else box.bottom
    case End => if axis == X then box.right else box.top
  }

  /** No box ends to the left of where it begins, so on X no body's End precedes its Begin. */
  ghost predicate OrderedOnX(boxes: seq<Rect>)
  {
    forall z :: 0 <= z < |boxes| ==> boxes[z].left <= boxes[z].right
  }

  // ---------------------------------------------------------------------
  // The shape of the endpoint list
  // ---------------------------------------------------------------------

  ghost predicate IndicesBelow(pts: seq<BoundingPoint>, n: nat)
  {
    forall k :: 0 <= k < |pts| ==> pts[k].owner < n
  }

  ghost predicate Distinct(pts: seq<BoundingPoint>)
  {
    forall p, q :: 0 <= p < q < |pts| ==> pts[p] != pts[q]
  }

  /** Exactly one Begin and one End for each of the n boxes, and nothing else. */
  ghost predicate WellFormed(pts: seq<BoundingPoint>, n: nat)
  {
    && |pts| == 2 * n
    && IndicesBelow(pts, n)
    && Distinct(pts)
    && (forall x :: 0 <= x < n ==> BoundingPoint(Begin, x) in pts)
    && (forall x :: 0 <= x < n ==> BoundingPoint(End, x) in pts)
  }

  /** Every body's Begin precedes its End in the list. */
  ghost predicate BeginBeforeEnd(pts: seq<BoundingPoint>)
  {
    forall p, q ::
      (0 <= p < |pts| && 0 <= q < |pts| && pts[p].bound == Begin &&
       pts[q] == BoundingPoint(End, pts[p].owner)) ==> p < q
  }

  /** Coordinates along `axis` never decrease along the list. */
  ghost predicate SortedBy(pts: seq<BoundingPoint>, boxes: seq<Rect>, axis: SweepAxis)
  {
    && IndicesBelow(pts, |boxes|)
    && forall p, q :: 0 <= p < q < |pts| ==>
      Coordinate(pts[p], boxes, axis) <= Coordinate(pts[q], boxes, axis)
  }

  /** The list sweepBoundingPoints builds: Begin and End of body 0, then of body 1, and so on. */
  function InitialPoints(n: nat): (r: seq<BoundingPoint>)
    ensures |r| == 2 * n
  {
    if n == 0 then []
    else InitialPoints(n - 1) + [BoundingPoint(Begin, n - 1), BoundingPoint(End, n - 1)]
  }

  /** Body x's Begin is at position 2x and its End right after. */
  lemma {:induction false} InitialPointsLayout(n: nat)
    ensures forall x :: 0 <= x < n ==>
      InitialPoints(n)[2 * x] == BoundingPoint(Begin, x) && InitialPoints(n)[2 * x + 1] == BoundingPoint(End, x)
  {
    if n > 0 {
      InitialPointsLayout(n - 1);
      var r, t := InitialPoints(n), InitialPoints(n - 1);
      assert forall k :: 0 <= k < |t| ==> r[k] == t[k];
    }
  }

  /** Only the initial list is laid out body by body, Begin then End. */
  lemma InitialPointsByBody(s: seq<BoundingPoint>, n: nat)
    requires |s| == 2 * n
    requires forall x :: 0 <= x < n ==> s[2 * x] == BoundingPoint(Begin, x) && s[2 * x + 1] == BoundingPoint(End, x)
    ensures s == InitialPoints(n)
  {
    var r := InitialPoints(n);
    InitialPointsLayout(n);
    forall k | 0 <= k < |s|
      ensures s[k] == r[k]
    {
      var x := k / 2;
      assert x < n && s[2 * x] == r[2 * x];
      if k != 2 * x {
        assert s[2 * x + 1] == r[2 * x + 1];
      }
    }
  }

  /** The initial list holds each body's two points once, Begin first. */
  lemma InitialPointsWellFormed(n: nat)
    ensures WellFormed(InitialPoints(n), n)
    ensures BeginBeforeEnd(InitialPoints(n))
  {
    var r := InitialPoints(n);
    InitialPointsLayout(n);
    forall x | 0 <= x < n
      ensures BoundingPoint(Begin, x) in r && BoundingPoint(End, x) in r
    {
      assert r[2 * x] == BoundingPoint(Begin, x);
      assert r[2 * x + 1] == BoundingPoint(End, x);
    }
  }

  // ---------------------------------------------------------------------
  // The open-interval counter
  // ---------------------------------------------------------------------

  /** The prune scan's counter groupObjects after it has read the points of s. */
  function OpenCount(s: seq<BoundingPoint>): int
  {
    if s == [] then 0
    else OpenCount(s[..|s| - 1]) + (if s[|s| - 1].bound == Begin then 1 else -1)
  }

  lemma OpenCountStep(pts: seq<BoundingPoint>, k: nat)
    requires k < |pts|
    ensures OpenCount(pts[..k + 1]) == OpenCount(pts[..k]) + (if pts[k].bound == Begin then 1 else -1)
  {
    assert pts[..k + 1][..k] == pts[..k];
  }

  /** The boxes whose Begin has been read and whose End has not. */
  ghost function OpenSet(s: seq<BoundingPoint>): set<nat>
  {
    set p | p in s && p.bound == Begin && BoundingPoint(End, p.owner) !in s :: p.owner
  }

  /** Reading a Begin opens its body, which was not open before. */
  lemma OpenSetAfterBegin(pts: seq<BoundingPoint>, n: nat, k: nat)
    requires WellFormed(pts, n) && BeginBeforeEnd(pts)
    requires 0 < k <= |pts| && pts[k - 1].bound == Begin
    ensures pts[k - 1].owner !in OpenSet(pts[..k - 1])
    ensures OpenSet(pts[..k]) == OpenSet(pts[..k - 1]) + {pts[k - 1].owner}
  {
    var s, e := pts[..k - 1], pts[k - 1];
    assert pts[..k] == s + [e];
    var x := e.owner;
    assert BoundingPoint(End, x) !in s + [e] by {
      var q :| 0 <= q < |pts| && pts[q] == BoundingPoint(End, x);
      assert k - 1 < q;
    }
    forall y | y in OpenSet(s + [e])
      ensures y in OpenSet(s) + {x}
    {
      var p :| p in s + [e] && p.bound == Begin && BoundingPoint(End, p.owner) !in s + [e] && p.owner == y;
      if p != e {
        assert p in s;
      }
    }
    forall y | y in OpenSet(s) + {x}
      ensures y in OpenSet(s + [e])
    {
      if y != x {
        var p :| p in s && p.bound == Begin && BoundingPoint(End, p.owner) !in s && p.owner == y;
        assert p in s + [e];
      } else {
        assert e in s + [e];
      }
    }
  }

  /** Reading an End closes its body, which was open before. */
  lemma OpenSetAfterEnd(pts: seq<BoundingPoint>, n: nat, k: nat)
    requires WellFormed(pts, n) && BeginBeforeEnd(pts)
    requires 0 < k <= |pts| && pts[k - 1].bound == End
    ensures pts[k - 1].owner in OpenSet(pts[..k - 1])
    ensures OpenSet(pts[..k]) == OpenSet(pts[..k - 1]) - {pts[k - 1].owner}
  {
    var s, e := pts[..k - 1], pts[k - 1];
    assert pts[..k] == s + [e];
    var x := e.owner;
    var b :| 0 <= b < |pts| && pts[b] == BoundingPoint(Begin, x);
    assert b < k - 1;
    assert pts[b] in s;
    forall y | y in OpenSet(s + [e])
      ensures y in OpenSet(s) - {x}
    {
      var p :| p in s + [e] && p.bound == Begin && BoundingPoint(End, p.owner) !in s + [e] && p.owner == y;
      assert p in s;
    }
    forall y | y in OpenSet(s) - {x}
      ensures y in OpenSet(s + [e])
    {
      var p :| p in s && p.bound == Begin && BoundingPoint(End, p.owner) !in s && p.owner == y;
      assert p in s + [e];
    }
  }

  /** In a well-formed list with every Begin before its End, the counter counts the open boxes. */
  lemma {:induction false} OpenCountIsOpenSetSize(pts: seq<BoundingPoint>, n: nat, k: nat)
    requires WellFormed(pts, n) && BeginBeforeEnd(pts)
    requires k <= |pts|
    ensures OpenCount(pts[..k]) == |OpenSet(pts[..k])|
  {
    if k > 0 {
      OpenCountIsOpenSetSize(pts, n, k - 1);
      OpenCountStep(pts, k - 1);
      if pts[k - 1].bound == Begin {
        OpenSetAfterBegin(pts, n, k);
      } else {
        OpenSetAfterEnd(pts, n, k);
      }
    }
  }

  /** The counter never drops below zero and is back at zero after the whole list. */
  ghost predicate Balanced(pts: seq<BoundingPoint>)
  {
    && (forall k :: 0 <= k <= |pts| ==> OpenCount(pts[..k]) >= 0)
    && OpenCount(pts) == 0
  }

  /** Given every Begin before its End, the counter stays at or above zero and ends at zero. */
  lemma CounterBalanced(pts: seq<BoundingPoint>, n: nat)
    requires WellFormed(pts, n) && BeginBeforeEnd(pts)
    ensures Balanced(pts)
  {
    forall k | 0 <= k <= |pts|
      ensures OpenCount(pts[..k]) >= 0
    {
      OpenCountIsOpenSetSize(pts, n, k);
    }
    OpenCountIsOpenSetSize(pts, n, |pts|);
    assert pts[..|pts|] == pts;
    assert OpenSet(pts) == {};
  }

  /** A body is open, so the counter is positive, from just after its Begin up to its End. */
  lemma OpenInsideInterval(pts: seq<BoundingPoint>, n: nat, b: nat, e: nat, k: nat)
    requires WellFormed(pts, n) && BeginBeforeEnd(pts)
    requires b < k <= e < |pts|
    requires pts[b].bound == Begin && pts[e] == BoundingPoint(End, pts[b].owner)
    ensures OpenCount(pts[..k]) >= 1
  {
    OpenCountIsOpenSetSize(pts, n, k);
    var s := pts[..k];
    assert pts[b] in s;
    assert pts[b].owner in OpenSet(s);
  }

  // ---------------------------------------------------------------------
  // Sorting the endpoints
  // ---------------------------------------------------------------------

  /** `origin` maps each of n positions to a different one of the same n positions. */
  ghost predicate IsPermutation(origin: seq<nat>, n: nat)
  {
    && |origin| == n
    && (forall k :: 0 <= k < n ==> origin[k] < n)
    && (forall k, l :: 0 <= k < l < n ==> origin[k] != origin[l])
  }

  lemma {:induction false} SubsetSmaller(a: set<nat>, b: set<nat>)
    requires a <= b
    ensures |a| <= |b|
    ensures a != b ==> |a| < |b|
    decreases |b|
  {
    if b != {} {
      var x :| x in b;
      var b' := b - {x};
      assert |b'| == |b| - 1;
      if x in a {
        var a' := a - {x};
        assert |a'| == |a| - 1;
        assert a != b ==> a' != b' by {
          if a' == b' {
            assert a == a' + {x} && b == b' + {x};
          }
        }
        SubsetSmaller(a', b');
      } else {
        SubsetSmaller(a, b');
      }
    }
  }

  ghost function Image(origin: seq<nat>, m: nat): (r: set<nat>)
    requires m <= |origin|
    ensures forall v :: v in r <==> exists k :: 0 <= k < m && origin[k] == v
  {
    set k | 0 <= k < m :: origin[k]
  }

  lemma {:induction false} ImageSize(origin: seq<nat>, m: nat)
    requires m <= |origin|
    requires forall k, l :: 0 <= k < l < m ==> origin[k] != origin[l]
    ensures |Image(origin, m)| == m
  {
    if m > 0 {
      ImageSize(origin, m - 1);
      assert origin[m - 1] !in Image(origin, m - 1);
      assert Image(origin, m) == Image(origin, m - 1) + {origin[m - 1]};
    }
  }

  /** The positions below n. */
  ghost function Below(n: nat): (r: set<nat>)
    ensures forall m: nat :: m in r <==> m < n
    ensures |r| == n
  {
    if n == 0 then {} else Below(n - 1) + {n - 1}
  }

  /** A permutation reaches every position: nothing is lost by rearranging. */
  lemma PermutationOnto(origin: seq<nat>, n: nat)
    requires IsPermutation(origin, n)
    ensures forall m :: 0 <= m < n ==> m in origin
  {
    ImageSize(origin, n);
    SubsetSmaller(Image(origin, n), Below(n));
    forall m | 0 <= m < n
      ensures m in origin
    {
      assert m in Below(n);
      assert m in Image(origin, n);
    }
  }

  /** Points with equal coordinates keep the order in which they came. */
  ghost predicate Stable(pts: seq<BoundingPoint>, origin: seq<nat>, boxes: seq<Rect>, axis: SweepAxis)
    requires IndicesBelow(pts, |boxes|) && |origin| == |pts|
  {
    forall k, l ::
      (0 <= k < l < |pts| && Coordinate(pts[k], boxes, axis) == Coordinate(pts[l], boxes, axis)) ==>
      origin[k] < origin[l]
  }

  /** s holds the points of s0 in another order: the point at k came from origin[k]. */
  ghost predicate Rearranged(s: seq<BoundingPoint>, origin: seq<nat>, s0: seq<BoundingPoint>)
  {
    && |s| == |s0|
    && IsPermutation(origin, |s|)
    && (forall k :: 0 <= k < |s| ==> s[k] == s0[origin[k]])
  }

  /** Rearranging keeps exactly the same points. */
  lemma RearrangedSamePoints(s: seq<BoundingPoint>, origin: seq<nat>, s0: seq<BoundingPoint>)
    requires Rearranged(s, origin, s0)
    ensures forall p :: p in s <==> p in s0
  {
    PermutationOnto(origin, |s|);
    forall p | p in s0
      ensures p in s
    {
      var m :| 0 <= m < |s0| && s0[m] == p;
      assert m in origin;
      var k :| 0 <= k < |s| && origin[k] == m;
      assert s[k] == p;
    }
  }

  /** The sequence with the elements at j - 1 and j exchanged. */
  function SwapDown<T>(s: seq<T>, j: nat): seq<T>
    requires 0 < j < |s|
  {
    s[j := s[j - 1]][j - 1 := s[j]]
  }

  /** std::swap of two neighbouring points in the array. */
  method SwapAdjacent(a: array<BoundingPoint>, j: nat)
    requires 0 < j < a.Length
    modifies a
    ensures a[..] == SwapDown(old(a[..]), j)
  {
    a[j], a[j - 1] := a[j - 1], a[j];
  }

  lemma SwapKeepsRearranged(s: seq<BoundingPoint>, origin: seq<nat>, s0: seq<BoundingPoint>, j: nat)
    requires Rearranged(s, origin, s0) && 0 < j < |s|
    ensures Rearranged(SwapDown(s, j), SwapDown(origin, j), s0)
  {
  }

  /** The outer loop's state: positions below i are sorted and stable, the rest untouched. */
  ghost predicate Inserted(s: seq<BoundingPoint>, origin: seq<nat>, boxes: seq<Rect>, axis: SweepAxis, i: nat)
  {
    && IndicesBelow(s, |boxes|)
    && |origin| == |s|
    && (forall k :: i <= k < |s| ==> origin[k] == k)
    && (forall k :: 0 <= k < i && k < |s| ==> origin[k] < i)
    && (forall p, q :: 0 <= p < q < i && q < |s| ==>
         Coordinate(s[p], boxes, axis) <= Coordinate(s[q], boxes, axis))
    && (forall p, q ::
         (0 <= p < q < i && q < |s| && Coordinate(s[p], boxes, axis) == Coordinate(s[q], boxes, axis)) ==>
         origin[p] < origin[q])
  }

  /**
   * The inner loop's state while the point that started at i moves down: up
   * to i, everything but position j is in order, and the point at j is no
   * larger than anything after it.
   */
  ghost predicate Inserting(s: seq<BoundingPoint>, origin: seq<nat>, boxes: seq<Rect>, axis: SweepAxis, i: nat, j: nat)
  {
    && IndicesBelow(s, |boxes|)
    && |origin| == |s|
    && j <= i < |s|
    && (forall k :: i < k < |s| ==> origin[k] == k)
    && (forall k :: 0 <= k <= i ==> origin[k] <= i)
    && (forall p, q :: 0 <= p < q <= i && p != j && q != j ==>
         Coordinate(s[p], boxes, axis) <= Coordinate(s[q], boxes, axis))
    && (forall q :: j < q <= i ==> Coordinate(s[j], boxes, axis) <= Coordinate(s[q], boxes, axis))
    && (forall p, q ::
         (0 <= p < q <= i && Coordinate(s[p], boxes, axis) == Coordinate(s[q], boxes, axis)) ==>
         origin[p] < origin[q])
  }

  lemma StartInserting(s: seq<BoundingPoint>, origin: seq<nat>, boxes: seq<Rect>, axis: SweepAxis, i: nat)
    requires Inserted(s, origin, boxes, axis, i) && i < |s|
    ensures Inserting(s, origin, boxes, axis, i, i)
  {
  }

  lemma SwapKeepsInserting(s: seq<BoundingPoint>, origin: seq<nat>, boxes: seq<Rect>, axis: SweepAxis, i: nat, j: nat)
    requires Inserting(s, origin, boxes, axis, i, j) && 0 < j
    requires Coordinate(s[j], boxes, axis) < Coordinate(s[j - 1], boxes, axis)
    ensures Inserting(SwapDown(s, j), SwapDown(origin, j), boxes, axis, i, j - 1)
  {
  }

  lemma StayKeepsInserting(s: seq<BoundingPoint>, origin: seq<nat>, boxes: seq<Rect>, axis: SweepAxis, i: nat, j: nat)
    requires Inserting(s, origin, boxes, axis, i, j) && 0 < j
    requires Coordinate(s[j - 1], boxes, axis) <= Coordinate(s[j], boxes, axis)
    ensures Inserting(s, origin, boxes, axis, i, j - 1)
  {
  }

  lemma FinishInserting(s: seq<BoundingPoint>, origin: seq<nat>, boxes: seq<Rect>, axis: SweepAxis, i: nat)
    requires Inserting(s, origin, boxes, axis, i, 0)
    ensures Inserted(s, origin, boxes, axis, i + 1)
  {
  }

  lemma InsertedAll(s: seq<BoundingPoint>, origin: seq<nat>, boxes: seq<Rect>, axis: SweepAxis, i: nat)
    requires Inserted(s, origin, boxes, axis, i) && |s| <= i
    ensures SortedBy(s, boxes, axis) && Stable(s, origin, boxes, axis)
  {
  }

  /**
   * Physics::sortBoundingPoints: insertion sort on the coordinates of the
   * current body states. The ghost result tells where each point came from:
   * the points are rearranged, sorted, and points with equal coordinates stay
   * in their previous order.
   */
  method SortBoundingPoints(a: array<BoundingPoint>, boxes: seq<Rect>, axis: SweepAxis)
      returns (ghost origin: seq<nat>)
    requires IndicesBelow(a[..], |boxes|)
    modifies a
    ensures SortedBy(a[..], boxes, axis)
    ensures Rearranged(a[..], origin, old(a[..]))
    ensures Stable(a[..], origin, boxes, axis)
  {
    var pointsTotal := a.Length;
    origin := seq(pointsTotal, k => k);
    var i := 1;
    while i < pointsTotal
      invariant 1 <= i && (i <= pointsTotal || pointsTotal == 0)
      invariant Rearranged(a[..], origin, old(a[..]))
      invariant Inserted(a[..], origin, boxes, axis, i)
    {
      origin := SinkPoint(a, boxes, axis, i, origin, old(a[..]));
      i := i + 1;
    }
    InsertedAll(a[..], origin, boxes, axis, i);
  }

  /**
   * The inner loop of Physics::sortBoundingPoints: the point at i moves down
   * by adjacent swaps while its coordinate is below its left neighbour's.
   * Afterwards the first i + 1 points are sorted and stable.
   */
  method SinkPoint(a: array<BoundingPoint>, boxes: seq<Rect>, axis: SweepAxis, i: nat,
                   ghost origin0: seq<nat>, ghost s0: seq<BoundingPoint>)
      returns (ghost origin: seq<nat>)
    requires i < a.Length
    requires Rearranged(a[..], origin0, s0)
    requires Inserted(a[..], origin0, boxes, axis, i)
    modifies a
    ensures Rearranged(a[..], origin, s0)
    ensures Inserted(a[..], origin, boxes, axis, i + 1)
  {
    origin := origin0;
    ghost var current := a[..];
    StartInserting(current, origin, boxes, axis, i);
    var j: nat := i;
    while j > 0
      invariant a[..] == current
      invariant Rearranged(current, origin, s0)
      invariant Inserting(current, origin, boxes, axis, i, j)
    {
      if Coordinate(a[j], boxes, axis) < Coordinate(a[j - 1], boxes, axis) {
        SwapKeepsRearranged(current, origin, s0, j);
        SwapKeepsInserting(current, origin, boxes, axis, i, j);
        origin := SwapDown(origin, j);
        current := SwapDown(current, j);
        SwapAdjacent(a, j);
      } else {
        StayKeepsInserting(current, origin, boxes, axis, i, j);
      }
      j := j - 1;
    }
    FinishInserting(current, origin, boxes, axis, i);
  }

  /** Sorting keeps each body's two points, once each. */
  lemma SortKeepsWellFormed(s: seq<BoundingPoint>, origin: seq<nat>, s0: seq<BoundingPoint>, n: nat)
    requires Rearranged(s, origin, s0) && WellFormed(s0, n)
    ensures WellFormed(s, n)
  {
    RearrangedSamePoints(s, origin, s0);
    forall p, q | 0 <= p < q < |s|
      ensures s[p] != s[q]
    {
      if origin[p] < origin[q] {
        assert s0[origin[p]] != s0[origin[q]];
      } else {
        assert s0[origin[q]] != s0[origin[p]];
      }
    }
  }

  /**
   * On X, where no body ends before it begins, a stable sort cannot move a
   * body's End in front of its Begin: if they tie, stability keeps their old order.
   */
  lemma StableSortKeepsBeginBeforeEnd(s: seq<BoundingPoint>, origin: seq<nat>, s0: seq<BoundingPoint>, boxes: seq<Rect>)
    requires Rearranged(s, origin, s0) && BeginBeforeEnd(s0)
    requires SortedBy(s, boxes, X) && Stable(s, origin, boxes, X)
    requires OrderedOnX(boxes)
    ensures BeginBeforeEnd(s)
  {
    forall p, q | 0 <= p < |s| && 0 <= q < |s| && s[p].bound == Begin && s[q] == BoundingPoint(End, s[p].owner)
      ensures p < q
    {
    }
  }

  // ---------------------------------------------------------------------
  // Pruning the sorted endpoints into groups
  // ---------------------------------------------------------------------

  /** No body has two End points in the list. */
  ghost predicate DistinctEnds(pts: seq<BoundingPoint>)
  {
    forall p, q :: 0 <= p < q < |pts| && pts[p].bound == End && pts[q].bound == End ==>
      pts[p].owner != pts[q].owner
  }

  lemma WellFormedDistinctEnds(pts: seq<BoundingPoint>, n: nat)
    requires WellFormed(pts, n)
    ensures DistinctEnds(pts)
  {
  }

  /** The boxes whose End lies at a position in [a, b). */
  ghost function EndObjects(pts: seq<BoundingPoint>, a: nat, b: nat): set<nat>
    requires a <= b <= |pts|
  {
    set k | a <= k < b && pts[k].bound == End :: pts[k].owner
  }

  lemma EndObjectsStep(pts: seq<BoundingPoint>, a: nat, k: nat)
    requires a <= k < |pts|
    ensures pts[k].bound == Begin ==> EndObjects(pts, a, k + 1) == EndObjects(pts, a, k)
    ensures pts[k].bound == End ==> EndObjects(pts, a, k + 1) == EndObjects(pts, a, k) + {pts[k].owner}
  {
  }

  /** With distinct Ends, the body of the End at p is among those of [a, b) exactly when p is. */
  lemma EndObjectsMember(pts: seq<BoundingPoint>, a: nat, b: nat, p: nat)
    requires DistinctEnds(pts) && a <= b <= |pts| && p < |pts| && pts[p].bound == End
    ensures pts[p].owner in EndObjects(pts, a, b) <==> a <= p < b
  {
    if pts[p].owner in EndObjects(pts, a, b) {
      var r :| a <= r < b && pts[r].bound == End && pts[r].owner == pts[p].owner;
      assert r == p;
    }
  }

  /** Ends in [0, s) and in [s, b) together are those in [0, b). */
  lemma EndObjectsSplit(pts: seq<BoundingPoint>, s: nat, b: nat)
    requires s <= b <= |pts|
    ensures EndObjects(pts, 0, s) + EndObjects(pts, s, b) == EndObjects(pts, 0, b)
  {
  }

  /** With distinct Ends, boxes ending in [0, s) and in [s, b) are different boxes. */
  lemma EndObjectsDisjoint(pts: seq<BoundingPoint>, s: nat, b: nat)
    requires DistinctEnds(pts) && s <= b <= |pts|
    ensures EndObjects(pts, 0, s) !! EndObjects(pts, s, b)
  {
  }

  /** The scan's counter is nonzero after every point in (p, q]: no interval boundary lies between. */
  ghost predicate OpenThrough(pts: seq<BoundingPoint>, p: nat, q: nat)
  {
    q <= |pts| && forall k :: p < k <= q ==> OpenCount(pts[..k]) != 0
  }

  /** Some group holds both x and y. */
  ghost predicate Together(groups: seq<set<nat>>, x: nat, y: nat)
  {
    exists i :: 0 <= i < |groups| && x in groups[i] && y in groups[i]
  }

  lemma TogetherAppend(groups: seq<set<nat>>, g: set<nat>, x: nat, y: nat)
    ensures Together(groups + [g], x, y) <==> Together(groups, x, y) || (x in g && y in g)
  {
    if Together(groups + [g], x, y) {
      var i :| 0 <= i < |groups| + 1 && x in (groups + [g])[i] && y in (groups + [g])[i];
      if i < |groups| {
        assert x in groups[i] && y in groups[i];
      }
    }
    if Together(groups, x, y) {
      var i :| 0 <= i < |groups| && x in groups[i] && y in groups[i];
      assert (groups + [g])[i] == groups[i];
    }
    if x in g && y in g {
      assert (groups + [g])[|groups|] == g;
    }
  }

  lemma ReplaceLast<T>(xs: seq<T>, a: T, b: T)
    ensures (xs + [a])[|xs| := b] == xs + [b]
  {
  }

  /** Groups of at least two boxes, no body in two groups. */
  ghost predicate Partitioned(groups: seq<set<nat>>)
  {
    && (forall i :: 0 <= i < |groups| ==> |groups[i]| >= 2)
    && (forall i, j :: 0 <= i < j < |groups| ==> groups[i] !! groups[j])
  }

  /**
   * For End points at p < q < s: their boxes share a group exactly when the
   * counter stays nonzero from p to q.
   */
  ghost predicate PairsMatch(pts: seq<BoundingPoint>, groups: seq<set<nat>>, s: nat)
  {
    forall p, q {:trigger OpenThrough(pts, p, q)} ::
      0 <= p < q < s && q < |pts| && pts[p].bound == End && pts[q].bound == End ==>
      (Together(groups, pts[p].owner, pts[q].owner) <==> OpenThrough(pts, p, q))
  }

  /** A closed group is cut at a zero of the counter; pairs across the cut are never together. */
  lemma CutKeepsPairs(pts: seq<BoundingPoint>, closed: seq<set<nat>>, g: set<nat>, s: nat, k: nat)
    requires DistinctEnds(pts) && s <= k < |pts|
    requires OpenCount(pts[..s]) == 0 && OpenThrough(pts, s, k)
    requires forall i :: 0 <= i < |closed| ==> closed[i] <= EndObjects(pts, 0, s)
    requires PairsMatch(pts, closed, s)
    requires g == {} || g == EndObjects(pts, s, k + 1)
    requires g == {} ==> |EndObjects(pts, s, k + 1)| <= 1
    ensures PairsMatch(pts, closed + [g], k + 1)
  {
    forall p, q | 0 <= p < q < k + 1 && pts[p].bound == End && pts[q].bound == End
      ensures Together(closed + [g], pts[p].owner, pts[q].owner) <==> OpenThrough(pts, p, q)
    {
      var x, y := pts[p].owner, pts[q].owner;
      TogetherAppend(closed, g, x, y);
      EndObjectsMember(pts, s, k + 1, p);
      EndObjectsMember(pts, s, k + 1, q);
      if q < s {
        assert !(x in g && y in g);
      } else if p < s {
        assert !OpenThrough(pts, p, q);
        EndObjectsMember(pts, 0, s, q);
        assert !Together(closed, x, y);
      } else {
        assert OpenThrough(pts, p, q);
        if g == {} {
          assert {x, y} <= EndObjects(pts, s, k + 1);
          SubsetSmaller({x, y}, EndObjects(pts, s, k + 1));
        }
      }
    }
  }

  /**
   * Bodies x and y end at two End points between which the counter of open
   * intervals never returns to zero: the prune scan puts them in one group.
   */
  ghost predicate SameGroup(pts: seq<BoundingPoint>, x: nat, y: nat)
  {
    exists p, q :: 0 <= p < q < |pts| && pts[p].bound == End && pts[q].bound == End &&
      ((pts[p].owner == x && pts[q].owner == y) || (pts[p].owner == y && pts[q].owner == x)) &&
      OpenThrough(pts, p, q)
  }

  /** Groups that match the counter pair by pair are exactly the SameGroup relation. */
  lemma PairsMatchSameGroup(pts: seq<BoundingPoint>, groups: seq<set<nat>>)
    requires DistinctEnds(pts) && PairsMatch(pts, groups, |pts|)
    requires forall i :: 0 <= i < |groups| ==> groups[i] <= EndObjects(pts, 0, |pts|)
    ensures forall x, y :: x != y ==> (Together(groups, x, y) <==> SameGroup(pts, x, y))
  {
    forall x, y | x != y
      ensures Together(groups, x, y) <==> SameGroup(pts, x, y)
    {
      if Together(groups, x, y) {
        var i :| 0 <= i < |groups| && x in groups[i] && y in groups[i];
        var px :| 0 <= px < |pts| && pts[px].bound == End && pts[px].owner == x;
        var py :| 0 <= py < |pts| && pts[py].bound == End && pts[py].owner == y;
        if px < py {
          assert OpenThrough(pts, px, py);
        } else {
          assert Together(groups, y, x);
          assert OpenThrough(pts, py, px);
        }
      }
      if SameGroup(pts, x, y) {
        var p, q :| 0 <= p < q < |pts| && pts[p].bound == End && pts[q].bound == End &&
          ((pts[p].owner == x && pts[q].owner == y) || (pts[p].owner == y && pts[q].owner == x)) &&
          OpenThrough(pts, p, q);
        assert Together(groups, pts[p].owner, pts[q].owner);
        var i :| 0 <= i < |groups| && pts[p].owner in groups[i] && pts[q].owner in groups[i];
        assert x in groups[i] && y in groups[i];
      }
    }
  }

  /**
   * What the prune scan knows after reading the first k points: the counter,
   * the position s after the last zero of the counter (the counter stays
   * nonzero from there on), the groups closed so far, and the open group,
   * which holds the boxes whose End lies in [s, k).
   */
  ghost predicate Scanned(pts: seq<BoundingPoint>, k: nat, groupObjects: int, open: bool,
                          activeGroups: seq<set<nat>>, closed: seq<set<nat>>, s: nat)
  {
    && s <= k <= |pts|
    && groupObjects == OpenCount(pts[..k])
    && OpenCount(pts[..s]) == 0
    && OpenThrough(pts, s, k)
    && (!open ==> s == k)
    && activeGroups == (if open then closed + [EndObjects(pts, s, k)] else closed)
    && (forall i :: 0 <= i < |closed| ==> closed[i] <= EndObjects(pts, 0, s))
    && (Balanced(pts) && DistinctEnds(pts) ==> Partitioned(closed) && PairsMatch(pts, closed, s))
  }

  lemma ScanStart(pts: seq<BoundingPoint>)
    ensures Scanned(pts, 0, 0, false, [], [], 0)
  {
    assert pts[..0] == [];
  }

  /** Opening a new, empty group where none is open. */
  lemma OpenNewGroup(pts: seq<BoundingPoint>, k: nat, groupObjects: int, activeGroups: seq<set<nat>>, closed: seq<set<nat>>, s: nat)
    requires Scanned(pts, k, groupObjects, false, activeGroups, closed, s)
    ensures Scanned(pts, k, groupObjects, true, activeGroups + [{}], closed, s)
  {
    assert EndObjects(pts, k, k) == {};
  }

  /** Reading point k: a Begin raises the counter, an End lowers it and joins the open group. */
  lemma ReadPoint(pts: seq<BoundingPoint>, k: nat, groupObjects: int, activeGroups: seq<set<nat>>, closed: seq<set<nat>>, s: nat)
    requires Scanned(pts, k, groupObjects, true, activeGroups, closed, s) && k < |pts|
    ensures groupObjects + (if pts[k].bound == Begin then 1 else -1) == OpenCount(pts[..k + 1])
    ensures pts[k].bound == Begin ==> activeGroups == closed + [EndObjects(pts, s, k + 1)]
    ensures pts[k].bound == End ==>
      activeGroups[|activeGroups| - 1 := activeGroups[|activeGroups| - 1] + {pts[k].owner}]
      == closed + [EndObjects(pts, s, k + 1)]
  {
    OpenCountStep(pts, k);
    EndObjectsStep(pts, s, k);
    ReplaceLast(closed, EndObjects(pts, s, k), EndObjects(pts, s, k + 1));
  }

  /** The counter is still nonzero after point k: the open group goes on. */
  lemma StayOpen(pts: seq<BoundingPoint>, k: nat, groupObjects: int, activeGroups: seq<set<nat>>, closed: seq<set<nat>>, s: nat)
    requires Scanned(pts, k, groupObjects, true, activeGroups, closed, s) && k < |pts|
    requires OpenCount(pts[..k + 1]) != 0
    ensures Scanned(pts, k + 1, OpenCount(pts[..k + 1]), true, closed + [EndObjects(pts, s, k + 1)], closed, s)
  {
  }

  /** The counter is back at zero and the open group holds a single body: it is emptied for reuse. */
  lemma ClearGroup(pts: seq<BoundingPoint>, k: nat, groupObjects: int, activeGroups: seq<set<nat>>, closed: seq<set<nat>>, s: nat)
    requires Scanned(pts, k, groupObjects, true, activeGroups, closed, s) && k < |pts|
    requires OpenCount(pts[..k + 1]) == 0 && |EndObjects(pts, s, k + 1)| == 1
    ensures Scanned(pts, k + 1, 0, true, closed + [{}], closed, k + 1)
  {
    EndObjectsSplit(pts, s, k + 1);
    assert EndObjects(pts, k + 1, k + 1) == {};
    if Balanced(pts) && DistinctEnds(pts) {
      CutKeepsPairs(pts, closed, {}, s, k);
    }
  }

  /** The counter is back at zero and the open group holds two or more boxes: it is kept. */
  lemma CloseGroup(pts: seq<BoundingPoint>, k: nat, groupObjects: int, activeGroups: seq<set<nat>>, closed: seq<set<nat>>, s: nat)
    requires Scanned(pts, k, groupObjects, true, activeGroups, closed, s) && k < |pts|
    requires OpenCount(pts[..k + 1]) == 0 && |EndObjects(pts, s, k + 1)| != 1
    ensures Scanned(pts, k + 1, 0, false, closed + [EndObjects(pts, s, k + 1)],
                    closed + [EndObjects(pts, s, k + 1)], k + 1)
  {
    EndObjectsSplit(pts, s, k + 1);
    AppendWithin(closed, EndObjects(pts, s, k + 1), EndObjects(pts, 0, s), EndObjects(pts, 0, k + 1));
    if Balanced(pts) && DistinctEnds(pts) {
      CloseKeepsPartition(pts, closed, s, k);
    }
  }

  /** The closed group is nonempty, disjoint from the earlier groups, and cut at a zero of the counter. */
  lemma CloseKeepsPartition(pts: seq<BoundingPoint>, closed: seq<set<nat>>, s: nat, k: nat)
    requires DistinctEnds(pts) && s <= k < |pts|
    requires OpenCount(pts[..s]) == 0 && OpenThrough(pts, s, k)
    requires forall i :: 0 <= i < |closed| ==> closed[i] <= EndObjects(pts, 0, s)
    requires Partitioned(closed) && PairsMatch(pts, closed, s)
    requires OpenCount(pts[..k]) >= 0 && OpenCount(pts[..k + 1]) == 0
    requires |EndObjects(pts, s, k + 1)| != 1
    ensures Partitioned(closed + [EndObjects(pts, s, k + 1)])
    ensures PairsMatch(pts, closed + [EndObjects(pts, s, k + 1)], k + 1)
  {
    var g := EndObjects(pts, s, k + 1);
    EndObjectsDisjoint(pts, s, k + 1);
    CutKeepsPairs(pts, closed, g, s, k);
    OpenCountStep(pts, k);
    EndObjectsStep(pts, s, k);
    assert pts[k].owner in g;
    AppendPartitioned(closed, g, EndObjects(pts, 0, s));
  }

  lemma AppendWithin(closed: seq<set<nat>>, g: set<nat>, bound: set<nat>, bound': set<nat>)
    requires forall i :: 0 <= i < |closed| ==> closed[i] <= bound
    requires bound <= bound' && g <= bound'
    ensures forall i :: 0 <= i < |closed + [g]| ==> (closed + [g])[i] <= bound'
  {
  }

  /** A group of two or more, disjoint from every earlier group, keeps the groups a partition. */
  lemma AppendPartitioned(closed: seq<set<nat>>, g: set<nat>, bound: set<nat>)
    requires Partitioned(closed)
    requires forall i :: 0 <= i < |closed| ==> closed[i] <= bound
    requires bound !! g && g != {} && |g| != 1
    ensures Partitioned(closed + [g])
  {
    var closed' := closed + [g];
    assert forall i :: 0 <= i < |closed| ==> closed'[i] == closed[i];
    assert closed'[|closed|] == g;
  }

  /** At the end of a balanced scan the last zero is at the end, so only empty groups stay open. */
  lemma ScanEnd(pts: seq<BoundingPoint>, groupObjects: int, open: bool, activeGroups: seq<set<nat>>, closed: seq<set<nat>>, s: nat)
    requires Scanned(pts, |pts|, groupObjects, open, activeGroups, closed, s)
    requires Balanced(pts)
    ensures s == |pts|
    ensures open ==> activeGroups == closed + [{}]
  {
    assert pts[..|pts|] == pts;
    assert EndObjects(pts, |pts|, |pts|) == {};
  }

  /**
   * Physics::pruneBoundingPoints: one pass over the points with a counter of
   * open intervals. Each End adds its body to the current group; when the
   * counter returns to zero the group is kept if it holds two or more boxes
   * and emptied for reuse otherwise; an empty group left at the end is
   * dropped. Whenever the counter stays balanced and no body has two Ends,
   * the result is a set of disjoint groups of two or more, and two boxes
   * share a group exactly when the counter never reaches zero between their Ends.
   */
  method PruneBoundingPoints(pts: seq<BoundingPoint>) returns (activeGroups: seq<set<nat>>)
    ensures Balanced(pts) && DistinctEnds(pts) ==> Partitioned(activeGroups)
    ensures Balanced(pts) && DistinctEnds(pts) ==>
      forall i :: 0 <= i < |activeGroups| ==> activeGroups[i] <= EndObjects(pts, 0, |pts|)
    ensures Balanced(pts) && DistinctEnds(pts) ==>
      forall x, y :: x != y ==> (Together(activeGroups, x, y) <==> SameGroup(pts, x, y))
  {
    activeGroups := [];
    var groupObjects := 0;
    var open := false;
    ghost var closed: seq<set<nat>> := [];
    ghost var s: nat := 0;
    ScanStart(pts);
    for k := 0 to |pts|
      invariant Scanned(pts, k, groupObjects, open, activeGroups, closed, s)
    {
      var point := pts[k];
      if !open {
        OpenNewGroup(pts, k, groupObjects, activeGroups, closed, s);
        activeGroups := activeGroups + [{}];
        open := true;
      }
      ReadPoint(pts, k, groupObjects, activeGroups, closed, s);
      ghost var groupObjects0, activeGroups0 := groupObjects, activeGroups;
      var current := |activeGroups| - 1;
      if point.bound == Begin {
        groupObjects := groupObjects + 1;
      } else {
        activeGroups := activeGroups[current := activeGroups[current] + {point.owner}];
        groupObjects := groupObjects - 1;
      }
      if groupObjects == 0 {
        if |activeGroups[current]| == 1 {
          ClearGroup(pts, k, groupObjects0, activeGroups0, closed, s);
          ReplaceLast(closed, EndObjects(pts, s, k + 1), {});
          activeGroups := activeGroups[current := {}];
          assert activeGroups == closed + [{}];
        } else {
          CloseGroup(pts, k, groupObjects0, activeGroups0, closed, s);
          closed := activeGroups;
          open := false;
        }
        s := k + 1;
      } else {
        StayOpen(pts, k, groupObjects0, activeGroups0, closed, s);
        assert activeGroups == closed + [EndObjects(pts, s, k + 1)];
      }
      assert Scanned(pts, k + 1, groupObjects, open, activeGroups, closed, s);
    }
    if Balanced(pts) {
      ScanEnd(pts, groupObjects, open, activeGroups, closed, s);
    }
    if open && |activeGroups[|activeGroups| - 1]| == 0 {
      activeGroups := activeGroups[..|activeGroups| - 1];
    }
    if Balanced(pts) && DistinctEnds(pts) {
      assert activeGroups == closed;
      PairsMatchSameGroup(pts, activeGroups);
    }
  }

  // ---------------------------------------------------------------------
  // What the groups mean for the boxes' boxes
  // ---------------------------------------------------------------------

  lemma OverlapOrdered(pts: seq<BoundingPoint>, boxes: seq<Rect>, ex: nat, ey: nat, b: nat)
    requires WellFormed(pts, |boxes|) && BeginBeforeEnd(pts) && SortedBy(pts, boxes, X)
    requires ex < ey < |pts| && b < |pts|
    requires pts[ex].bound == End && pts[b].bound == Begin && pts[ey] == BoundingPoint(End, pts[b].owner)
    requires Coordinate(pts[b], boxes, X) < Coordinate(pts[ex], boxes, X)
    ensures OpenThrough(pts, ex, ey)
  {
    forall k | ex < k <= ey
      ensures OpenCount(pts[..k]) != 0
    {
      OpenInsideInterval(pts, |boxes|, b, ey, k);
    }
  }

  /**
   * Completeness of the broad phase on X: two boxes whose boxes overlap
   * strictly along X end up in one group.
   */
  lemma OverlapImpliesSameGroup(pts: seq<BoundingPoint>, boxes: seq<Rect>, x: nat, y: nat)
    requires WellFormed(pts, |boxes|) && BeginBeforeEnd(pts) && SortedBy(pts, boxes, X)
    requires x < |boxes| && y < |boxes| && x != y
    requires Coordinate(BoundingPoint(Begin, x), boxes, X) < Coordinate(BoundingPoint(End, y), boxes, X)
    requires Coordinate(BoundingPoint(Begin, y), boxes, X) < Coordinate(BoundingPoint(End, x), boxes, X)
    ensures SameGroup(pts, x, y)
  {
    var beginX :| 0 <= beginX < |pts| && pts[beginX] == BoundingPoint(Begin, x);
    var ex :| 0 <= ex < |pts| && pts[ex] == BoundingPoint(End, x);
    var beginY :| 0 <= beginY < |pts| && pts[beginY] == BoundingPoint(Begin, y);
    var ey :| 0 <= ey < |pts| && pts[ey] == BoundingPoint(End, y);
    if ex < ey {
      OverlapOrdered(pts, boxes, ex, ey, beginY);
    } else {
      assert ey < ex;
      OverlapOrdered(pts, boxes, ey, ex, beginX);
    }
  }

  lemma OpenThroughJoin(pts: seq<BoundingPoint>, a: nat, b: nat, c: nat, d: nat)
    requires OpenThrough(pts, a, b) && OpenThrough(pts, c, d) && c <= b
    ensures forall p, q :: a <= p <= q <= d ==> OpenThrough(pts, p, q)
  {
  }

  /** Sharing a group is transitive: the groups are the classes of SameGroup. */
  lemma SameGroupTransitive(pts: seq<BoundingPoint>, x: nat, y: nat, z: nat)
    requires DistinctEnds(pts)
    requires SameGroup(pts, x, y) && SameGroup(pts, y, z) && x != z
    ensures SameGroup(pts, x, z)
  {
    var p1, q1 :| 0 <= p1 < q1 < |pts| && pts[p1].bound == End && pts[q1].bound == End &&
      ((pts[p1].owner == x && pts[q1].owner == y) || (pts[p1].owner == y && pts[q1].owner == x)) &&
      OpenThrough(pts, p1, q1);
    var p2, q2 :| 0 <= p2 < q2 < |pts| && pts[p2].bound == End && pts[q2].bound == End &&
      ((pts[p2].owner == y && pts[q2].owner == z) || (pts[p2].owner == z && pts[q2].owner == y)) &&
      OpenThrough(pts, p2, q2);
    var ex, ey := if pts[p1].owner == x then p1 else q1, if pts[p1].owner == x then q1 else p1;
    var ey', ez := if pts[p2].owner == y then p2 else q2, if pts[p2].owner == y then q2 else p2;
    assert ey == ey';
    if p1 <= p2 {
      OpenThroughJoin(pts, p1, q1, p2, q2);
    } else {
      OpenThroughJoin(pts, p2, q2, p1, q1);
    }
    if ex < ez {
      assert OpenThrough(pts, ex, ez);
    } else {
      assert ex != ez;
      assert OpenThrough(pts, ez, ex);
    }
  }

  /** The points sorted on X split at c: those before k lie left of c, the rest at or right of it. */
  lemma CutPosition(pts: seq<BoundingPoint>, boxes: seq<Rect>, c: int) returns (k: nat)
    requires IndicesBelow(pts, |boxes|) && SortedBy(pts, boxes, X)
    ensures k <= |pts|
    ensures forall j :: 0 <= j < k ==> Coordinate(pts[j], boxes, X) < c
    ensures forall j :: k <= j < |pts| ==> c <= Coordinate(pts[j], boxes, X)
  {
    k := 0;
    while k < |pts| && Coordinate(pts[k], boxes, X) < c
      invariant k <= |pts|
      invariant forall j :: 0 <= j < k ==> Coordinate(pts[j], boxes, X) < c
    {
      k := k + 1;
    }
    forall j | k <= j < |pts|
      ensures c <= Coordinate(pts[j], boxes, X)
    {
      assert Coordinate(pts[k], boxes, X) <= Coordinate(pts[j], boxes, X);
    }
  }

  /** No box crosses the line c, so at the cut no interval is open. */
  lemma NothingOpenAtCut(pts: seq<BoundingPoint>, boxes: seq<Rect>, c: int, k: nat)
    requires WellFormed(pts, |boxes|) && BeginBeforeEnd(pts)
    requires forall z :: 0 <= z < |boxes| ==>
      Coordinate(BoundingPoint(End, z), boxes, X) < c || c <= Coordinate(BoundingPoint(Begin, z), boxes, X)
    requires k <= |pts|
    requires forall j :: 0 <= j < k ==> Coordinate(pts[j], boxes, X) < c
    requires forall j :: k <= j < |pts| ==> c <= Coordinate(pts[j], boxes, X)
    ensures OpenCount(pts[..k]) == 0
  {
    OpenCountIsOpenSetSize(pts, |boxes|, k);
    forall z | z in OpenSet(pts[..k])
      ensures false
    {
    }
    assert OpenSet(pts[..k]) == {};
  }

  /**
   * Soundness for separated boxes: if no box crosses a vertical line c, a
   * body ending before c and one beginning at or after c are never grouped.
   */
  lemma SeparatedNotSameGroup(pts: seq<BoundingPoint>, boxes: seq<Rect>, c: int, x: nat, y: nat)
    requires WellFormed(pts, |boxes|) && BeginBeforeEnd(pts) && SortedBy(pts, boxes, X)
    requires OrderedOnX(boxes)
    requires forall z :: 0 <= z < |boxes| ==>
      Coordinate(BoundingPoint(End, z), boxes, X) < c || c <= Coordinate(BoundingPoint(Begin, z), boxes, X)
    requires x < |boxes| && y < |boxes|
    requires Coordinate(BoundingPoint(End, x), boxes, X) < c <= Coordinate(BoundingPoint(Begin, y), boxes, X)
    ensures !SameGroup(pts, x, y)
  {
    var k := CutPosition(pts, boxes, c);
    NothingOpenAtCut(pts, boxes, c, k);
    var ex :| 0 <= ex < |pts| && pts[ex] == BoundingPoint(End, x);
    var ey :| 0 <= ey < |pts| && pts[ey] == BoundingPoint(End, y);
    assert Coordinate(pts[ey], boxes, X) >= c;
    assert ex < k <= ey;
  }
}
