/**
 * The tour evaluator: the length of a closed cycle through indexed points.
 *
 * The Euclidean edge length `hypot` used by `totalDistance` is abstracted as a parameter
 * `len`; the facts a lemma needs about it (non-negative, zero on a
 * self-edge, symmetric) are stated as predicates in its `requires`.
 */
module TourDistance {

  /** A point in the plane; supplied by the caller and never changed. */
  datatype Point = Point(x: real, y: real)

  /** Every index of the route names one of the coordinates. */
  ghost predicate ValidRoute(coords: seq<Point>, route: seq<nat>) {
    forall i :: 0 <= i < |route| ==> route[i] < |coords|
  }

  ghost predicate NonNegativeLengths(len: (Point, Point) -> real) {
    forall p, q :: len(p, q) >= 0.0
  }

  ghost predicate ZeroSelfLength(len: (Point, Point) -> real) {
    forall p :: len(p, p) == 0.0
  }

  ghost predicate Symmetric(len: (Point, Point) -> real) {
    forall p, q :: len(p, q) == len(q, p)
  }

  /** The length of the i-th edge of the cycle: from route[i] to route[(i+1) % n]. */
  function EdgeLength(coords: seq<Point>, len: (Point, Point) -> real, route: seq<nat>, i: nat): (r: real)
    requires ValidRoute(coords, route)
    requires i < |route|
    ensures NonNegativeLengths(len) ==> r >= 0.0
    ensures i + 1 < |route| ==> r == len(coords[route[i]], coords[route[i + 1]])
    ensures i + 1 == |route| ==> r == len(coords[route[i]], coords[route[0]])
  {
    len(coords[route[i]], coords[route[(i + 1) % |route|]])
  }

  /** The sum of the first k edges of the cycle, 0 <= k <= n. */
  function PartialDistance(coords: seq<Point>, len: (Point, Point) -> real, route: seq<nat>, k: nat): (r: real)
    requires ValidRoute(coords, route)
    requires k <= |route|
    ensures NonNegativeLengths(len) ==> r >= 0.0
  {
    if k == 0 then 0.0
    else PartialDistance(coords, len, route, k - 1) + EdgeLength(coords, len, route, k - 1)
  }

  /**
   * The total length of the closed tour: all n edges, the last one
   * leading back from the final point to the first.
   */
  function TotalDistance(coords: seq<Point>, len: (Point, Point) -> real, route: seq<nat>): (r: real)
    requires ValidRoute(coords, route)
    ensures NonNegativeLengths(len) ==> r >= 0.0
    ensures |route| == 0 ==> r == 0.0
    ensures |route| == 1 ==> r == len(coords[route[0]], coords[route[0]])
    ensures |route| == 1 && ZeroSelfLength(len) ==> r == 0.0
  {
    assert |route| == 1 ==> PartialDistance(coords, len, route, 1) == EdgeLength(coords, len, route, 0);
    PartialDistance(coords, len, route, |route|)
  }

  /** The evaluator as `totalDistance` computes it: one accumulating loop over the n edges. */
  method ComputeTotalDistance(coords: seq<Point>, len: (Point, Point) -> real, route: seq<nat>)
    returns (dist: real)
    requires ValidRoute(coords, route)
    ensures dist == TotalDistance(coords, len, route)
  {
    dist := 0.0;
    var n := |route|;
    for i := 0 to n
      invariant dist == PartialDistance(coords, len, route, i)
    {
      var p := coords[route[i]];
      var q := coords[route[(i + 1) % n]];
      dist := dist + len(p, q);
    }
  }

  /**
   * An independent reference: the length of the open path through the
   * route, first point to last, without the closing edge.
   */
  ghost function PathLength(coords: seq<Point>, len: (Point, Point) -> real, route: seq<nat>): real
    requires ValidRoute(coords, route)
  {
    if |route| <= 1 then 0.0
    else len(coords[route[0]], coords[route[1]]) + PathLength(coords, len, route[1..])
  }

  /** Extending a path by one point adds the one edge into it. */
  lemma {:induction false} PathLengthAppend(coords: seq<Point>, len: (Point, Point) -> real, s: seq<nat>, b: nat)
    requires ValidRoute(coords, s) && b < |coords|
    requires |s| >= 1
    ensures ValidRoute(coords, s + [b])
    ensures PathLength(coords, len, s + [b]) == PathLength(coords, len, s) + len(coords[s[|s| - 1]], coords[b])
  {
    if |s| > 1 {
      assert (s + [b])[1..] == s[1..] + [b];
      PathLengthAppend(coords, len, s[1..], b);
    }
  }

  /** The first k edges of the cycle, k < n, are exactly the open path through the first k + 1 points. */
  lemma {:induction false} PartialDistanceIsPath(coords: seq<Point>, len: (Point, Point) -> real, route: seq<nat>, k: nat)
    requires ValidRoute(coords, route)
    requires k < |route|
    ensures PartialDistance(coords, len, route, k) == PathLength(coords, len, route[..k + 1])
  {
    if k > 0 {
      PartialDistanceIsPath(coords, len, route, k - 1);
      assert route[..k + 1] == route[..k] + [route[k]];
      PathLengthAppend(coords, len, route[..k], route[k]);
    }
  }

  /**
   * The tour adds exactly n edges: the open path through all n points
   * plus the closing edge from the last point back to the first.
   */
  lemma ClosingEdge(coords: seq<Point>, len: (Point, Point) -> real, route: seq<nat>)
    requires ValidRoute(coords, route)
    requires |route| >= 1
    ensures TotalDistance(coords, len, route)
         == PathLength(coords, len, route) + len(coords[route[|route| - 1]], coords[route[0]])
  {
    var n := |route|;
    PartialDistanceIsPath(coords, len, route, n - 1);
    assert route[..n] == route;
  }

  /** The tour started at position k instead of position 0. */
  function Rotate(route: seq<nat>, k: nat): (r: seq<nat>)
    requires k <= |route|
    ensures |r| == |route|
    ensures forall i :: 0 <= i < |route| - k ==> r[i] == route[i + k]
    ensures forall i :: |route| - k <= i < |route| ==> r[i] == route[i + k - |route|]
  {
    route[k..] + route[..k]
  }

  /** Starting the cycle one point later leaves its length unchanged. */
  lemma RotateOnce(coords: seq<Point>, len: (Point, Point) -> real, route: seq<nat>)
    requires ValidRoute(coords, route)
    requires |route| >= 1
    ensures ValidRoute(coords, Rotate(route, 1))
    ensures TotalDistance(coords, len, Rotate(route, 1)) == TotalDistance(coords, len, route)
  {
    if |route| > 1 {
      var a, s := route[0], route[1..];
      assert route == [a] + s;
      assert Rotate(route, 1) == s + [a];
      ClosingEdge(coords, len, route);
      ClosingEdge(coords, len, s + [a]);
      PathLengthAppend(coords, len, s, a);
    }
  }

  /** Cyclic invariance: the length of a tour does not depend on where the cycle starts. */
  lemma {:induction false} RotationInvariant(coords: seq<Point>, len: (Point, Point) -> real, route: seq<nat>, k: nat)
    requires ValidRoute(coords, route)
    requires k <= |route|
    ensures ValidRoute(coords, Rotate(route, k))
    ensures TotalDistance(coords, len, Rotate(route, k)) == TotalDistance(coords, len, route)
  {
    if k > 0 {
      RotationInvariant(coords, len, route, k - 1);
      var r := Rotate(route, k - 1);
      RotateOnce(coords, len, r);
      assert Rotate(r, 1) == Rotate(route, k);
    } else {
      assert Rotate(route, 0) == route;
    }
  }

  function Reverse(route: seq<nat>): (r: seq<nat>)
    ensures |r| == |route|
    ensures forall i :: 0 <= i < |route| ==> r[i] == route[|route| - 1 - i]
  {
    if route == [] then [] else Reverse(route[1..]) + [route[0]]
  }

  /** With a symmetric edge length, an open path is as long backwards as forwards. */
  lemma {:induction false} PathLengthReverse(coords: seq<Point>, len: (Point, Point) -> real, route: seq<nat>)
    requires ValidRoute(coords, route)
    requires Symmetric(len)
    ensures ValidRoute(coords, Reverse(route))
    ensures PathLength(coords, len, Reverse(route)) == PathLength(coords, len, route)
  {
    if |route| > 1 {
      var s := route[1..];
      PathLengthReverse(coords, len, s);
      assert Reverse(route) == Reverse(s) + [route[0]];
      PathLengthAppend(coords, len, Reverse(s), route[0]);
    }
  }

  /** With a symmetric edge length, travelling the tour in the opposite direction gives the same length. */
  lemma ReversalInvariant(coords: seq<Point>, len: (Point, Point) -> real, route: seq<nat>)
    requires ValidRoute(coords, route)
    requires Symmetric(len)
    ensures ValidRoute(coords, Reverse(route))
    ensures TotalDistance(coords, len, Reverse(route)) == TotalDistance(coords, len, route)
  {
    PathLengthReverse(coords, len, route);
    if |route| >= 1 {
      ClosingEdge(coords, len, route);
      ClosingEdge(coords, len, Reverse(route));
    }
  }
}
