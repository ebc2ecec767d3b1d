/** Contours: ordered integer pixel coordinates as authored in an ROI's edge
    map, and the (doubled) absolute shoelace area used to rank them. */
module Contours {

  /** One edge-map point `(xCoord, yCoord)`. */
  type Point = (int, int)

  /** A boundary as listed in the document; winding and simplicity are not guaranteed. */
  type Contour = seq<Point>

  function Abs(n: int): (r: nat)
    ensures r == n || r == -n
  {
    if n < 0 then -n else n
  }

  /** The shoelace term of the edge from `p` to `q`. */
  function Cross(p: Point, q: Point): int
  {
    p.0 * q.1 - q.0 * p.1
  }

  /** Sum of the shoelace terms of the open chain `c[0] -> c[1] -> ... -> c[|c|-1]`. */
  function OpenSum(c: Contour): int
  {
    if |c| < 2 then 0 else Cross(c[0], c[1]) + OpenSum(c[1..])
  }

  /** Twice the signed area of the closed polygon: the open chain plus the
      closing edge from the last point back to the first. An empty contour has
      no edges; a single point closes onto itself. */
  function ShoelaceSum(c: Contour): int
  {
    if |c| == 0 then 0 else OpenSum(c) + Cross(c[|c| - 1], c[0])
  }

  /** Twice the unoriented polygon area, in exact integers. It orders
      contours as OpenCV's area does for coordinates small enough that
      OpenCV's 32-bit and single-precision conversions are exact. */
  function DoubledArea(c: Contour): nat
  {
    Abs(ShoelaceSum(c))
  }

  function Reverse(c: Contour): (r: Contour)
    ensures |r| == |c|
    ensures forall i :: 0 <= i < |c| ==> r[i] == c[|c| - 1 - i]
  {
    if |c| == 0 then [] else Reverse(c[1..]) + [c[0]]
  }

  /** Fewer than three points enclose nothing: such a contour can never be chosen. */
  lemma DegenerateHasNoArea(c: Contour)
    requires |c| < 3
    ensures DoubledArea(c) == 0
  {
    if |c| == 2 {
      assert OpenSum(c) == Cross(c[0], c[1]);
    }
  }

  lemma {:induction false} OpenSumSnoc(c: Contour, p: Point)
    requires |c| >= 1
    ensures OpenSum(c + [p]) == OpenSum(c) + Cross(c[|c| - 1], p)
  {
    if |c| == 1 {
      assert c + [p] == [c[0], p];
    } else {
      assert (c + [p])[1..] == c[1..] + [p];
      OpenSumSnoc(c[1..], p);
    }
  }

  lemma {:induction false} OpenSumReverse(c: Contour)
    ensures OpenSum(Reverse(c)) == -OpenSum(c)
  {
    if |c| >= 2 {
      var t := c[1..];
      assert Reverse(c) == Reverse(t) + [c[0]];
      OpenSumSnoc(Reverse(t), c[0]);
      OpenSumReverse(t);
      assert Reverse(t)[|t| - 1] == t[0];
    }
  }

  /** The area ignores the winding direction: listing the boundary backwards
      yields the same area. */
  lemma {:induction false} AreaIgnoresWinding(c: Contour)
    ensures ShoelaceSum(Reverse(c)) == -ShoelaceSum(c)
    ensures DoubledArea(Reverse(c)) == DoubledArea(c)
  {
    if |c| > 0 {
      OpenSumReverse(c);
      assert Reverse(c)[0] == c[|c| - 1];
      assert Reverse(c)[|c| - 1] == c[0];
    }
  }

  /** The 3 x 4 axis-aligned rectangle has area 12, i.e. doubled area 24. */
  lemma RectangleArea()
    ensures DoubledArea([(1, 1), (4, 1), (4, 5), (1, 5)]) == 24
  {
  }
}
