/** Geometry derived from the chosen contour: bounding box, the area reported
    with it, and the flat coordinate list it is serialised as. */
module Geometry {
  import opened Contours

  /** `[x, y, width, height]`: the top-left corner and the extent. */
  datatype BBox = BBox(x: int, y: int, w: int, h: int)

  /** What is recorded for one nodule on one image. */
  datatype NoduleGeometry = NoduleGeometry(segmentation: seq<int>, bbox: BBox, area: int)

  /** The column `c[:, 0]`. */
  function Xs(c: Contour): (r: seq<int>)
    ensures |r| == |c| && forall i :: 0 <= i < |c| ==> r[i] == c[i].0
  {
    seq(|c|, i requires 0 <= i < |c| => c[i].0)
  }

  /** The column `c[:, 1]`. */
  function Ys(c: Contour): (r: seq<int>)
    ensures |r| == |c| && forall i :: 0 <= i < |c| ==> r[i] == c[i].1
  {
    seq(|c|, i requires 0 <= i < |c| => c[i].1)
  }

  function Min(s: seq<int>): (r: int)
    requires |s| > 0
    ensures forall i :: 0 <= i < |s| ==> r <= s[i]
    ensures exists i :: 0 <= i < |s| && s[i] == r
  {
    if |s| == 1 then s[0]
    else
      var m := Min(s[1..]);
      assert forall i :: 1 <= i < |s| ==> s[i] == s[1..][i - 1];
      if s[0] <= m then s[0] else m
  }

  function Max(s: seq<int>): (r: int)
    requires |s| > 0
    ensures forall i :: 0 <= i < |s| ==> s[i] <= r
    ensures exists i :: 0 <= i < |s| && s[i] == r
  {
    if |s| == 1 then s[0]
    else
      var m := Max(s[1..]);
      assert forall i :: 1 <= i < |s| ==> s[i] == s[1..][i - 1];
      if s[0] >= m then s[0] else m
  }

  /** The tightest axis-aligned box around the contour: its extent is never
      negative, every point lies inside it, and each of its four sides passes
      through a point of the contour. */
  function BoundingBox(c: Contour): (b: BBox)
    requires |c| > 0
    ensures b.w >= 0 && b.h >= 0
    ensures forall i :: 0 <= i < |c| ==>
      b.x <= c[i].0 <= b.x + b.w && b.y <= c[i].1 <= b.y + b.h
    ensures exists i :: 0 <= i < |c| && c[i].0 == b.x
    ensures exists i :: 0 <= i < |c| && c[i].1 == b.y
    ensures exists i :: 0 <= i < |c| && c[i].0 == b.x + b.w
    ensures exists i :: 0 <= i < |c| && c[i].1 == b.y + b.h
  {
    var xs, ys := Xs(c), Ys(c);
    BBox(Min(xs), Min(ys), Max(xs) - Min(xs), Max(ys) - Min(ys))
  }

  /** `[x1, y1, x2, y2, ...]`. */
  function Flatten(c: Contour): (r: seq<int>)
    ensures |r| == 2 * |c|
  {
    if |c| == 0 then [] else [c[0].0, c[0].1] + Flatten(c[1..])
  }

  /** Regrouping a flat list into points, as `reshape(-1, 2)` does. */
  function Pairs(s: seq<int>): (r: Contour)
    requires |s| % 2 == 0
    ensures |r| == |s| / 2
  {
    if |s| == 0 then [] else [(s[0], s[1])] + Pairs(s[2..])
  }

  /** Regrouping the serialised segmentation gives back the contour exactly,
      so the polygon filled into the mask is the one that was chosen. */
  lemma {:induction false} PairsFlatten(c: Contour)
    ensures Pairs(Flatten(c)) == c
  {
    if |c| > 0 {
      var f := Flatten(c);
      assert f[2..] == Flatten(c[1..]);
      PairsFlatten(c[1..]);
    }
  }

  /** Every even-length coordinate list is the flattening of its pairs. */
  lemma {:induction false} FlattenPairs(s: seq<int>)
    requires |s| % 2 == 0
    ensures Flatten(Pairs(s)) == s
  {
    if |s| > 0 {
      var p := Pairs(s);
      FlattenPairs(s[2..]);
      assert p[0] == (s[0], s[1]) && p[1..] == Pairs(s[2..]);
      assert Flatten(p) == [s[0], s[1]] + s[2..];
    }
  }

  /** Flattening places the `i`-th point at positions `2i` and `2i + 1`. */
  lemma {:induction false} FlattenAt(c: Contour, i: int)
    requires 0 <= i < |c|
    ensures Flatten(c)[2 * i] == c[i].0 && Flatten(c)[2 * i + 1] == c[i].1
  {
    if i > 0 {
      FlattenAt(c[1..], i - 1);
    }
  }

  /** The geometry recorded for the chosen contour: its bounding box, the
      box's area (not the polygon's), and its flat point list, which
      regroups into the contour. */
  function Derive(c: Contour): (g: NoduleGeometry)
    requires |c| > 0
    ensures g.bbox == BoundingBox(c)
    ensures g.area == g.bbox.w * g.bbox.h
    ensures |g.segmentation| == 2 * |c| && Pairs(g.segmentation) == c
  {
    PairsFlatten(c);
    var b := BoundingBox(c);
    NoduleGeometry(Flatten(c), b, b.w * b.h)
  }

  lemma RectangleBox()
    ensures BoundingBox([(1, 1), (4, 1), (4, 5), (1, 5)]) == BBox(1, 1, 3, 4)
  {
    var c := [(1, 1), (4, 1), (4, 5), (1, 5)];
    var xs, ys := Xs(c), Ys(c);
    assert xs == [1, 4, 4, 1] && ys == [1, 1, 5, 5];
    assert Min(xs) == 1 by { assert Min(xs) <= xs[0]; }
    assert Max(xs) == 4 by { assert Max(xs) >= xs[1]; }
    assert Min(ys) == 1 by { assert Min(ys) <= ys[0]; }
    assert Max(ys) == 5 by { assert Max(ys) >= ys[2]; }
  }

  lemma RectangleFlat()
    ensures Flatten([(1, 1), (4, 1), (4, 5), (1, 5)]) == [1, 1, 4, 1, 4, 5, 1, 5]
  {
    var c := [(1, 1), (4, 1), (4, 5), (1, 5)];
    assert Flatten(c[3..]) == [1, 5];
    assert Flatten(c[2..]) == [4, 5, 1, 5];
    assert Flatten(c[1..]) == [4, 1, 4, 5, 1, 5];
  }

  /** The 3 x 4 rectangle at (1, 1): box `[1, 1, 3, 4]`, area 12, and its
      points serialised in order. */
  lemma RectangleGeometry()
    ensures Derive([(1, 1), (4, 1), (4, 5), (1, 5)]).bbox == BBox(1, 1, 3, 4)
    ensures Derive([(1, 1), (4, 1), (4, 5), (1, 5)]).area == 12
    ensures Derive([(1, 1), (4, 1), (4, 5), (1, 5)]).segmentation == [1, 1, 4, 1, 4, 5, 1, 5]
  {
    RectangleBox();
    RectangleFlat();
  }
}
