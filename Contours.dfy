/** Contours as delivered by the library's contour finder: closed polygons given
    as ordered sequences of integer points, and the two measurements the
    detector takes of them, the enclosed area and the bounding rectangle. */
module Contours {
  import opened Geometry

  type Contour = seq<Point>

  /** Twice the signed area of the trapezoid under the edge p -> q. */
  function Cross(p: Point, q: Point): int
  {
    p.x * q.y - q.x * p.y
  }

  /** Shoelace sum over the edges of the path c, closed back to `first`. */
  function ShoelaceSum(c: seq<Point>, first: Point): int
    decreases |c|
  {
    if |c| == 0 then 0
    else if |c| == 1 then Cross(c[0], first)
    else Cross(c[0], c[1]) + ShoelaceSum(c[1..], first)
  }

  function Abs(n: int): nat { if n < 0 then -n else n }

  /** Twice the (unsigned) area of the polygon c, as contourArea computes it
      without orientation: an integer, so "area > 500" is "Area2 > 1000". A
      contour of fewer than three points encloses nothing. */
  function Area2(c: Contour): nat
  {
    if |c| == 0 then 0 else Abs(ShoelaceSum(c, c[0]))
  }

  /** A contour of fewer than three points (a single pixel, a line segment)
      encloses no area, so it never passes an area filter. */
  lemma DegenerateContourArea(c: Contour)
    requires |c| < 3
    ensures Area2(c) == 0
  {
    if |c| == 2 {
      assert c[1..][0] == c[1];
      assert ShoelaceSum(c, c[0]) == Cross(c[0], c[1]) + Cross(c[1], c[0]);
    }
  }

  /** The x coordinates, then the y coordinates, of the points of c. */
  function Xs(c: Contour): (xs: seq<int>)
    ensures |xs| == |c| && forall i :: 0 <= i < |c| ==> xs[i] == c[i].x
  {
    seq(|c|, i requires 0 <= i < |c| => c[i].x)
  }

  function Ys(c: Contour): (ys: seq<int>)
    ensures |ys| == |c| && forall i :: 0 <= i < |c| ==> ys[i] == c[i].y
  {
    seq(|c|, i requires 0 <= i < |c| => c[i].y)
  }

  /** Smallest element of a non-empty sequence. */
  function Min(s: seq<int>): (m: int)
    requires |s| > 0
    ensures m in s
    ensures forall i :: 0 <= i < |s| ==> m <= s[i]
  {
    if |s| == 1 then s[0]
    else
      var rest := Min(s[1..]);
      if s[0] <= rest then s[0] else rest
  }

  /** Largest element of a non-empty sequence. */
  function Max(s: seq<int>): (m: int)
    requires |s| > 0
    ensures m in s
    ensures forall i :: 0 <= i < |s| ==> s[i] <= m
  {
    if |s| == 1 then s[0]
    else
      var rest := Max(s[1..]);
      if s[0] >= rest then s[0] else rest
  }

  /** boundingRect of a point set: the smallest upright rectangle holding every
      point, one pixel wider than the x span and one taller than the y span;
      the empty point set gives the empty rectangle. */
  function BoundingRect(c: Contour): (r: Rectangle)
    ensures |c| == 0 ==> r == Empty
    ensures |c| > 0 ==> r.width >= 1 && r.height >= 1
    ensures forall i :: 0 <= i < |c| ==> Contains(r, c[i].x, c[i].y)
    // tight: a point of c touches each of the four edges
    ensures |c| > 0 ==> (exists i :: 0 <= i < |c| && c[i].x == r.x)
    ensures |c| > 0 ==> (exists i :: 0 <= i < |c| && c[i].x == Right(r) - 1)
    ensures |c| > 0 ==> (exists i :: 0 <= i < |c| && c[i].y == r.y)
    ensures |c| > 0 ==> (exists i :: 0 <= i < |c| && c[i].y == Bottom(r) - 1)
  {
    if |c| == 0 then Empty
    else
      var minX, maxX := Min(Xs(c)), Max(Xs(c));
      var minY, maxY := Min(Ys(c)), Max(Ys(c));
      Rectangle(minX, minY, maxX - minX + 1, maxY - minY + 1)
  }

  /** The four corner points the contour finder reports (with the simple chain
      approximation) for a solid upright block of pixels spanning columns
      x0..x1 and rows y0..y1. */
  function BlockContour(x0: int, y0: int, x1: int, y1: int): Contour
  {
    [Point(x0, y0), Point(x0, y1), Point(x1, y1), Point(x1, y0)]
  }

  /** A solid block's contour has a bounding rectangle equal to the block's own
      pixel bounds. */
  lemma BlockContourBounds(x0: int, y0: int, x1: int, y1: int)
    requires x0 <= x1 && y0 <= y1
    ensures BoundingRect(BlockContour(x0, y0, x1, y1)) == Rectangle(x0, y0, x1 - x0 + 1, y1 - y0 + 1)
  {
    var c := BlockContour(x0, y0, x1, y1);
    var xs, ys := Xs(c), Ys(c);
    assert xs[0] == x0 && xs[2] == x1 && ys[0] == y0 && ys[1] == y1;
    assert forall i :: 0 <= i < 4 ==> x0 <= xs[i] <= x1 && y0 <= ys[i] <= y1;
    var r := BoundingRect(c);
    assert r.x == Min(xs) && r.y == Min(ys);
    assert Min(xs) == x0 && Max(xs) == x1 && Min(ys) == y0 && Max(ys) == y1;
  }

  /** Twice the polygon area of a solid block's contour is
      2 * (x1 - x0) * (y1 - y0): the corner-to-corner area, one pixel less
      in each direction than the block's pixel count. */
  lemma BlockContourArea(x0: int, y0: int, x1: int, y1: int)
    requires x0 <= x1 && y0 <= y1
    ensures Area2(BlockContour(x0, y0, x1, y1)) == 2 * ((x1 - x0) * (y1 - y0))
  {
    var a, b, d, e := Point(x0, y0), Point(x0, y1), Point(x1, y1), Point(x1, y0);
    var c := [a, b, d, e];
    assert ShoelaceSum([e], a) == Cross(e, a);
    assert [d, e][1..] == [e];
    assert ShoelaceSum([d, e], a) == Cross(d, e) + Cross(e, a);
    assert [b, d, e][1..] == [d, e];
    assert ShoelaceSum([b, d, e], a) == Cross(b, d) + Cross(d, e) + Cross(e, a);
    assert c[1..] == [b, d, e];
    var sum := ShoelaceSum(c, a);
    assert sum == Cross(a, b) + Cross(b, d) + Cross(d, e) + Cross(e, a);
    assert sum == (x0 * y1 - x0 * y0) + (x0 * y1 - x1 * y1) + (x1 * y0 - x1 * y1) + (x1 * y0 - x0 * y0);
    assert (x1 - x0) * (y1 - y0) == x1 * y1 - x1 * y0 - x0 * y1 + x0 * y0;
    assert (x1 - x0) * (y1 - y0) >= 0;
  }
}
