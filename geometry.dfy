/** Exact integer plane geometry of the random path generator: points, directed
    lines (segments), the oriented-triangle area and the intersection predicates
    a new line is tested with before it joins the path. */
module Geometry {

  /** A point of the plane; the generator only ever produces integer coordinates. */
  datatype Point = Point(x: int, y: int)

  /** A directed segment from `begin` to `end`; it may have length zero. */
  datatype Line = Line(begin: Point, end: Point)

  const Origin: Point := Point(0, 0)

  /** `Point.__eq__`: both coordinates agree. */
  function PointEq(p: Point, q: Point): (r: bool)
    ensures r <==> p == q
  {
    if p.x == q.x && p.y == q.y then true else false
  }

  /** `Point.__ne__`: the negation of `PointEq`. */
  function PointNe(p: Point, q: Point): (r: bool)
    ensures r <==> p != q
  {
    !PointEq(p, q)
  }

  /** The square of the Euclidean distance between the two ends of `l`
      (the radicand of `__distance`). */
  function SquaredLength(l: Line): (r: int)
    ensures r >= 0
    ensures r == 0 <==> l.begin == l.end
  {
    var dx := l.end.x - l.begin.x;
    var dy := l.end.y - l.begin.y;
    SquareNonNegative(dx);
    SquareNonNegative(dy);
    dx * dx + dy * dy
  }

  /** A square is never negative, and zero only for zero. */
  lemma SquareNonNegative(n: int)
    ensures n * n >= 0
    ensures n * n == 0 <==> n == 0
  {
  }

  /** `length() > 0`. The square root of a non-negative integer is positive
      exactly when the integer is. */
  function HasLength(l: Line): (r: bool)
    ensures r <==> l.begin != l.end
  {
    SquaredLength(l) > 0
  }

  /** `__area`: twice the signed area of the triangle a-b-c (the cross product
      of b - a and c - a). Positive for a counter-clockwise turn, zero when
      the three points are collinear. */
  function Area(a: Point, b: Point, c: Point): (r: int)
    ensures a == b || a == c || b == c ==> r == 0
  {
    (b.x - a.x) * (c.y - a.y) - (b.y - a.y) * (c.x - a.x)
  }

  /** Exchanging any two vertices reverses the orientation. */
  lemma AreaSwap(a: Point, b: Point, c: Point)
    ensures Area(b, a, c) == -Area(a, b, c)
    ensures Area(a, c, b) == -Area(a, b, c)
    ensures Area(c, b, a) == -Area(a, b, c)
  {
  }

  /** A point `c` with `q * (c - a) == p * (b - a)` for some `q != 0`, that is
      a point on the line through `a` and `b`, gives a zero area. */
  lemma AreaZeroOnLine(a: Point, b: Point, c: Point, p: int, q: int)
    requires q != 0
    requires q * (c.x - a.x) == p * (b.x - a.x) && q * (c.y - a.y) == p * (b.y - a.y)
    ensures Area(a, b, c) == 0
  {
  }

  /** Conversely, when `a != b` a zero area puts `c` on the line through `a`
      and `b`: the returned `p`, `q` are the rational coordinate `p / q` of `c`
      along `b - a`. */
  lemma OnLineOfAreaZero(a: Point, b: Point, c: Point) returns (p: int, q: int)
    requires a != b && Area(a, b, c) == 0
    ensures q != 0
    ensures q * (c.x - a.x) == p * (b.x - a.x) && q * (c.y - a.y) == p * (b.y - a.y)
  {
    if b.x != a.x {
      q, p := b.x - a.x, c.x - a.x;
    } else {
      q, p := b.y - a.y, c.y - a.y;
    }
  }

  /** A counter-clockwise turn has positive area. */
  lemma AreaCounterClockwiseExample()
    ensures Area(Point(0, 0), Point(1, 0), Point(1, 1)) == 1
  {
  }

  /** Three points on the diagonal are collinear. */
  lemma AreaCollinearExample()
    ensures Area(Point(0, 0), Point(1, 1), Point(2, 2)) == 0
  {
  }

  /** One of `u`, `v` is strictly negative and the other strictly positive. */
  predicate OppositeSigns(u: int, v: int)
  {
    (u < 0 && v > 0) || (u > 0 && v < 0)
  }

  /** The sign rule behind the products of `__intersect_points`: a product of
      two integers is negative exactly when they have strictly opposite signs. */
  lemma ProductNegative(u: int, v: int)
    ensures u * v < 0 <==> OppositeSigns(u, v)
  {
  }

  /** `__point_belongs_the_line`: `line` has positive length and `point` lies on
      the infinite line through it. The expression is the negation of
      `Area(line.begin, line.end, point)`; note it is not a bounded-segment test. */
  function PointBelongsTheLine(line: Line, point: Point): (r: bool)
    ensures r <==> line.begin != line.end && Area(line.begin, line.end, point) == 0
  {
    HasLength(line) &&
    (point.x - line.begin.x) * (line.end.y - line.begin.y) -
    (point.y - line.begin.y) * (line.end.x - line.begin.x) == 0
  }

  /** `__intersect_points`: segments a-b and c-d cross properly, that is c and d
      lie strictly on opposite sides of the line through a-b and a and b lie
      strictly on opposite sides of the line through c-d. */
  function IntersectPoints(a: Point, b: Point, c: Point, d: Point): (r: bool)
    ensures r <==> (OppositeSigns(Area(a, b, c), Area(a, b, d))
                    && OppositeSigns(Area(c, d, a), Area(c, d, b)))
  {
    ProductNegative(Area(a, b, c), Area(a, b, d));
    ProductNegative(Area(c, d, a), Area(c, d, b));
    var abcAbd := Area(a, b, c) * Area(a, b, d);
    var cdaCdb := Area(c, d, a) * Area(c, d, b);
    abcAbd < 0 && cdaCdb < 0
  }

  /** `__intersect_lines(a, b)`: the end of `b` lies on the line through a
      non-degenerate `a`, or the two segments cross properly. Only `b.end` is
      tested against `a`; neither `b.begin` nor the ends of `a` are tested against `b`. */
  function IntersectLines(a: Line, b: Line): (r: bool)
    ensures r <==> ((a.begin != a.end && Area(a.begin, a.end, b.end) == 0)
                    || (OppositeSigns(Area(a.begin, a.end, b.begin), Area(a.begin, a.end, b.end))
                        && OppositeSigns(Area(b.begin, b.end, a.begin), Area(b.begin, b.end, a.end))))
  {
    PointBelongsTheLine(a, b.end) || IntersectPoints(a.begin, a.end, b.begin, b.end)
  }

  /** `self.is_intersected(line)`. A zero-length `self` never reports an
      intersection, and when `line` starts where `self` ends (a joint of the
      chain) only the collinearity of `line.end` with `self` can report one. */
  function IsIntersected(self: Line, line: Line): (r: bool)
    ensures r ==> self.begin != self.end
    ensures line.begin == self.end ==> (r <==> PointBelongsTheLine(self, line.end))
  {
    assert line.begin == self.end ==> !IntersectPoints(self.begin, self.end, line.begin, line.end) by {
      if line.begin == self.end {
        SharedEndpointNoCrossing(self.begin, self.end, line.begin, line.end);
      }
    }
    IntersectLines(self, line)
  }

  /** A proper crossing is impossible as soon as one of the four endpoints is
      collinear with the other segment. */
  lemma CollinearNoCrossing(a: Point, b: Point, c: Point, d: Point)
    requires Area(a, b, c) == 0 || Area(a, b, d) == 0 || Area(c, d, a) == 0 || Area(c, d, b) == 0
    ensures !IntersectPoints(a, b, c, d)
  {
  }

  /** Two segments that share an endpoint never cross properly; in particular
      the joint between consecutive lines of a path never counts as a crossing. */
  lemma SharedEndpointNoCrossing(a: Point, b: Point, c: Point, d: Point)
    requires a == c || a == d || b == c || b == d
    ensures !IntersectPoints(a, b, c, d)
  {
    CollinearNoCrossing(a, b, c, d);
  }

  /** The proper-crossing test does not depend on which segment comes first. */
  lemma IntersectPointsSymmetric(a: Point, b: Point, c: Point, d: Point)
    ensures IntersectPoints(a, b, c, d) == IntersectPoints(c, d, a, b)
  {
  }

  /** Reversing the direction of the first segment flips the sign of both areas
      in the first product and swaps the factors of the second. */
  lemma IntersectPointsReverseFirst(a: Point, b: Point, c: Point, d: Point)
    ensures IntersectPoints(b, a, c, d) == IntersectPoints(a, b, c, d)
  {
    AreaSwap(a, b, c);
    AreaSwap(a, b, d);
  }

  /** Reversing the direction of the second segment leaves the test unchanged. */
  lemma IntersectPointsReverseSecond(a: Point, b: Point, c: Point, d: Point)
    ensures IntersectPoints(a, b, d, c) == IntersectPoints(a, b, c, d)
  {
    IntersectPointsSymmetric(a, b, d, c);
    IntersectPointsReverseFirst(d, c, a, b);
    IntersectPointsSymmetric(c, d, a, b);
  }

  /** The diagonals of a square cross; two parallel segments do not. */
  lemma CrossingExamples()
    ensures IntersectPoints(Point(0, 0), Point(2, 2), Point(0, 2), Point(2, 0))
    ensures !IntersectPoints(Point(0, 0), Point(2, 0), Point(0, 1), Point(2, 1))
  {
  }

  /** A line whose end lands on the supporting line of an existing one is
      reported, even though it does not cross it. */
  lemma EndOnSupportingLineExample()
    ensures IsIntersected(Line(Point(0, 0), Point(4, 0)), Line(Point(2, 5), Point(2, 0)))
  {
  }

  /** With the two lines of the previous example in the other order nothing is
      reported: the test is not symmetric. */
  lemma IsIntersectedAsymmetric()
    ensures !IsIntersected(Line(Point(2, 5), Point(2, 0)), Line(Point(0, 0), Point(4, 0)))
  {
    var a, b := Line(Point(0, 0), Point(4, 0)), Line(Point(2, 5), Point(2, 0));
    assert !PointBelongsTheLine(b, a.end) by {
      assert Area(b.begin, b.end, a.end) == 10;
    }
    assert !IntersectPoints(b.begin, b.end, a.begin, a.end) by {
      assert Area(a.begin, a.end, b.end) == 0;
      CollinearNoCrossing(b.begin, b.end, a.begin, a.end);
    }
  }

  /** A line that passes exactly through the end point of an existing line
      touches it, yet is not reported: the proper-crossing product is zero. */
  lemma TouchAtEndpointNotReported()
    ensures var a := Line(Point(0, 0), Point(4, 0));
            var c := Line(Point(4, -2), Point(4, 2));
            Area(c.begin, c.end, a.end) == 0
            && c.begin.y < a.end.y < c.end.y
            && !IsIntersected(a, c)
  {
  }

  /** In general: a line whose supporting line passes through an end point of
      an existing line is not reported, as long as its own end is off the
      existing line's supporting line (it crosses, rather than runs along, it). */
  lemma PassThroughEndNotReported(a: Line, c: Line)
    requires Area(c.begin, c.end, a.begin) == 0 || Area(c.begin, c.end, a.end) == 0
    requires Area(a.begin, a.end, c.end) != 0
    ensures !IsIntersected(a, c)
  {
    CollinearNoCrossing(a.begin, a.end, c.begin, c.end);
  }

  /** A line that runs along an existing one through its end point is
      reported: its own end is on the existing line's supporting line. */
  lemma RunAlongThroughEndReported()
    ensures IsIntersected(Line(Point(0, 0), Point(4, 0)), Line(Point(2, 0), Point(6, 0)))
  {
    var a, c := Line(Point(0, 0), Point(4, 0)), Line(Point(2, 0), Point(6, 0));
    assert HasLength(a);
    assert PointBelongsTheLine(a, c.end);
  }

  /** The squared distance between two points does not depend on the order. */
  lemma SquaredLengthSymmetric(a: Point, b: Point)
    ensures SquaredLength(Line(a, b)) == SquaredLength(Line(b, a))
  {
    var dx, dy := b.x - a.x, b.y - a.y;
    assert (-dx) * (-dx) == dx * dx;
    assert (-dy) * (-dy) == dy * dy;
  }
}
