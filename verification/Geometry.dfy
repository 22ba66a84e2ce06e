/** Integer coordinate maps of internal/httpapi/rotate.go: where a canvas point and a
    rectangle go when a w by h canvas is turned clockwise. */
module Geometry {

  datatype Point = Point(x: int, y: int)

  function Min(a: int, b: int): int { if a <= b then a else b }

  function Max(a: int, b: int): int { if a <= b then b else a }

  /** A half-open rectangle, as image.Rectangle. */
  datatype Rect = Rect(min: Point, max: Point) {
    predicate Empty() {
      min.x >= max.x || min.y >= max.y
    }

    predicate Contains(p: Point) {
      min.x <= p.x < max.x && min.y <= p.y < max.y
    }

    /** The rectangle lies on a w by h canvas whose corner is the origin (it may be empty). */
    predicate OnCanvas(w: int, h: int) {
      0 <= min.x <= max.x <= w && 0 <= min.y <= max.y <= h
    }
  }

  /** image.Rect: the rectangle with the given corners, put in order. */
  function Corners(x0: int, y0: int, x1: int, y1: int): Rect {
    Rect(Point(Min(x0, x1), Min(y0, y1)), Point(Max(x0, x1), Max(y0, y1)))
  }

  predicate InCanvas(p: Point, w: int, h: int) {
    0 <= p.x < w && 0 <= p.y < h
  }

  /** The turns that the handlers accept. */
  predicate QuarterTurn(deg: int) {
    deg == 0 || deg == 90 || deg == 180 || deg == 270
  }

  function RotPoint(p: Point, w: int, h: int, deg: int): Point {
    if deg == 90 then Point(h - 1 - p.y, p.x)
    else if deg == 180 then Point(w - 1 - p.x, h - 1 - p.y)
    else if deg == 270 then Point(p.y, w - 1 - p.x)
    else p
  }

  function RotWidth(w: int, h: int, deg: int): int {
    if deg == 90 || deg == 270 then h else w
  }

  function RotHeight(w: int, h: int, deg: int): int {
    if deg == 90 || deg == 270 then w else h
  }

  function RotRect(r: Rect, w: int, h: int, deg: int): Rect {
    var a := RotPoint(r.min, w, h, deg);
    var b := RotPoint(Point(r.max.x - 1, r.max.y - 1), w, h, deg);
    Corners(Min(a.x, b.x), Min(a.y, b.y), Max(a.x, b.x) + 1, Max(a.y, b.y) + 1)
  }

  /** The turn that undoes deg. */
  function Back(deg: int): int {
    if deg == 90 then 270 else if deg == 270 then 90 else deg
  }

  /** RotPoint is a bijection from the canvas onto the turned canvas, with the opposite
      turn of the turned canvas as its inverse. */
  lemma RotPointBijective(p: Point, w: int, h: int, deg: int)
    ensures InCanvas(p, w, h)
       <==> InCanvas(RotPoint(p, w, h, deg), RotWidth(w, h, deg), RotHeight(w, h, deg))
    ensures RotPoint(RotPoint(p, w, h, deg), RotWidth(w, h, deg), RotHeight(w, h, deg), Back(deg)) == p
    ensures RotPoint(RotPoint(p, RotWidth(w, h, deg), RotHeight(w, h, deg), Back(deg)), w, h, deg) == p
  {
  }

  /** Two turns one after the other, as one turn. */
  function Sum(a: int, b: int): (s: int)
    requires QuarterTurn(a) && QuarterTurn(b)
    ensures s == (a + b) % 360 && QuarterTurn(s)
  {
    if a + b >= 360 then a + b - 360 else a + b
  }

  /** Turning by a and then by b is turning once by their sum. */
  lemma RotPointComposes(p: Point, w: int, h: int, a: int, b: int)
    requires QuarterTurn(a) && QuarterTurn(b)
    ensures RotPoint(RotPoint(p, w, h, a), RotWidth(w, h, a), RotHeight(w, h, a), b)
         == RotPoint(p, w, h, Sum(a, b))
    ensures RotWidth(RotWidth(w, h, a), RotHeight(w, h, a), b) == RotWidth(w, h, Sum(a, b))
    ensures RotHeight(RotWidth(w, h, a), RotHeight(w, h, a), b) == RotHeight(w, h, Sum(a, b))
  {
  }

  /** What the rotated bounds are for: they hold exactly the rotated pixels of r. */
  ghost predicate ExactBounds(r: Rect, w: int, h: int, deg: int) {
    forall p: Point | InCanvas(p, w, h) ::
      r.Contains(p) <==> RotRect(r, w, h, deg).Contains(RotPoint(p, w, h, deg))
  }

  lemma RotRectHolds(r: Rect, p: Point, w: int, h: int, deg: int)
    requires !r.Empty()
    ensures r.Contains(p) <==> RotRect(r, w, h, deg).Contains(RotPoint(p, w, h, deg))
  {
  }

  /** An empty rectangle comes back with a pixel of the canvas in it. */
  lemma StrayPixel(r: Rect, w: int, h: int, deg: int) returns (p: Point)
    requires 0 < w && 0 < h && r.OnCanvas(w, h) && r.Empty()
    ensures InCanvas(p, w, h) && RotRect(r, w, h, deg).Contains(RotPoint(p, w, h, deg))
  {
    // The corner pixel of r, or its neighbour when r touches the far edge.
    p := Point(if r.min.x < w then r.min.x else r.min.x - 1, if r.min.y < h then r.min.y else r.min.y - 1);
  }

  /** The rotated bounds without corners to be put in order. */
  function TurnedRect(r: Rect, w: int, h: int, deg: int): Rect {
    if deg == 90 then Rect(Point(h - r.max.y, r.min.x), Point(h - r.min.y, r.max.x))
    else if deg == 180 then Rect(Point(w - r.max.x, h - r.max.y), Point(w - r.min.x, h - r.min.y))
    else if deg == 270 then Rect(Point(r.min.y, w - r.max.x), Point(r.max.y, w - r.min.x))
    else r
  }

  lemma RotRectIs(r: Rect, w: int, h: int, deg: int)
    requires !r.Empty()
    ensures RotRect(r, w, h, deg) == TurnedRect(r, w, h, deg) && !TurnedRect(r, w, h, deg).Empty()
  {
  }

  /** Turning a non-empty rectangle twice is turning it once by the sum. */
  lemma RotRectComposes(r: Rect, w: int, h: int, a: int, b: int)
    requires !r.Empty() && QuarterTurn(a) && QuarterTurn(b)
    ensures RotRect(RotRect(r, w, h, a), RotWidth(w, h, a), RotHeight(w, h, a), b) == RotRect(r, w, h, Sum(a, b))
  {
    RotRectIs(r, w, h, a);
    RotRectIs(TurnedRect(r, w, h, a), RotWidth(w, h, a), RotHeight(w, h, a), b);
    RotRectIs(r, w, h, Sum(a, b));
    assert TurnedRect(TurnedRect(r, w, h, a), RotWidth(w, h, a), RotHeight(w, h, a), b) == TurnedRect(r, w, h, Sum(a, b));
  }

  lemma RotRectStays(r: Rect, w: int, h: int, deg: int)
    requires r.OnCanvas(w, h) && !r.Empty()
    ensures !RotRect(r, w, h, deg).Empty()
    ensures RotRect(r, w, h, deg).OnCanvas(RotWidth(w, h, deg), RotHeight(w, h, deg))
  {
  }

  /** For a rectangle on a canvas that has pixels, the rotated bounds are exact if and only if
      the rectangle is not empty: an empty one comes back with pixels in it. A non-empty one
      stays on the turned canvas. */
  lemma RotRectExact(r: Rect, w: int, h: int, deg: int)
    requires 0 < w && 0 < h && r.OnCanvas(w, h)
    ensures ExactBounds(r, w, h, deg) <==> !r.Empty()
    ensures !r.Empty() ==>
              && !RotRect(r, w, h, deg).Empty()
              && RotRect(r, w, h, deg).OnCanvas(RotWidth(w, h, deg), RotHeight(w, h, deg))
  {
    if r.Empty() {
      var p := StrayPixel(r, w, h, deg);
      assert !r.Contains(p);
    } else {
      RotRectStays(r, w, h, deg);
      forall p: Point | InCanvas(p, w, h)
        ensures r.Contains(p) <==> RotRect(r, w, h, deg).Contains(RotPoint(p, w, h, deg))
      {
        RotRectHolds(r, p, w, h, deg);
      }
    }
  }

  /** The failing family at its plainest: a rectangle without width and height at p comes back from
      any turn with two by two pixels, those of p and of its upper left neighbour. */
  lemma EmptyRectGrows(p: Point, w: int, h: int, deg: int)
    requires QuarterTurn(deg)
    ensures Rect(p, p).Empty()
    ensures var r := RotRect(Rect(p, p), w, h, deg);
            && r.max.x - r.min.x == 2 && r.max.y - r.min.y == 2
            && r.Contains(RotPoint(p, w, h, deg)) && r.Contains(RotPoint(Point(p.x - 1, p.y - 1), w, h, deg))
  {
  }
}
