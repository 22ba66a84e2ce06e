/** The pixel loops of `rotate` in internal/httpapi/rotate.go, and the pictures they compute. */
module Raster {
  import opened Geometry

  /** A decoded pixel: see-through, or a colour. */
  datatype Color = Clear | Solid(rgb: int)

  /** The pixels of an image or of a canvas, by position. */
  type Pixels = imap<Point, Color>

  /** An image whose bounds start at the origin. */
  datatype Picture = Picture(w: int, h: int, pixels: Pixels)

  ghost predicate Covers(c: Pixels, w: int, h: int) {
    forall p {:trigger p in c} :: p in c <==> InCanvas(p, w, h)
  }

  /** The canvas turned clockwise: every pixel moves to its rotated point. */
  ghost function Turned(c: Pixels, w: int, h: int, deg: int): (t: Pixels)
    requires Covers(c, w, h)
    ensures Covers(t, RotWidth(w, h, deg), RotHeight(w, h, deg))
  {
    imap q | InCanvas(q, RotWidth(w, h, deg), RotHeight(w, h, deg)) ::
      RotPointBijective(q, RotWidth(w, h, deg), RotHeight(w, h, deg), Back(deg));
      RotPointBijective(RotPoint(q, RotWidth(w, h, deg), RotHeight(w, h, deg), Back(deg)), w, h, deg);
      c[RotPoint(q, RotWidth(w, h, deg), RotHeight(w, h, deg), Back(deg))]
  }

  ghost predicate WellFormed(p: Picture) {
    Covers(p.pixels, p.w, p.h)
  }

  ghost function Rotated(p: Picture, deg: int): Picture
    requires WellFormed(p)
  {
    Picture(RotWidth(p.w, p.h, deg), RotHeight(p.w, p.h, deg), Turned(p.pixels, p.w, p.h, deg))
  }

  /** Turned is characterised by where it puts each pixel. */
  lemma TurnedIs(c: Pixels, w: int, h: int, deg: int, t: Pixels)
    requires Covers(c, w, h)
    requires Covers(t, RotWidth(w, h, deg), RotHeight(w, h, deg))
    requires forall p :: InCanvas(p, w, h) ==> RotPoint(p, w, h, deg) in t && t[RotPoint(p, w, h, deg)] == c[p]
    ensures t == Turned(c, w, h, deg)
  {
    var w', h' := RotWidth(w, h, deg), RotHeight(w, h, deg);
    forall q | q in t
      ensures t[q] == Turned(c, w, h, deg)[q]
    {
      RotPointBijective(q, w', h', Back(deg));
      RotPointBijective(RotPoint(q, w', h', Back(deg)), w, h, deg);
    }
  }

  lemma TurnedAt(c: Pixels, w: int, h: int, deg: int, p: Point)
    requires Covers(c, w, h)
    requires InCanvas(p, w, h)
    ensures RotPoint(p, w, h, deg) in Turned(c, w, h, deg)
    ensures Turned(c, w, h, deg)[RotPoint(p, w, h, deg)] == c[p]
  {
    RotPointBijective(p, w, h, deg);
  }

  /** Rotation is an action of the quarter turns: turning by a and then by b is turning once
      by (a + b) mod 360, pixels and dimensions alike. */
  lemma RotatedComposes(p: Picture, a: int, b: int)
    requires WellFormed(p) && QuarterTurn(a) && QuarterTurn(b)
    ensures WellFormed(Rotated(p, a))
    ensures Rotated(Rotated(p, a), b) == Rotated(p, Sum(a, b))
  {
    var q := Rotated(p, a);
    var r := Rotated(q, b);
    forall s | InCanvas(s, p.w, p.h)
      ensures RotPoint(s, p.w, p.h, Sum(a, b)) in r.pixels
      ensures r.pixels[RotPoint(s, p.w, p.h, Sum(a, b))] == p.pixels[s]
    {
      TurnedAt(p.pixels, p.w, p.h, a, s);
      RotPointBijective(s, p.w, p.h, a);
      TurnedAt(q.pixels, q.w, q.h, b, RotPoint(s, p.w, p.h, a));
      RotPointComposes(s, p.w, p.h, a, b);
    }
    RotPointComposes(Point(0, 0), p.w, p.h, a, b);
    TurnedIs(p.pixels, p.w, p.h, Sum(a, b), r.pixels);
  }

  /** Any other number of degrees turns nothing. */
  lemma NotRotated(p: Picture, deg: int)
    requires WellFormed(p) && deg != 90 && deg != 180 && deg != 270
    ensures Rotated(p, deg) == p
  {
    TurnedIs(p.pixels, p.w, p.h, deg, p.pixels);
  }

  /** What clockwise means: after 90 degrees each row is a column of the picture, the first column
      first, read from the bottom up; after 180 each row is a row, the last one first, read
      backwards; after 270 each row is a column, the last one first, read from the top down. */
  lemma TurnedClockwise(c: Pixels, w: int, h: int, deg: int, t: Pixels, i: int, j: int)
    requires Covers(c, w, h) && t == Turned(c, w, h, deg)
    ensures deg == 90 && 0 <= i < h && 0 <= j < w ==>
              Point(i, j) in t && Point(j, h - 1 - i) in c && t[Point(i, j)] == c[Point(j, h - 1 - i)]
    ensures deg == 180 && 0 <= i < w && 0 <= j < h ==>
              Point(i, j) in t && Point(w - 1 - i, h - 1 - j) in c && t[Point(i, j)] == c[Point(w - 1 - i, h - 1 - j)]
    ensures deg == 270 && 0 <= i < h && 0 <= j < w ==>
              Point(i, j) in t && Point(w - 1 - j, i) in c && t[Point(i, j)] == c[Point(w - 1 - j, i)]
  {
    var s := if deg == 90 then Point(j, h - 1 - i) else if deg == 180 then Point(w - 1 - i, h - 1 - j) else Point(w - 1 - j, i);
    if InCanvas(s, w, h) {
      TurnedAt(c, w, h, deg, s);
    }
  }

  lemma RotatedClockwise(p: Picture, deg: int, i: int, j: int)
    requires WellFormed(p)
    ensures var r := Rotated(p, deg);
            && (deg == 90 ==>
                  && r.w == p.h && r.h == p.w
                  && (0 <= i < r.w && 0 <= j < r.h ==> r.pixels[Point(i, j)] == p.pixels[Point(j, p.h - 1 - i)]))
            && (deg == 180 ==>
                  && r.w == p.w && r.h == p.h
                  && (0 <= i < r.w && 0 <= j < r.h ==> r.pixels[Point(i, j)] == p.pixels[Point(p.w - 1 - i, p.h - 1 - j)]))
            && (deg == 270 ==>
                  && r.w == p.h && r.h == p.w
                  && (0 <= i < r.w && 0 <= j < r.h ==> r.pixels[Point(i, j)] == p.pixels[Point(p.w - 1 - j, i)]))
  {
    TurnedClockwise(p.pixels, p.w, p.h, deg, Turned(p.pixels, p.w, p.h, deg), i, j);
  }

  /** Turns that add up to the whole circle restore the picture. */
  lemma FullCircle(p: Picture, a: int, b: int)
    requires WellFormed(p) && QuarterTurn(a) && QuarterTurn(b) && Sum(a, b) == 0
    ensures WellFormed(Rotated(p, a))
    ensures Rotated(Rotated(p, a), b) == p
  {
    RotatedComposes(p, a, b);
    NotRotated(p, 0);
  }

  /** The same turn four times restores the picture. */
  lemma FourTurns(p: Picture, turn: int)
    requires WellFormed(p) && QuarterTurn(turn)
    ensures WellFormed(Rotated(p, turn)) && WellFormed(Rotated(Rotated(p, turn), turn))
    ensures WellFormed(Rotated(Rotated(Rotated(p, turn), turn), turn))
    ensures Rotated(Rotated(Rotated(Rotated(p, turn), turn), turn), turn) == p
  {
    var half := Sum(turn, turn);
    RotatedComposes(p, turn, turn);
    RotatedComposes(Rotated(Rotated(p, turn), turn), turn, turn);
    FullCircle(p, half, half);
  }

  /** image.Image: bounds, and colours of some model. */
  datatype Image<S> = Image(bounds: Rect, at: Point -> S) {
    function Width(): nat { Max(0, bounds.max.x - bounds.min.x) }

    function Height(): nat { Max(0, bounds.max.y - bounds.min.y) }

    /** The image moved to the origin, with its colours converted. */
    ghost function Seen(convert: S -> Color): (p: Picture)
      ensures WellFormed(p) && p.w == Width() && p.h == Height()
    {
      Picture(Width(), Height(),
              imap q | InCanvas(q, Width(), Height()) :: convert(at(Point(bounds.min.x + q.x, bounds.min.y + q.y))))
    }
  }

  lemma SeenAt<S>(src: Image<S>, convert: S -> Color, x: int, y: int)
    requires 0 <= x < src.Width() && 0 <= y < src.Height()
    ensures Point(x, y) in src.Seen(convert).pixels
    ensures src.Seen(convert).pixels[Point(x, y)] == convert(src.at(Point(src.bounds.min.x + x, src.bounds.min.y + y)))
  {
  }

  /** moved is the image src in another place. */
  ghost predicate Moved<S(!new)>(src: Image<S>, moved: Image<S>, dx: int, dy: int) {
    && moved.bounds.min == Point(src.bounds.min.x + dx, src.bounds.min.y + dy)
    && moved.bounds.max == Point(src.bounds.max.x + dx, src.bounds.max.y + dy)
    && forall x, y :: moved.at(Point(x + dx, y + dy)) == src.at(Point(x, y))
  }

  /** Where an image lies does not matter: in another place it is seen as the same picture. */
  lemma SeenAnywhere<S(!new)>(src: Image<S>, convert: S -> Color, moved: Image<S>, dx: int, dy: int, x: int, y: int)
    requires Moved(src, moved, dx, dy)
    ensures moved.Width() == src.Width() && moved.Height() == src.Height()
    ensures 0 <= x < src.Width() && 0 <= y < src.Height() ==>
              && Point(x, y) in moved.Seen(convert).pixels && Point(x, y) in src.Seen(convert).pixels
              && moved.Seen(convert).pixels[Point(x, y)] == src.Seen(convert).pixels[Point(x, y)]
  {
    if 0 <= x < src.Width() && 0 <= y < src.Height() {
      SeenAt(moved, convert, x, y);
      SeenAt(src, convert, x, y);
      var a, b := src.bounds.min.x + x, src.bounds.min.y + y;
      assert moved.at(Point(a + dx, b + dy)) == src.at(Point(a, b));
      assert Point(moved.bounds.min.x + x, moved.bounds.min.y + y) == Point(a + dx, b + dy);
    }
  }

  /** At the origin the picture is the image's colours, converted. */
  lemma SeenAtOrigin<S>(src: Image<S>, convert: S -> Color, x: int, y: int)
    requires src.bounds.min == Point(0, 0) && 0 <= x < src.bounds.max.x && 0 <= y < src.bounds.max.y
    ensures Point(x, y) in src.Seen(convert).pixels && src.Seen(convert).pixels[Point(x, y)] == convert(src.at(Point(x, y)))
  {
    SeenAt(src, convert, x, y);
  }

  /** image.RGBA: a buffer of pixels for the points of its bounds. */
  class RGBA {
    const bounds: Rect
    const pix: array2<Color>

    ghost predicate Valid() {
      pix.Length0 == Width() && pix.Length1 == Height()
    }

    function Width(): nat { Max(0, bounds.max.x - bounds.min.x) }

    function Height(): nat { Max(0, bounds.max.y - bounds.min.y) }

    /** The image moved to the origin. */
    ghost function Seen(): (p: Picture)
      requires Valid()
      reads pix
      ensures WellFormed(p) && p.w == Width() && p.h == Height()
    {
      Picture(Width(), Height(), imap q | InCanvas(q, Width(), Height()) :: pix[q.x, q.y])
    }

    /** NewRGBA: every pixel starts see-through. */
    constructor (r: Rect)
      ensures Valid() && fresh(pix) && bounds == r
      ensures forall p :: p in Seen().pixels ==> Seen().pixels[p] == Clear
    {
      bounds := r;
      pix := new Color[Max(0, r.max.x - r.min.x), Max(0, r.max.y - r.min.y)]((i, j) => Clear);
    }

    method Set(p: Point, c: Color)
      requires Valid()
      modifies pix
      ensures var q := Point(p.x - bounds.min.x, p.y - bounds.min.y);
              Seen().pixels == if bounds.Contains(p) then old(Seen().pixels)[q := c] else old(Seen().pixels)
    {
      if bounds.Contains(p) {
        pix[p.x - bounds.min.x, p.y - bounds.min.y] := c;
      }
    }
  }

  /** The source pixels that the nested loops have copied when they stand at (sx, sy). */
  ghost predicate Done(p: Point, w: int, h: int, sx: int, sy: int) {
    InCanvas(p, w, h) && (p.y < sy || (p.y == sy && p.x < sx))
  }

  /** What the nested loops have written when they stand at (sx, sy): the done pixels, each once. */
  ghost predicate Copied(from: Picture, to: Pixels, writes: seq<Point>, deg: int, sx: int, sy: int)
    requires WellFormed(from)
  {
    && (forall p :: Done(p, from.w, from.h, sx, sy) ==>
          && RotPoint(p, from.w, from.h, deg) in to
          && to[RotPoint(p, from.w, from.h, deg)] == from.pixels[p]
          && RotPoint(p, from.w, from.h, deg) in writes)
    && (forall q :: q in writes ==>
          exists p :: Done(p, from.w, from.h, sx, sy) && q == RotPoint(p, from.w, from.h, deg))
    && (forall i, j :: 0 <= i < j < |writes| ==> writes[i] != writes[j])
  }

  lemma CopyOne(from: Picture, to: Pixels, writes: seq<Point>, deg: int, sx: int, sy: int,
                d: Point, to': Pixels, writes': seq<Point>, sx': int)
    requires WellFormed(from) && InCanvas(Point(sx, sy), from.w, from.h)
    requires Copied(from, to, writes, deg, sx, sy)
    requires d == RotPoint(Point(sx, sy), from.w, from.h, deg)
    requires to' == to[d := from.pixels[Point(sx, sy)]] && writes' == writes + [d] && sx' == sx + 1
    ensures Copied(from, to', writes', deg, sx', sy)
  {
    var s := Point(sx, sy);
    RotPointBijective(s, from.w, from.h, deg);
    forall p | Done(p, from.w, from.h, sx', sy)
      ensures RotPoint(p, from.w, from.h, deg) in to' && RotPoint(p, from.w, from.h, deg) in writes'
      ensures to'[RotPoint(p, from.w, from.h, deg)] == from.pixels[p]
    {
      RotPointBijective(p, from.w, from.h, deg);
      assert writes'[|writes|] == d;
      if p != s {
        assert Done(p, from.w, from.h, sx, sy);
        var i :| 0 <= i < |writes| && writes[i] == RotPoint(p, from.w, from.h, deg);
        assert writes'[i] == writes[i];
      }
    }
    forall i | 0 <= i < |writes|
      ensures writes[i] != d
    {
      assert writes[i] in writes;
      var p :| Done(p, from.w, from.h, sx, sy) && writes[i] == RotPoint(p, from.w, from.h, deg);
      RotPointBijective(p, from.w, from.h, deg);
    }
  }

  lemma NextRow(from: Picture, to: Pixels, writes: seq<Point>, deg: int, sx: int, sy: int, sx': int, sy': int)
    requires WellFormed(from) && Copied(from, to, writes, deg, sx, sy)
    requires sx == from.w && sx' == 0 && sy' == sy + 1
    ensures Copied(from, to, writes, deg, sx', sy')
  {
  }

  lemma AllCopied(from: Picture, to: Pixels, writes: seq<Point>, deg: int, sx: int, sy: int)
    requires WellFormed(from)
    requires Covers(to, RotWidth(from.w, from.h, deg), RotHeight(from.w, from.h, deg))
    requires sx == 0 && sy == from.h && Copied(from, to, writes, deg, sx, sy)
    ensures to == Turned(from.pixels, from.w, from.h, deg)
    ensures forall q :: q in writes <==> q in to
  {
    var w', h' := RotWidth(from.w, from.h, deg), RotHeight(from.w, from.h, deg);
    TurnedIs(from.pixels, from.w, from.h, deg, to);
    forall q
      ensures q in writes <==> q in to
    {
      RotPointBijective(q, w', h', Back(deg));
    }
  }

  /** `rotate`: the result is the source picture turned, whatever the source's offset and colour
      model, with every colour converted as the destination's Set does, and the loops write every
      destination pixel exactly once. */
  method Rotate<S>(src: Image<S>, convert: S -> Color, deg: int) returns (dst: RGBA, ghost writes: seq<Point>)
    ensures dst.Valid() && fresh(dst) && fresh(dst.pix)
    ensures dst.bounds.min == Point(0, 0)
    ensures dst.Seen() == Rotated(src.Seen(convert), deg)
    ensures forall i, j :: 0 <= i < j < |writes| ==> writes[i] != writes[j]
    ensures forall q :: q in writes <==> q in dst.Seen().pixels
  {
    var w, h := src.Width(), src.Height();
    var nw, nh := w, h;
    if deg == 90 || deg == 270 {
      nw, nh := h, w;
    }
    dst := new RGBA(Rect(Point(0, 0), Point(nw, nh)));
    writes := [];
    ghost var from, to := src.Seen(convert), dst.Seen().pixels;
    var sx, sy := 0, 0;
    while sy < h
      invariant 0 <= sy <= h && sx == 0 && dst.Valid() && fresh(dst.pix)
      invariant to == dst.Seen().pixels
      invariant Copied(from, to, writes, deg, sx, sy)
    {
      while sx < w
        invariant 0 <= sx <= w && dst.Valid() && fresh(dst.pix)
        invariant to == dst.Seen().pixels
        invariant Copied(from, to, writes, deg, sx, sy)
      {
        var d := RotPoint(Point(sx, sy), w, h, deg);
        var c := convert(src.at(Point(src.bounds.min.x + sx, src.bounds.min.y + sy)));
        assert Point(d.x - dst.bounds.min.x, d.y - dst.bounds.min.y) == d;
        SeenAt(src, convert, sx, sy);
        RotPointBijective(Point(sx, sy), w, h, deg);
        dst.Set(d, c);
        ghost var was, wrote, x := to, writes, sx;
        to, writes, sx := dst.Seen().pixels, writes + [d], sx + 1;
        CopyOne(from, was, wrote, deg, x, sy, d, to, writes, sx);
      }
      ghost var x, y := sx, sy;
      sx, sy := 0, sy + 1;
      NextRow(from, to, writes, deg, x, y, sx, sy);
    }
    AllCopied(from, to, writes, deg, sx, sy);
  }
}
