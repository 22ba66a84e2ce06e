/** `rotateGIF` of internal/httpapi/rotate.go on the decoder's own buffers. */
module GifRotate {
  import opened Geometry
  import opened Raster
  import opened GifPlayer
  import opened GifRotation

  /** Palette lookup of a colour that is in the table: the first entry of that colour. */
  function Index(palette: seq<Color>, c: Color): (i: nat)
    requires c in palette
    ensures i < |palette| && palette[i] == c && c !in palette[..i]
  {
    if palette[0] == c then 0 else 1 + Index(palette[1..], c)
  }

  /** image.Paletted: one colour-table index for each point of the bounds. */
  class Paletted {
    const bounds: Rect
    const palette: seq<Color>
    const pix: array2<nat>

    function Width(): nat { Max(0, bounds.max.x - bounds.min.x) }

    function Height(): nat { Max(0, bounds.max.y - bounds.min.y) }

    /** Every index is in the table, as the decoder makes sure of. */
    ghost predicate Valid()
      reads pix
    {
      && |palette| > 0
      && pix.Length0 == Width() && pix.Length1 == Height()
      && (forall i, j :: 0 <= i < Width() && 0 <= j < Height() ==> pix[i, j] < |palette|)
    }

    /** NewPaletted: every pixel starts as the first colour of the table. */
    constructor (r: Rect, colors: seq<Color>)
      requires |colors| > 0
      ensures Valid() && fresh(pix) && bounds == r && palette == colors
      ensures forall p :: r.Contains(p) ==> At(p) == colors[0]
    {
      bounds, palette := r, colors;
      pix := new nat[Max(0, r.max.x - r.min.x), Max(0, r.max.y - r.min.y)]((i, j) => 0);
    }

    function At(p: Point): (c: Color)
      requires Valid() && bounds.Contains(p)
      reads pix
      ensures c in palette
    {
      palette[pix[p.x - bounds.min.x, p.y - bounds.min.y]]
    }

    method Set(p: Point, c: Color)
      requires Valid() && c in palette
      modifies pix
      ensures Valid()
      ensures forall q :: bounds.Contains(q) ==> At(q) == if q == p then c else old(At(q))
    {
      if bounds.Contains(p) {
        pix[p.x - bounds.min.x, p.y - bounds.min.y] := Index(palette, c);
      }
    }

    /** The frame that this image draws, given its disposal code. */
    ghost function Frame(disposal: int): (f: Frame)
      requires Valid()
      reads pix
    {
      GifPlayer.Frame(bounds, imap p | bounds.Contains(p) :: At(p), palette, disposal)
    }
  }

  /** The points of r that the nested loops have passed when they stand at (x, y). */
  ghost predicate Passed(r: Rect, p: Point, x: int, y: int) {
    r.Contains(p) && (p.y < y || (p.y == y && p.x < x))
  }

  /** The colour that the rotated image has at q when the nested loops stand at (x, y). */
  ghost function Painted(f: Frame, w: int, h: int, deg: int, x: int, y: int, q: Point): Color
    requires |f.palette| > 0 && forall p :: f.rect.Contains(p) ==> p in f.pixels
  {
    var p := RotPoint(q, RotWidth(w, h, deg), RotHeight(w, h, deg), Back(deg));
    if Passed(f.rect, p, x, y) then f.pixels[p] else f.palette[0]
  }

  /** The body of rotateGIF's loop over the frames: a new image with the rotated bounds and
      every pixel at its rotated point. */
  method TurnImage(im: Paletted, w: int, h: int, deg: int, ghost disposal: int) returns (nd: Paletted)
    requires im.Valid()
    ensures nd.Valid() && fresh(nd) && fresh(nd.pix)
    ensures TurnedTo(im.Frame(disposal), nd.Frame(disposal), w, h, deg)
  {
    ghost var f := im.Frame(disposal);
    var rect := RotRect(im.bounds, w, h, deg);
    nd := new Paletted(rect, im.palette);
    var x, y := im.bounds.min.x, im.bounds.min.y;
    while y < im.bounds.max.y
      invariant x == im.bounds.min.x && im.bounds.min.y <= y <= Max(im.bounds.min.y, im.bounds.max.y)
      invariant nd.Valid() && fresh(nd.pix) && im.Valid() && f == im.Frame(disposal)
      invariant nd.bounds == rect && nd.palette == im.palette
      invariant forall q :: rect.Contains(q) ==> nd.At(q) == Painted(f, w, h, deg, x, y, q)
    {
      while x < im.bounds.max.x
        invariant im.bounds.min.x <= x <= Max(im.bounds.min.x, im.bounds.max.x)
        invariant nd.Valid() && fresh(nd.pix) && im.Valid() && f == im.Frame(disposal)
        invariant nd.bounds == rect && nd.palette == im.palette
        invariant forall q :: rect.Contains(q) ==> nd.At(q) == Painted(f, w, h, deg, x, y, q)
      {
        PaintOne(f, w, h, deg, x, y);
        nd.Set(RotPoint(Point(x, y), w, h, deg), im.At(Point(x, y)));
        x := x + 1;
      }
      PaintRow(f, w, h, deg, x, y);
      x, y := im.bounds.min.x, y + 1;
    }
    PaintAll(f, w, h, deg, x, y);
  }

  /** Moving on by one pixel changes only that pixel's rotated point. */
  lemma PaintOne(f: Frame, w: int, h: int, deg: int, x: int, y: int)
    requires |f.palette| > 0 && forall p :: f.rect.Contains(p) ==> p in f.pixels
    requires f.rect.Contains(Point(x, y))
    ensures forall q :: Painted(f, w, h, deg, x + 1, y, q)
                     == if q == RotPoint(Point(x, y), w, h, deg) then f.pixels[Point(x, y)]
                        else Painted(f, w, h, deg, x, y, q)
  {
    forall q
      ensures Painted(f, w, h, deg, x + 1, y, q)
           == if q == RotPoint(Point(x, y), w, h, deg) then f.pixels[Point(x, y)] else Painted(f, w, h, deg, x, y, q)
    {
      RotPointBijective(q, RotWidth(w, h, deg), RotHeight(w, h, deg), Back(deg));
      RotPointBijective(Point(x, y), w, h, deg);
    }
  }

  lemma PaintRow(f: Frame, w: int, h: int, deg: int, x: int, y: int)
    requires |f.palette| > 0 && forall p :: f.rect.Contains(p) ==> p in f.pixels
    requires x >= f.rect.max.x
    ensures forall q :: Painted(f, w, h, deg, f.rect.min.x, y + 1, q) == Painted(f, w, h, deg, x, y, q)
  {
  }

  lemma PaintAll(f: Frame, w: int, h: int, deg: int, x: int, y: int)
    requires |f.palette| > 0 && forall p :: p in f.pixels <==> f.rect.Contains(p)
    requires y >= f.rect.max.y
    ensures forall q :: Painted(f, w, h, deg, x, y, q)
                     == var p := RotPoint(q, RotWidth(w, h, deg), RotHeight(w, h, deg), Back(deg));
                        if p in f.pixels then f.pixels[p] else f.palette[0]
  {
  }

  /** The canvas that all frames fit on, as rotateGIF's first loop computes it. */
  ghost function CanvasWidth(frames: seq<Frame>, w: int): int {
    if frames == [] then w else Max(frames[|frames| - 1].rect.max.x, CanvasWidth(frames[..|frames| - 1], w))
  }

  ghost function CanvasHeight(frames: seq<Frame>, h: int): int {
    if frames == [] then h else Max(frames[|frames| - 1].rect.max.y, CanvasHeight(frames[..|frames| - 1], h))
  }

  /** The computed canvas is the smallest that holds the screen and every frame. */
  lemma {:induction false} CanvasIsLeast(frames: seq<Frame>, w: int, h: int, w': int, h': int)
    ensures (CanvasWidth(frames, w) <= w' && CanvasHeight(frames, h) <= h')
       <==> (w <= w' && h <= h' && forall i :: 0 <= i < |frames| ==> frames[i].rect.max.x <= w' && frames[i].rect.max.y <= h')
  {
    if frames != [] {
      var rest := frames[..|frames| - 1];
      CanvasIsLeast(rest, w, h, w', h');
      assert forall i :: 0 <= i < |rest| ==> rest[i] == frames[i];
      assert forall i :: 0 <= i < |frames| ==> i < |rest| || frames[i] == frames[|frames| - 1];
    }
  }

  /** The screen size that rotateGIF records. */
  function RecordedWidth(w: int, canvasWidth: int, canvasHeight: int, deg: int): int {
    if deg == 90 || deg == 270 then canvasHeight else w
  }

  function RecordedHeight(h: int, canvasWidth: int, canvasHeight: int, deg: int): int {
    if deg == 90 || deg == 270 then canvasWidth else h
  }

  /** The recorded screen is the rotated canvas if and only if the turn is by 90 or 270 degrees
      or no frame sticks out of the original screen. */
  lemma ScreenExactly(frames: seq<Frame>, w: int, h: int, deg: int)
    ensures var cw, ch := CanvasWidth(frames, w), CanvasHeight(frames, h);
            (RecordedWidth(w, cw, ch, deg) == RotWidth(cw, ch, deg) && RecordedHeight(h, cw, ch, deg) == RotHeight(cw, ch, deg))
            <==> (deg == 90 || deg == 270 || forall i :: 0 <= i < |frames| ==> frames[i].rect.max.x <= w && frames[i].rect.max.y <= h)
  {
    CanvasIsLeast(frames, w, h, w, h);
    CanvasIsLeast(frames, w, h, CanvasWidth(frames, w), CanvasHeight(frames, h));
  }

  /** End to end, for frames that the decoder accepted for a w by h screen: the rotated file
      records the turned screen and shows, frame by frame, the rotation of the original. */
  lemma RotatedFilePlaysTurned(frames: seq<Frame>, t: seq<Frame>, w: int, h: int, w': int, h': int, deg: int,
                               background: Color, k: nat)
    requires k < |frames| && FramesOn(frames, w, h)
    requires AllTurned(frames, t, CanvasWidth(frames, w), CanvasHeight(frames, h), deg)
    requires w' == RecordedWidth(w, CanvasWidth(frames, w), CanvasHeight(frames, h), deg)
    requires h' == RecordedHeight(h, CanvasWidth(frames, w), CanvasHeight(frames, h), deg)
    ensures w' == RotWidth(w, h, deg) && h' == RotHeight(w, h, deg)
    ensures Shown(t, w', h', background, k) == Turned(Shown(frames, w, h, background, k), w, h, deg)
  {
    ScreenIsCanvas(frames, w, h);
    RotationCommutesWithPlaying(frames, t, w, h, deg, background, k);
  }

  /** And in which direction: what the viewer sees is turned clockwise. */
  lemma RotatedFilePlaysClockwise(frames: seq<Frame>, t: seq<Frame>, w: int, h: int, w': int, h': int, deg: int,
                                  background: Color, k: nat, was: Pixels, now: Pixels, i: int, j: int)
    requires k < |frames| && FramesOn(frames, w, h)
    requires AllTurned(frames, t, CanvasWidth(frames, w), CanvasHeight(frames, h), deg)
    requires w' == RecordedWidth(w, CanvasWidth(frames, w), CanvasHeight(frames, h), deg)
    requires h' == RecordedHeight(h, CanvasWidth(frames, w), CanvasHeight(frames, h), deg)
    requires was == Shown(frames, w, h, background, k) && now == Shown(t, w', h', background, k)
    ensures deg == 90 ==>
              && w' == h && h' == w
              && (0 <= i < h && 0 <= j < w ==>
                    Point(i, j) in now && Point(j, h - 1 - i) in was && now[Point(i, j)] == was[Point(j, h - 1 - i)])
    ensures deg == 180 ==>
              && w' == w && h' == h
              && (0 <= i < w && 0 <= j < h ==>
                    && Point(i, j) in now && Point(w - 1 - i, h - 1 - j) in was
                    && now[Point(i, j)] == was[Point(w - 1 - i, h - 1 - j)])
    ensures deg == 270 ==>
              && w' == h && h' == w
              && (0 <= i < h && 0 <= j < w ==>
                    Point(i, j) in now && Point(w - 1 - j, i) in was && now[Point(i, j)] == was[Point(w - 1 - j, i)])
  {
    RotatedFilePlaysTurned(frames, t, w, h, w', h', deg, background, k);
    TurnedClockwise(was, w, h, deg, now, i, j);
  }

  /** A file with solid frames that is rotated twice, each time read back as written, is the file
      rotated once by the sum: frames and screen alike. */
  lemma RotatedFilesAddUp(frames: seq<Frame>, t: seq<Frame>, u: seq<Frame>, w: int, h: int, w': int, h': int,
                          a: int, b: int)
    requires QuarterTurn(a) && QuarterTurn(b) && AllSolidly(frames, w, h)
    requires AllTurned(frames, t, CanvasWidth(frames, w), CanvasHeight(frames, h), a)
    requires w' == RecordedWidth(w, CanvasWidth(frames, w), CanvasHeight(frames, h), a)
    requires h' == RecordedHeight(h, CanvasWidth(frames, w), CanvasHeight(frames, h), a)
    requires AllTurned(t, u, CanvasWidth(t, w'), CanvasHeight(t, h'), b)
    ensures AllTurned(frames, u, w, h, Sum(a, b))
    ensures RecordedWidth(w', CanvasWidth(t, w'), CanvasHeight(t, h'), b) == RotWidth(w, h, Sum(a, b))
    ensures RecordedHeight(h', CanvasWidth(t, w'), CanvasHeight(t, h'), b) == RotHeight(w, h, Sum(a, b))
  {
    ScreenIsCanvas(frames, w, h);
    forall i | 0 <= i < |t| ensures Solidly(t[i], w', h') {
      assert TurnedTo(frames[i], t[i], w, h, a);
      TurnedSolidly(frames[i], t[i], w, h, a);
    }
    ScreenIsCanvas(t, w', h');
    AllTurnedCompose(frames, t, u, w, h, a, b);
    RotPointComposes(Point(0, 0), w, h, a, b);
  }

  /** Frames on the screen leave the canvas at that. */
  lemma ScreenIsCanvas(frames: seq<Frame>, w: int, h: int)
    requires forall i :: 0 <= i < |frames| ==> frames[i].rect.OnCanvas(w, h)
    ensures CanvasWidth(frames, w) == w && CanvasHeight(frames, h) == h
  {
    CanvasIsLeast(frames, w, h, w, h);
    CanvasIsLeast(frames, w, h, CanvasWidth(frames, w), CanvasHeight(frames, h));
  }

  /** The first i frames are turned, the others are as they were. */
  ghost predicate TurnedSoFar(frames: seq<Frame>, t: seq<Frame>, i: nat, w: int, h: int, deg: int) {
    && |t| == |frames|
    && (forall j {:trigger TurnedTo(frames[j], t[j], w, h, deg)} :: 0 <= j < i && j < |frames| ==> TurnedTo(frames[j], t[j], w, h, deg))
    && (forall j :: i <= j < |frames| ==> t[j] == frames[j])
  }

  lemma TurnedNext(frames: seq<Frame>, t: seq<Frame>, i: nat, g: Frame, w: int, h: int, deg: int)
    requires TurnedSoFar(frames, t, i, w, h, deg) && i < |t| && TurnedTo(frames[i], g, w, h, deg)
    ensures TurnedSoFar(frames, t[i := g], i + 1, w, h, deg)
  {
    var u := t[i := g];
    forall j | 0 <= j <= i ensures TurnedTo(frames[j], u[j], w, h, deg) {
      assert j < i ==> TurnedTo(frames[j], t[j], w, h, deg);
    }
  }

  /** gif.GIF: the decoded frames with their delays and disposal codes, and the screen size. */
  class GIF {
    var image: seq<Paletted>
    var delay: seq<int>
    var disposal: seq<int>
    var width: int
    var height: int

    /** The object is well formed, and its frames are those, as a player sees them. */
    ghost predicate Holds(frames: seq<Frame>)
      reads this, set i | 0 <= i < |image| :: image[i].pix
    {
      && |image| == |delay| == |disposal| == |frames|
      && (forall i :: 0 <= i < |image| ==> image[i].Valid())
      && (forall i :: 0 <= i < |image| ==> frames[i] == image[i].Frame(disposal[i]))
    }

    /** The first loop: the canvas that holds the screen and every frame. */
    method Canvas(ghost frames: seq<Frame>) returns (w: int, h: int)
      requires Holds(frames)
      ensures w == CanvasWidth(frames, width) && h == CanvasHeight(frames, height)
    {
      w, h := width, height;
      var i := 0;
      while i < |image|
        invariant 0 <= i <= |image|
        invariant w == CanvasWidth(frames[..i], width) && h == CanvasHeight(frames[..i], height)
      {
        var bounds := image[i].bounds;
        assert frames[i] == image[i].Frame(disposal[i]);
        if bounds.max.x > w {
          w := bounds.max.x;
        }
        if bounds.max.y > h {
          h := bounds.max.y;
        }
        assert frames[..i + 1][..i] == frames[..i] && frames[..i + 1][i] == frames[i];
        i := i + 1;
      }
      assert frames[..|image|] == frames;
    }

    /** The second loop: every frame replaced by its rotation. */
    method TurnImages(w: int, h: int, deg: int, ghost frames: seq<Frame>) returns (ghost turned: seq<Frame>)
      requires Holds(frames)
      modifies `image
      ensures Holds(turned) && AllTurned(frames, turned, w, h, deg)
    {
      turned := frames;
      var i := 0;
      while i < |image|
        invariant 0 <= i <= |image| && Holds(turned) && TurnedSoFar(frames, turned, i, w, h, deg)
      {
        var nd := TurnImage(image[i], w, h, deg, disposal[i]);
        TurnedNext(frames, turned, i, nd.Frame(disposal[i]), w, h, deg);
        turned := turned[i := nd.Frame(disposal[i])];
        image := image[i := nd];
        i := i + 1;
      }
    }

    /** The end of rotateGIF: the screen size for the turned canvas. */
    method RecordScreen(w: int, h: int, deg: int, ghost turned: seq<Frame>)
      requires Holds(turned)
      modifies `width, `height
      ensures Holds(turned)
      ensures width == RecordedWidth(old(width), w, h, deg) && height == RecordedHeight(old(height), w, h, deg)
    {
      if deg == 90 || deg == 270 {
        width, height := h, w;
      }
    }

    method Rotate(deg: int, ghost frames: seq<Frame>) returns (ghost turned: seq<Frame>)
      requires Holds(frames)
      modifies this
      ensures Holds(turned) && delay == old(delay) && disposal == old(disposal)
      ensures AllTurned(frames, turned, CanvasWidth(frames, old(width)), CanvasHeight(frames, old(height)), deg)
      ensures width == RecordedWidth(old(width), CanvasWidth(frames, old(width)), CanvasHeight(frames, old(height)), deg)
      ensures height == RecordedHeight(old(height), CanvasWidth(frames, old(width)), CanvasHeight(frames, old(height)), deg)
    {
      var w, h := Canvas(frames);
      turned := TurnImages(w, h, deg, frames);
      RecordScreen(w, h, deg, turned);
    }
  }
}
