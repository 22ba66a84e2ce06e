/** A reference player for animated GIFs: what each point of the logical screen shows
    (sections 18, 20 and 23 of the GIF89a specification). */
module GifPlayer {
  import opened Geometry
  import opened Raster

  /** One frame: its rectangle on the logical screen, its pixels, the colour table they are
      drawn from, and its disposal code. */
  datatype Frame = Frame(rect: Rect, pixels: Pixels, palette: seq<Color>, disposal: int)

  const TO_BACKGROUND := 2
  const TO_PREVIOUS := 3

  /** A frame as a decoder delivers it for a w by h screen. */
  ghost predicate FrameOn(f: Frame, w: int, h: int) {
    && f.rect.OnCanvas(w, h)
    && (forall p :: p in f.pixels <==> f.rect.Contains(p))
    && |f.palette| > 0
  }

  /** Point p once the frame is drawn over colour below: see-through pixels leave it. */
  ghost function Drawn(f: Frame, p: Point, below: Color): Color {
    if p in f.pixels && f.pixels[p] != Clear then f.pixels[p] else below
  }

  /** Point p when the frame's time is up; codes other than 2 and 3 leave the frame there. */
  ghost function Left(f: Frame, p: Point, below: Color, background: Color): Color {
    if f.disposal == TO_BACKGROUND && f.rect.Contains(p) then background
    else if f.disposal == TO_PREVIOUS then below
    else Drawn(f, p, below)
  }

  /** Point p before frame k is drawn, on a screen that starts out as background. */
  ghost function Before(frames: seq<Frame>, background: Color, k: nat, p: Point): Color
    requires k <= |frames|
  {
    if k == 0 then background
    else Left(frames[k - 1], p, Before(frames, background, k - 1, p), background)
  }

  /** What a viewer sees on a w by h screen while frame k is up. */
  ghost function Shown(frames: seq<Frame>, w: int, h: int, background: Color, k: nat): (c: Pixels)
    requires k < |frames|
    ensures Covers(c, w, h)
  {
    imap p | InCanvas(p, w, h) :: Drawn(frames[k], p, Before(frames, background, k, p))
  }

  /** A frame that leaves point p as it found it: see-through there, or undone. */
  ghost predicate Passes(f: Frame, p: Point) {
    if f.disposal == 3 then true
    else !(f.disposal == 2 && f.rect.Contains(p)) && !(p in f.pixels && f.pixels[p] != Clear)
  }

  lemma {:induction false} BeforePasses(frames: seq<Frame>, background: Color, j: nat, k: nat, p: Point)
    requires j <= k <= |frames| && forall m :: j <= m < k ==> Passes(frames[m], p)
    ensures Before(frames, background, k, p) == Before(frames, background, j, p)
  {
    if j < k {
      BeforePasses(frames, background, j, k - 1, p);
    }
  }

  /** What the player shows at a point while frame k is up, by history: the solid pixel of that
      frame; else that of the last frame to leave one there, unless a later frame, or that one
      itself, cleared its rectangle (code 2); frames that restore (code 3) leave nothing. */
  lemma ShownByHistory(frames: seq<Frame>, w: int, h: int, background: Color, k: nat, p: Point, j: nat)
    requires j <= k < |frames| && InCanvas(p, w, h)
    ensures p in Shown(frames, w, h, background, k)
    ensures p in frames[k].pixels && frames[k].pixels[p] != Clear ==>
              Shown(frames, w, h, background, k)[p] == frames[k].pixels[p]
    ensures !(p in frames[k].pixels && frames[k].pixels[p] != Clear) && (forall m :: j < m < k ==> Passes(frames[m], p)) && j < k ==>
              && (p in frames[j].pixels && frames[j].pixels[p] != Clear && frames[j].disposal != 2 && frames[j].disposal != 3 ==>
                    Shown(frames, w, h, background, k)[p] == frames[j].pixels[p])
              && (frames[j].disposal == 2 && frames[j].rect.Contains(p) ==>
                    Shown(frames, w, h, background, k)[p] == background)
    ensures !(p in frames[k].pixels && frames[k].pixels[p] != Clear) && (forall m :: 0 <= m < k ==> Passes(frames[m], p)) ==>
              Shown(frames, w, h, background, k)[p] == background
  {
    if forall m :: j < m < k ==> Passes(frames[m], p) {
      if j < k { BeforePasses(frames, background, j + 1, k, p); }
    }
    if forall m :: 0 <= m < k ==> Passes(frames[m], p) {
      BeforePasses(frames, background, 0, k, p);
    }
  }
}

/** `rotateGIF` of internal/httpapi/rotate.go: every frame replaced in place by its rotation. */
module GifRotation {
  import opened Geometry
  import opened Raster
  import opened GifPlayer

  /** g is what becomes of frame f on a w by h canvas: pixels that no source pixel is moved to
      keep the first colour of the table. */
  ghost predicate TurnedTo(f: Frame, g: Frame, w: int, h: int, deg: int) {
    && |f.palette| > 0
    && g.rect == RotRect(f.rect, w, h, deg)
    && (forall q {:trigger q in g.pixels} :: q in g.pixels <==> g.rect.Contains(q))
    && (forall q {:trigger g.pixels[q]} :: q in g.pixels ==>
          g.pixels[q] == var p := RotPoint(q, RotWidth(w, h, deg), RotHeight(w, h, deg), Back(deg));
                         if p in f.pixels then f.pixels[p] else f.palette[0])
    && g.palette == f.palette && g.disposal == f.disposal
  }

  /** t holds the rotations of the frames, one for one. */
  ghost predicate AllTurned(frames: seq<Frame>, t: seq<Frame>, w: int, h: int, deg: int) {
    && |t| == |frames|
    && (forall i {:trigger TurnedTo(frames[i], t[i], w, h, deg)} :: 0 <= i < |frames| ==>
          TurnedTo(frames[i], t[i], w, h, deg))
  }

  /** A frame that rotation handles: one with pixels, or one whose stray pixels stay unseen. */
  ghost predicate Turnable(f: Frame)
    requires |f.palette| > 0
  {
    !f.rect.Empty() || (f.palette[0] == Clear && f.disposal != TO_BACKGROUND)
  }

  ghost predicate FramesOn(frames: seq<Frame>, w: int, h: int) {
    forall i :: 0 <= i < |frames| ==> FrameOn(frames[i], w, h) && Turnable(frames[i])
  }

  /** Over the same colour, f at p and g at the rotated point show the same and leave the same
      behind. */
  ghost predicate PlaysAlike(f: Frame, g: Frame, w: int, h: int, deg: int, p: Point, below: Color, background: Color) {
    var q := RotPoint(p, w, h, deg);
    Drawn(g, q, below) == Drawn(f, p, below) && Left(g, q, below, background) == Left(f, p, below, background)
  }

  lemma TurnablePlaysAlike(f: Frame, g: Frame, w: int, h: int, deg: int, p: Point, below: Color, background: Color)
    requires FrameOn(f, w, h) && TurnedTo(f, g, w, h, deg) && Turnable(f) && InCanvas(p, w, h)
    ensures PlaysAlike(f, g, w, h, deg, p, below, background)
  {
    RotPointBijective(p, w, h, deg);
    if !f.rect.Empty() {
      RotRectHolds(f.rect, p, w, h, deg);
    }
  }

  /** Exactly which frames rotation preserves: a frame without pixels gains some in its first
      colour, which shows if that colour is solid or its rectangle is cleared afterwards. */
  lemma PlaysAlikeExactly(f: Frame, g: Frame, w: int, h: int, deg: int)
    requires 0 < w && 0 < h && FrameOn(f, w, h) && TurnedTo(f, g, w, h, deg)
    ensures Turnable(f)
       <==> forall p, below, background :: InCanvas(p, w, h) ==> PlaysAlike(f, g, w, h, deg, p, below, background)
  {
    if Turnable(f) {
      forall p, below, background | InCanvas(p, w, h)
        ensures PlaysAlike(f, g, w, h, deg, p, below, background)
      {
        TurnablePlaysAlike(f, g, w, h, deg, p, below, background);
      }
    } else {
      RotRectExact(f.rect, w, h, deg);
      var p :| InCanvas(p, w, h) && g.rect.Contains(RotPoint(p, w, h, deg));
      RotPointBijective(p, w, h, deg);
      var q := RotPoint(p, w, h, deg);
      assert q in g.pixels && p !in f.pixels && g.pixels[q] == f.palette[0];
      if f.palette[0] == Clear {
        assert !PlaysAlike(f, g, w, h, deg, p, Clear, Solid(0));
      } else {
        assert !PlaysAlike(f, g, w, h, deg, p, Clear, Clear);
      }
    }
  }

  lemma {:induction false} BeforeTurns(frames: seq<Frame>, t: seq<Frame>, w: int, h: int, deg: int,
                                       background: Color, k: nat, p: Point)
    requires k <= |frames| && FramesOn(frames, w, h) && AllTurned(frames, t, w, h, deg) && InCanvas(p, w, h)
    ensures Before(t, background, k, RotPoint(p, w, h, deg)) == Before(frames, background, k, p)
  {
    if k > 0 {
      BeforeTurns(frames, t, w, h, deg, background, k - 1, p);
      assert TurnedTo(frames[k - 1], t[k - 1], w, h, deg);
      TurnablePlaysAlike(frames[k - 1], t[k - 1], w, h, deg, p, Before(frames, background, k - 1, p), background);
    }
  }

  /** Rotating an animation commutes with playing it: while any frame is up, the rotated
      animation shows the rotation of what the original shows. */
  lemma RotationCommutesWithPlaying(frames: seq<Frame>, t: seq<Frame>, w: int, h: int, deg: int, background: Color, k: nat)
    requires k < |frames| && FramesOn(frames, w, h) && AllTurned(frames, t, w, h, deg)
    ensures Shown(t, RotWidth(w, h, deg), RotHeight(w, h, deg), background, k)
         == Turned(Shown(frames, w, h, background, k), w, h, deg)
  {
    var to := Shown(t, RotWidth(w, h, deg), RotHeight(w, h, deg), background, k);
    var from := Shown(frames, w, h, background, k);
    forall p | InCanvas(p, w, h)
      ensures RotPoint(p, w, h, deg) in to && to[RotPoint(p, w, h, deg)] == from[p]
    {
      RotPointBijective(p, w, h, deg);
      BeforeTurns(frames, t, w, h, deg, background, k, p);
      assert TurnedTo(frames[k], t[k], w, h, deg);
      TurnablePlaysAlike(frames[k], t[k], w, h, deg, p, Before(frames, background, k, p), background);
    }
    TurnedIs(from, w, h, deg, to);
  }

  // ----- rotating again -----

  /** A frame with pixels, all of them on a w by h canvas. */
  ghost predicate Solidly(f: Frame, w: int, h: int) {
    FrameOn(f, w, h) && !f.rect.Empty()
  }

  ghost predicate AllSolidly(frames: seq<Frame>, w: int, h: int) {
    forall i :: 0 <= i < |frames| ==> Solidly(frames[i], w, h)
  }

  lemma TurnedSolidly(f: Frame, g: Frame, w: int, h: int, deg: int)
    requires Solidly(f, w, h) && TurnedTo(f, g, w, h, deg)
    ensures Solidly(g, RotWidth(w, h, deg), RotHeight(w, h, deg))
  {
    RotRectStays(f.rect, w, h, deg);
  }

  /** Every pixel of a turned frame is one of the frame. */
  lemma TurnedPixel(f: Frame, g: Frame, w: int, h: int, deg: int, p: Point)
    requires Solidly(f, w, h) && TurnedTo(f, g, w, h, deg)
    ensures RotPoint(p, w, h, deg) in g.pixels <==> p in f.pixels
    ensures p in f.pixels ==> g.pixels[RotPoint(p, w, h, deg)] == f.pixels[p]
  {
    RotPointBijective(p, w, h, deg);
    RotRectHolds(f.rect, p, w, h, deg);
  }

  /** And each pixel is where the turn puts it: that characterises the turned frame. */
  lemma TurnedFrom(f: Frame, g: Frame, w: int, h: int, deg: int)
    requires Solidly(f, w, h) && g.rect == RotRect(f.rect, w, h, deg) && g.palette == f.palette && g.disposal == f.disposal
    requires forall p :: RotPoint(p, w, h, deg) in g.pixels <==> p in f.pixels
    requires forall p :: p in f.pixels ==> g.pixels[RotPoint(p, w, h, deg)] == f.pixels[p]
    ensures TurnedTo(f, g, w, h, deg)
  {
    forall q
      ensures q in g.pixels <==> g.rect.Contains(q)
      ensures q in g.pixels ==> var p := RotPoint(q, RotWidth(w, h, deg), RotHeight(w, h, deg), Back(deg));
                                p in f.pixels && g.pixels[q] == f.pixels[p]
    {
      var p := RotPoint(q, RotWidth(w, h, deg), RotHeight(w, h, deg), Back(deg));
      RotPointBijective(q, w, h, deg);
      assert RotPoint(p, w, h, deg) == q;
      RotRectHolds(f.rect, p, w, h, deg);
    }
  }

  /** Rotating a frame by a and then by b is rotating it once by their sum. */
  lemma TurnedToComposes(f: Frame, g: Frame, k: Frame, w: int, h: int, a: int, b: int)
    requires QuarterTurn(a) && QuarterTurn(b) && Solidly(f, w, h)
    requires TurnedTo(f, g, w, h, a) && TurnedTo(g, k, RotWidth(w, h, a), RotHeight(w, h, a), b)
    ensures TurnedTo(f, k, w, h, Sum(a, b))
  {
    TurnedSolidly(f, g, w, h, a);
    RotRectComposes(f.rect, w, h, a, b);
    forall p
      ensures RotPoint(p, w, h, Sum(a, b)) in k.pixels <==> p in f.pixels
      ensures p in f.pixels ==> k.pixels[RotPoint(p, w, h, Sum(a, b))] == f.pixels[p]
    {
      TurnedPixel(f, g, w, h, a, p);
      TurnedPixel(g, k, RotWidth(w, h, a), RotHeight(w, h, a), b, RotPoint(p, w, h, a));
      RotPointComposes(p, w, h, a, b);
    }
    TurnedFrom(f, k, w, h, Sum(a, b));
  }

  /** Rotations of an animation add up like those of a picture. */
  lemma AllTurnedCompose(frames: seq<Frame>, t: seq<Frame>, u: seq<Frame>, w: int, h: int, a: int, b: int)
    requires QuarterTurn(a) && QuarterTurn(b) && AllSolidly(frames, w, h)
    requires AllTurned(frames, t, w, h, a) && AllTurned(t, u, RotWidth(w, h, a), RotHeight(w, h, a), b)
    ensures AllSolidly(t, RotWidth(w, h, a), RotHeight(w, h, a))
    ensures AllTurned(frames, u, w, h, Sum(a, b))
  {
    forall i | 0 <= i < |frames|
      ensures Solidly(t[i], RotWidth(w, h, a), RotHeight(w, h, a)) && TurnedTo(frames[i], u[i], w, h, Sum(a, b))
    {
      assert TurnedTo(frames[i], t[i], w, h, a) && TurnedTo(t[i], u[i], RotWidth(w, h, a), RotHeight(w, h, a), b);
      TurnedSolidly(frames[i], t[i], w, h, a);
      TurnedToComposes(frames[i], t[i], u[i], w, h, a, b);
    }
  }

  lemma NotTurned(frames: seq<Frame>, t: seq<Frame>, w: int, h: int)
    requires AllSolidly(frames, w, h) && AllTurned(frames, t, w, h, 0)
    ensures t == frames
  {
    forall i | 0 <= i < |frames|
      ensures t[i] == frames[i]
    {
      var f, g := frames[i], t[i];
      assert TurnedTo(f, g, w, h, 0);
      forall p ensures p in g.pixels <==> p in f.pixels
               ensures p in f.pixels ==> g.pixels[p] == f.pixels[p] {
        TurnedPixel(f, g, w, h, 0, p);
      }
      assert g.pixels == f.pixels;
    }
  }

  /** The same turn four times, each baked into the animation, restores it. */
  lemma FourTurnsRestore(frames: seq<Frame>, t1: seq<Frame>, t2: seq<Frame>, t3: seq<Frame>, t4: seq<Frame>,
                         w: int, h: int, turn: int)
    requires QuarterTurn(turn) && AllSolidly(frames, w, h)
    requires AllTurned(frames, t1, w, h, turn) && AllTurned(t1, t2, RotWidth(w, h, turn), RotHeight(w, h, turn), turn)
    requires AllTurned(t2, t3, w, h, turn) && AllTurned(t3, t4, RotWidth(w, h, turn), RotHeight(w, h, turn), turn)
    ensures t4 == frames
  {
    var half := Sum(turn, turn);
    AllTurnedCompose(frames, t1, t2, w, h, turn, turn);
    forall i | 0 <= i < |frames| ensures Solidly(t2[i], w, h) {
      assert TurnedTo(frames[i], t2[i], w, h, half);
      TurnedSolidly(frames[i], t2[i], w, h, half);
    }
    AllTurnedCompose(t2, t3, t4, w, h, turn, turn);
    AllTurnedCompose(frames, t2, t4, w, h, half, half);
    NotTurned(frames, t4, w, h);
  }
}
