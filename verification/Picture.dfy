/** What a list of tiles leaves in the picture, pixel by pixel, said by position in the tiles. */
module Picture {
  import opened Colour
  import opened Drawing

  /* The samples of a pixel. */

  /** Every sample of the planes a mode has is 128. */
  ghost predicate Grey(f: Frame, e: Event)
    requires |e.tile| >= if f.mode == 1 then 384 else 192
  {
    forall i :: 0 <= i < (if f.mode == 1 then 384 else 192) ==> e.tile[i] == 128
  }

  /** 4:4:4: tiles of 8x8 pixels, three planes of 64. */
  function Sample444(tile: seq<int>, x: nat, y: nat): Sample
    requires |tile| >= 192
  {
    var n := 8 * (y % 8) + x % 8;
    Sample(tile[n], tile[64 + n], tile[128 + n])
  }

  /** 4:2:0: tiles of 16x16 pixels, four luma blocks and two chroma blocks for 2x2 pixels each. */
  function Sample420(tile: seq<int>, x: nat, y: nat): Sample
    requires |tile| >= 384
  {
    var dx, dy := x % 16, y % 16;
    var n := 8 * (dy / 2) + dx / 2;
    Sample(tile[64 * (2 * (dy / 8) + dx / 8) + 8 * (dy % 8) + dx % 8], tile[256 + n], tile[320 + n])
  }

  ghost predicate At444(e: Event, x: nat, y: nat) { e.tx == x / 8 && e.ty == y / 8 }

  /** In a picture padded to 608 rows, the 38th row of tiles has only its upper half. */
  ghost predicate At420(f: Frame, e: Event, x: nat, y: nat) {
    e.tx == x / 16 && e.ty == y / 16 && (f.padHeight == 608 && e.ty == 37 ==> y % 16 < 8)
  }

  /* First-pass tiles: what they do to one pixel of the framebuffer. */

  ghost predicate Roomy(f: Frame, c: Canvas) { |c.fb| == 4 * Area(f) }

  /** The tile draws pixel (x, y) as its m-th, or not at all. */
  ghost predicate Hits(f: Frame, op: Op, e: Event, x: nat, y: nat, hit: bool, m: nat) {
    && (hit ==> m < Count(f, op, e))
    && forall n: nat :: n < Count(f, op, e) ==> (PixX(op, e, n) == x && PixY(op, e, n) == y <==> hit && n == m)
  }

  lemma StepPixel(f: Frame, c: Canvas, op: Op, e: Event, n: nat, x: nat, y: nat)
    requires Roomy(f, c) && Ready(f, op, e) && (op == Draw || op == DrawWide) && n < Count(f, op, e)
    requires x < f.width && y < f.height
    ensures PixelAt(Step(f, c, op, e, n).fb, Linear(f, x, y)) ==
            if PixX(op, e, n) == x && PixY(op, e, n) == y then Rgb(SampleOf(op, e, n))
            else PixelAt(c.fb, Linear(f, x, y))
  {
    hide Rgb, PutPixel, PutSample, SampleOf, PixelAt;
    var px, py := PixX(op, e, n), PixY(op, e, n);
    if Inside(f, op, e, n) {
      LinearUnique(f.width, px, py, x, y);
      assert Place(f.width, px, py) == Linear(f, px, py);
      PutPixelAt(c.fb, Linear(f, px, py), Rgb(SampleOf(op, e, n)), Linear(f, x, y));
    }
  }

  lemma {:induction false} ApplyPixel(f: Frame, c: Canvas, op: Op, e: Event, n: nat, x: nat, y: nat, hit: bool, m: nat)
    requires Roomy(f, c) && Ready(f, op, e) && (op == Draw || op == DrawWide) && n <= Count(f, op, e)
    requires x < f.width && y < f.height && Hits(f, op, e, x, y, hit, m)
    ensures PixelAt(Apply(f, c, op, e, n).fb, Linear(f, x, y)) ==
            if hit && m < n then Rgb(SampleOf(op, e, m)) else PixelAt(c.fb, Linear(f, x, y))
  {
    hide Step, Rgb, SampleOf, PixelAt, Linear, Count, PixX, PixY;
    if n > 0 {
      ApplyPixel(f, c, op, e, n - 1, x, y, hit, m);
      StepPixel(f, Apply(f, c, op, e, n - 1), op, e, n - 1, x, y);
    }
  }

  lemma Hit420(f: Frame, e: Event, x: nat, y: nat)
    ensures Hits(f, DrawWide, e, x, y, At420(f, e, x, y), 16 * (y % 16) + x % 16)
  {
    forall n: nat | n < Count(f, DrawWide, e)
      ensures PixX(DrawWide, e, n) == x && PixY(DrawWide, e, n) == y <==>
              At420(f, e, x, y) && n == 16 * (y % 16) + x % 16
    {
      Digits(e.tx, n % 16, 16, x);
      Digits(e.ty, n / 16, 16, y);
    }
  }

  lemma Hit444(f: Frame, e: Event, x: nat, y: nat)
    ensures Hits(f, Draw, e, x, y, At444(e, x, y), 8 * (y % 8) + x % 8)
  {
    forall n: nat | n < 64
      ensures PixX(Draw, e, n) == x && PixY(Draw, e, n) == y <==> At444(e, x, y) && n == 8 * (y % 8) + x % 8
    {
      Digits(e.tx, n % 8, 8, x);
      Digits(e.ty, n / 8, 8, y);
    }
  }

  lemma Digits(t: nat, d: nat, unit: nat, x: nat)
    requires d < unit && (unit == 8 || unit == 16)
    ensures unit * t + d == x <==> t == x / unit && d == x % unit
  {
  }

  /** One tile of a frame in 4:2:0. */
  ghost predicate Draws420(f: Frame, e: Event, x: nat, y: nat)
    requires Proper(f, e) && f.mode != 0
  {
    At420(f, e, x, y) && e.pass == First && !Grey(f, e)
  }

  lemma Paint420(f: Frame, c: Canvas, e: Event, x: nat, y: nat)
    requires Roomy(f, c) && Proper(f, e) && f.mode != 0 && x < f.width && y < f.height
    ensures Paint(f, c, e).prev == c.prev
    ensures PixelAt(Paint(f, c, e).fb, Linear(f, x, y)) ==
            if Draws420(f, e, x, y) then Rgb(Sample420(e.tile, x, y)) else PixelAt(c.fb, Linear(f, x, y))
  {
    hide Step, Rgb, PixelAt, Linear, Apply;
    if Operation(f, e) == DrawWide {
      Hit420(f, e, x, y);
      ApplyPixel(f, c, DrawWide, e, Count(f, DrawWide, e), x, y, At420(f, e, x, y), 16 * (y % 16) + x % 16);
      Keeps420(f, c, e, Count(f, DrawWide, e));
      WideIsLiteral(e, x, y);
    }
  }

  lemma WideIsLiteral(e: Event, x: nat, y: nat)
    requires |e.tile| >= 384
    ensures SampleOf(DrawWide, e, 16 * (y % 16) + x % 16) == Sample420(e.tile, x, y)
  {
    var n := 16 * (y % 16) + x % 16;
    assert n / 16 == y % 16 && n % 16 == x % 16;
  }

  lemma {:induction false} Keeps420(f: Frame, c: Canvas, e: Event, n: nat)
    requires Ready(f, DrawWide, e) && n <= Count(f, DrawWide, e)
    ensures Apply(f, c, DrawWide, e, n).prev == c.prev
  {
    hide Rgb, PutPixel, SampleOf, Count;
    if n > 0 { Keeps420(f, c, e, n - 1); }
  }

  /* Frames in 4:2:0. */

  /** Tile i is the last that draws the pixel. */
  ghost predicate Last420(f: Frame, es: seq<Event>, i: nat, x: nat, y: nat)
    requires AllProper(f, es) && f.mode != 0
  {
    i < |es| && Draws420(f, es[i], x, y) && forall j :: i < j < |es| ==> !Draws420(f, es[j], x, y)
  }

  ghost predicate None420(f: Frame, es: seq<Event>, x: nat, y: nat)
    requires AllProper(f, es) && f.mode != 0
  {
    forall j :: 0 <= j < |es| ==> !Draws420(f, es[j], x, y)
  }

  /** After any tiles, a pixel has the colour of its sample in the last non-grey first-pass tile at its place, and
      its old colour if there is none. The references never change. */
  lemma {:induction false} PixelHistory420(f: Frame, c: Canvas, es: seq<Event>, x: nat, y: nat)
    requires Roomy(f, c) && AllProper(f, es) && f.mode != 0 && x < f.width && y < f.height
    ensures PaintAll(f, c, es).prev == c.prev
    ensures var p := PixelAt(PaintAll(f, c, es).fb, Linear(f, x, y));
            && (forall i: nat :: Last420(f, es, i, x, y) ==> p == Rgb(Sample420(es[i].tile, x, y)))
            && (None420(f, es, x, y) ==> p == PixelAt(c.fb, Linear(f, x, y)))
  {
    hide Paint, Rgb, PixelAt, Linear, Draws420, Sample420;
    if es != [] {
      var es', e := es[..|es| - 1], es[|es| - 1];
      PixelHistory420(f, c, es', x, y);
      Paint420(f, PaintAll(f, c, es'), e, x, y);
      var p := PixelAt(PaintAll(f, c, es).fb, Linear(f, x, y));
      forall i: nat | Last420(f, es, i, x, y) ensures p == Rgb(Sample420(es[i].tile, x, y)) {
        if i < |es'| { assert Last420(f, es', i, x, y); }
      }
      assert None420(f, es, x, y) ==> None420(f, es', x, y);
    }
  }

  /* Frames in 4:4:4. */

  ghost predicate Draws444(f: Frame, e: Event, x: nat, y: nat)
    requires Proper(f, e) && f.mode == 0
  {
    At444(e, x, y) && !Grey(f, e)
  }

  /** First-pass tiles and grey ones set the reference. */
  ghost predicate Refers(f: Frame, e: Event, x: nat, y: nat)
    requires Proper(f, e) && f.mode == 0
  {
    At444(e, x, y) && (e.pass == First || Grey(f, e))
  }

  ghost predicate Last444(f: Frame, es: seq<Event>, i: nat, x: nat, y: nat)
    requires AllProper(f, es) && f.mode == 0
  {
    i < |es| && Draws444(f, es[i], x, y) && forall j :: i < j < |es| ==> !Draws444(f, es[j], x, y)
  }

  ghost predicate None444(f: Frame, es: seq<Event>, x: nat, y: nat)
    requires AllProper(f, es) && f.mode == 0
  {
    forall j :: 0 <= j < |es| ==> !Draws444(f, es[j], x, y)
  }

  ghost predicate LastRef(f: Frame, es: seq<Event>, i: nat, x: nat, y: nat)
    requires AllProper(f, es) && f.mode == 0
  {
    i < |es| && Refers(f, es[i], x, y) && forall j :: i < j < |es| ==> !Refers(f, es[j], x, y)
  }

  ghost predicate NoRef(f: Frame, es: seq<Event>, x: nat, y: nat)
    requires AllProper(f, es) && f.mode == 0
  {
    forall j :: 0 <= j < |es| ==> !Refers(f, es[j], x, y)
  }

  /** One tile of a frame whose source has the picture's size. */
  lemma Paint444(f: Frame, c: Canvas, e: Event, x: nat, y: nat)
    requires Plain(f) && Sized(f, c) && Proper(f, e) && x < f.width && y < f.height
    ensures var was, now, s := CellAt(f, c, x, y), CellAt(f, Paint(f, c, e), x, y), Sample444(e.tile, x, y);
            && now.s == (if Refers(f, e, x, y) then s else was.s)
            && now.p == if !Draws444(f, e, x, y) then was.p
                         else if e.pass == First then Rgb(s)
                         else Rgb(Sample(was.s.y + s.y - 128, was.s.cb + s.cb - 128, was.s.cr + s.cr - 128))
  {
    hide CellAt, Paint, Rgb;
    PaintAt(f, c, e, x, y);
    CoversIsAt(e, x, y);
  }

  lemma CoversIsAt(e: Event, x: nat, y: nat)
    ensures Covers(e, x, y) <==> At444(e, x, y)
    ensures Covers(e, x, y) ==> Spot(e, x, y) == 8 * (y % 8) + x % 8
  {
  }

  /** The reference after any tiles is the sample of the last tile that sets it. */
  lemma {:induction false} ReferenceHistory444(f: Frame, c: Canvas, es: seq<Event>, x: nat, y: nat)
    requires Plain(f) && Sized(f, c) && AllProper(f, es) && x < f.width && y < f.height
    ensures var s := CellAt(f, PaintAll(f, c, es), x, y).s;
            && (forall i: nat :: LastRef(f, es, i, x, y) ==> s == Sample444(es[i].tile, x, y))
            && (NoRef(f, es, x, y) ==> s == CellAt(f, c, x, y).s)
  {
    hide Paint, CellAt, Rgb, Refers, Draws444, Sample444;
    if es != [] {
      var es', e := es[..|es| - 1], es[|es| - 1];
      ReferenceHistory444(f, c, es', x, y);
      Paint444(f, PaintAll(f, c, es'), e, x, y);
      var s := CellAt(f, PaintAll(f, c, es), x, y).s;
      forall i: nat | LastRef(f, es, i, x, y) ensures s == Sample444(es[i].tile, x, y) {
        if i < |es'| { assert LastRef(f, es', i, x, y); }
      }
      assert NoRef(f, es, x, y) ==> NoRef(f, es', x, y);
    }
  }

  /** The colour that tile i shows at (x, y) when s is the reference there. */
  function Shade(e: Event, s: Sample, x: nat, y: nat): Pixel
    requires |e.tile| >= 192
  {
    var d := Sample444(e.tile, x, y);
    if e.pass == First then Rgb(d) else Rgb(Sample(s.y + d.y - 128, s.cb + d.cb - 128, s.cr + d.cr - 128))
  }

  /** The reference that the first i tiles leave. */
  ghost function RefBefore(f: Frame, c: Canvas, es: seq<Event>, i: nat, x: nat, y: nat): Sample
    requires Plain(f) && Sized(f, c) && AllProper(f, es) && i <= |es| && x < f.width && y < f.height
  {
    CellAt(f, PaintAll(f, c, es[..i]), x, y).s
  }

  ghost predicate Explains(f: Frame, c: Canvas, es: seq<Event>, x: nat, y: nat, p: Pixel)
    requires Plain(f) && Sized(f, c) && AllProper(f, es) && x < f.width && y < f.height
  {
    && (forall i: nat :: Last444(f, es, i, x, y) ==> p == Shade(es[i], RefBefore(f, c, es, i, x, y), x, y))
    && (None444(f, es, x, y) ==> p == CellAt(f, c, x, y).p)
  }

  /** After any tiles of both passes, a pixel has the colour that the last non-grey tile at its place shows: its
      sample, or for a difference its sample added, less 128, to the reference that the tiles before it left. */
  lemma {:induction false} PixelHistory444(f: Frame, c: Canvas, es: seq<Event>, x: nat, y: nat)
    requires Plain(f) && Sized(f, c) && AllProper(f, es) && x < f.width && y < f.height
    ensures Explains(f, c, es, x, y, CellAt(f, PaintAll(f, c, es), x, y).p)
  {
    hide Paint, CellAt, Rgb, Refers, Draws444, Sample444, Explains, Shade;
    if es == [] {
      NothingExplains(f, c, x, y);
    } else {
      var es', e := es[..|es| - 1], es[|es| - 1];
      PixelHistory444(f, c, es', x, y);
      var before := PaintAll(f, c, es');
      PaintShows(f, before, e, x, y);
      assert es'[..|es'|] == es';
      OneMoreExplains(f, c, es', e, x, y, CellAt(f, before, x, y).p, CellAt(f, Paint(f, before, e), x, y).p);
      assert es == es' + [e];
    }
  }

  lemma NothingExplains(f: Frame, c: Canvas, x: nat, y: nat)
    requires Plain(f) && Sized(f, c) && x < f.width && y < f.height
    ensures Explains(f, c, [], x, y, CellAt(f, c, x, y).p)
  {
  }

  lemma PaintShows(f: Frame, c: Canvas, e: Event, x: nat, y: nat)
    requires Plain(f) && Sized(f, c) && Proper(f, e) && x < f.width && y < f.height
    ensures CellAt(f, Paint(f, c, e), x, y).p ==
            if Draws444(f, e, x, y) then Shade(e, CellAt(f, c, x, y).s, x, y) else CellAt(f, c, x, y).p
  {
    hide Paint, CellAt, Rgb, Draws444, Sample444;
    Paint444(f, c, e, x, y);
  }

  lemma OneMoreExplains(f: Frame, c: Canvas, es: seq<Event>, e: Event, x: nat, y: nat, p: Pixel, q: Pixel)
    requires Plain(f) && Sized(f, c) && AllProper(f, es) && Proper(f, e) && x < f.width && y < f.height
    requires Explains(f, c, es, x, y, p)
    requires q == if Draws444(f, e, x, y) then Shade(e, RefBefore(f, c, es, |es|, x, y), x, y) else p
    ensures Explains(f, c, es + [e], x, y, q)
  {
    hide Draws444, Shade, CellAt, PaintAll;
    var more := es + [e];
    forall i: nat | Last444(f, more, i, x, y) ensures q == Shade(more[i], RefBefore(f, c, more, i, x, y), x, y) {
      assert more[..i] == es[..i];
      if i < |es| {
        assert more[|es|] == e && more[i] == es[i];
        assert forall j :: i < j < |es| ==> es[j] == more[j];
        assert Last444(f, es, i, x, y);
      }
    }
    if None444(f, more, x, y) {
      assert more[|es|] == e;
      assert forall j :: 0 <= j < |es| ==> more[j] == es[j];
      assert None444(f, es, x, y);
    }
  }

  /** First-pass tiles in 4:4:4 draw the same whatever the size of the source. */
  lemma {:induction false} FirstPass444(f: Frame, c: Canvas, es: seq<Event>, x: nat, y: nat)
    requires Roomy(f, c) && AllProper(f, es) && f.mode == 0 && x < f.width && y < f.height
    requires forall i :: 0 <= i < |es| ==> es[i].pass == First
    ensures var p := PixelAt(PaintAll(f, c, es).fb, Linear(f, x, y));
            && (forall i: nat :: Last444(f, es, i, x, y) ==> p == Rgb(Sample444(es[i].tile, x, y)))
            && (None444(f, es, x, y) ==> p == PixelAt(c.fb, Linear(f, x, y)))
  {
    hide Paint, Rgb, PixelAt, Linear, Draws444, Sample444;
    if es != [] {
      var es', e := es[..|es| - 1], es[|es| - 1];
      FirstPass444(f, c, es', x, y);
      PaintFirst444(f, PaintAll(f, c, es'), e, x, y);
      var p := PixelAt(PaintAll(f, c, es).fb, Linear(f, x, y));
      forall i: nat | Last444(f, es, i, x, y) ensures p == Rgb(Sample444(es[i].tile, x, y)) {
        if i < |es'| { assert Last444(f, es', i, x, y); }
      }
      assert None444(f, es, x, y) ==> None444(f, es', x, y);
    }
  }

  lemma PaintFirst444(f: Frame, c: Canvas, e: Event, x: nat, y: nat)
    requires Roomy(f, c) && Proper(f, e) && f.mode == 0 && e.pass == First && x < f.width && y < f.height
    ensures PixelAt(Paint(f, c, e).fb, Linear(f, x, y)) ==
            if Draws444(f, e, x, y) then Rgb(Sample444(e.tile, x, y)) else PixelAt(c.fb, Linear(f, x, y))
  {
    hide Step, Rgb, PixelAt, Linear, Apply;
    if Operation(f, e) == Draw {
      Hit444(f, e, x, y);
      ApplyPixel(f, c, Draw, e, 64, x, y, At444(e, x, y), 8 * (y % 8) + x % 8);
    } else {
      Remembers444(f, c, e, 64);
    }
  }

  lemma {:induction false} Remembers444(f: Frame, c: Canvas, e: Event, n: nat)
    requires Ready(f, Remember, e) && n <= 64
    ensures Apply(f, c, Remember, e, n).fb == c.fb
  {
    hide Rgb, PutSample, SampleOf;
    if n > 0 { Remembers444(f, c, e, n - 1); }
  }

  /* Difference tiles and references in 4:4:4, whatever the size of the source. */

  /** The sample a difference shows at (x, y): added to the reference at that place in the source, row by row. */
  function Referred(f: Frame, prev: seq<int>, d: Sample, x: nat, y: nat): Sample {
    var k := y * f.realWidth + x;
    if 3 * k + 2 < |prev|
    then Sample(prev[3 * k] + d.y - 128, prev[3 * k + 1] + d.cb - 128, prev[3 * k + 2] + d.cr - 128)
    else Sample(0, 0, 0)
  }

  lemma {:induction false} ApplyDifference(f: Frame, c: Canvas, e: Event, n: nat, x: nat, y: nat)
    requires Roomy(f, c) && Ready(f, Difference, e) && n <= 64 && x < f.width && y < f.height
    ensures Apply(f, c, Difference, e, n).prev == c.prev
    ensures PixelAt(Apply(f, c, Difference, e, n).fb, Linear(f, x, y)) ==
            if At444(e, x, y) && 8 * (y % 8) + x % 8 < n then Rgb(Referred(f, c.prev, Sample444(e.tile, x, y), x, y))
            else PixelAt(c.fb, Linear(f, x, y))
  {
    hide Rgb, PixelAt, Linear, Referred, Sample444, Step;
    if n > 0 {
      ApplyDifference(f, c, e, n - 1, x, y);
      StepDifference(f, Apply(f, c, Difference, e, n - 1), e, n - 1, x, y);
      Digits(e.tx, (n - 1) % 8, 8, x);
      Digits(e.ty, (n - 1) / 8, 8, y);
    }
  }

  lemma StepDifference(f: Frame, c: Canvas, e: Event, n: nat, x: nat, y: nat)
    requires Roomy(f, c) && Ready(f, Difference, e) && n < 64 && x < f.width && y < f.height
    ensures Step(f, c, Difference, e, n).prev == c.prev
    ensures PixelAt(Step(f, c, Difference, e, n).fb, Linear(f, x, y)) ==
            if 8 * e.tx + n % 8 == x && 8 * e.ty + n / 8 == y
            then Rgb(Referred(f, c.prev, Sample444(e.tile, x, y), x, y))
            else PixelAt(c.fb, Linear(f, x, y))
  {
    hide Rgb, PutPixel, PixelAt;
    var px, py := PixX(Difference, e, n), PixY(Difference, e, n);
    if Inside(f, Difference, e, n) {
      LinearUnique(f.width, px, py, x, y);
      var s := Difference8(c.prev, Place(f.realWidth, px, py), NarrowSample(e.tile, n));
      PutPixelAt(c.fb, Linear(f, px, py), Rgb(s), Linear(f, x, y));
      if px == x && py == y {
        Digits(e.tx, n % 8, 8, x);
        Digits(e.ty, n / 8, 8, y);
      }
    }
  }

  /** A difference tile shows its samples added to the references at its place, and leaves all references alone. */
  lemma PaintDifference(f: Frame, c: Canvas, e: Event, x: nat, y: nat)
    requires Roomy(f, c) && Proper(f, e) && f.mode == 0 && e.pass == Second && !Grey(f, e)
    requires x < f.width && y < f.height
    ensures Paint(f, c, e).prev == c.prev
    ensures PixelAt(Paint(f, c, e).fb, Linear(f, x, y)) ==
            if At444(e, x, y) then Rgb(Referred(f, c.prev, Sample444(e.tile, x, y), x, y))
            else PixelAt(c.fb, Linear(f, x, y))
  {
    hide Rgb, PixelAt, Linear, Referred, Sample444, Apply;
    assert Operation(f, e) == Difference;
    ApplyDifference(f, c, e, 64, x, y);
  }

  /** Where a tile sets references: a grey one inside the source, another first-pass one inside the picture. */
  ghost predicate SetsReference(f: Frame, e: Event, x: nat, y: nat)
    requires Proper(f, e) && f.mode == 0
  {
    && At444(e, x, y)
    && if Grey(f, e) then x < f.realWidth && y < f.realHeight else e.pass == First && x < f.width && y < f.height
  }

  /** The tile sets reference k by its m-th pixel, or not at all. */
  ghost predicate RefHits(f: Frame, op: Op, e: Event, k: nat, hit: bool, m: nat) {
    forall n: nat :: n < 64 ==>
      (Inside(f, op, e, n) && Place(f.realWidth, PixX(op, e, n), PixY(op, e, n)) == k <==> hit && n == m)
  }

  lemma {:induction false} ApplyReference(f: Frame, c: Canvas, op: Op, e: Event, n: nat, k: nat, hit: bool, m: nat)
    requires Ready(f, op, e) && (op == Draw || op == Remember) && n <= 64 && m < 64
    requires 3 * k + 2 < |c.prev| && RefHits(f, op, e, k, hit, m)
    ensures GetSample(Apply(f, c, op, e, n).prev, k) ==
            if hit && m < n then NarrowSample(e.tile, m) else GetSample(c.prev, k)
  {
    hide Rgb, PutPixel, PutSample, GetSample, NarrowSample, Inside, Place, PixX, PixY;
    if n > 0 {
      ApplyReference(f, c, op, e, n - 1, k, hit, m);
      var before := Apply(f, c, op, e, n - 1);
      var q := Place(f.realWidth, PixX(op, e, n - 1), PixY(op, e, n - 1));
      if 3 * q + 2 < |before.prev| {
        PutSampleAt(before.prev, q, NarrowSample(e.tile, n - 1), k);
      } else {
        PutSampleOutside(before.prev, q, NarrowSample(e.tile, n - 1));
      }
    }
  }

  lemma PutSampleOutside(prev: seq<int>, q: nat, s: Sample)
    requires 3 * q + 2 >= |prev|
    ensures PutSample(prev, q, s) == prev
  {
  }

  /** Pixels of one tile have different places in a source at least eight pixels wide. */
  lemma PlacesDiffer(w: nat, x: nat, y: nat, x': nat, y': nat)
    requires w >= 8 && x / 8 == x' / 8 && y * w + x == y' * w + x'
    ensures x == x' && y == y'
  {
    RowsApart(y, y', w);
    RowsApart(y', y, w);
  }

  lemma RowsApart(y: nat, y': nat, w: nat)
    ensures y < y' ==> y * w + w <= y' * w
  {
    if y < y' { assert (y + 1) * w <= y' * w; }
  }

  lemma RefHit(f: Frame, op: Op, e: Event, x: nat, y: nat)
    requires f.mode == 0 && (op == Draw || op == Remember) && f.realWidth >= 8 && At444(e, x, y)
    requires if op == Remember then x < f.realWidth && y < f.realHeight else x < f.width && y < f.height
    ensures RefHits(f, op, e, Place(f.realWidth, x, y), true, 8 * (y % 8) + x % 8)
  {
    hide Place;
    forall n: nat | n < 64
      ensures Inside(f, op, e, n) && Place(f.realWidth, PixX(op, e, n), PixY(op, e, n)) == Place(f.realWidth, x, y) <==>
              n == 8 * (y % 8) + x % 8
    {
      var px, py := PixX(op, e, n), PixY(op, e, n);
      Digits(e.tx, n % 8, 8, x);
      Digits(e.ty, n / 8, 8, y);
      SamePlace(f.realWidth, px, py, x, y);
    }
  }

  lemma SamePlace(w: nat, x: nat, y: nat, x': nat, y': nat)
    requires w >= 8 && x / 8 == x' / 8
    ensures Place(w, x, y) == Place(w, x', y') <==> x == x' && y == y'
  {
    if Place(w, x, y) == Place(w, x', y') { PlacesDiffer(w, x, y, x', y'); }
  }

  /** A tile that sets references stores its sample for each of its pixels at that pixel's place in the source. */
  lemma ReferenceSet(f: Frame, c: Canvas, e: Event, x: nat, y: nat)
    requires Proper(f, e) && f.mode == 0 && f.realWidth >= 8 && SetsReference(f, e, x, y)
    requires 3 * (y * f.realWidth + x) + 2 < |c.prev|
    ensures GetSample(Paint(f, c, e).prev, y * f.realWidth + x) == Sample444(e.tile, x, y)
  {
    hide GetSample, Apply;
    var op := Operation(f, e);
    RefHit(f, op, e, x, y);
    ApplyReference(f, c, op, e, 64, y * f.realWidth + x, true, 8 * (y % 8) + x % 8);
  }

  /** And leaves every other place alone. */
  lemma ReferenceKept(f: Frame, c: Canvas, e: Event, k: nat)
    requires Proper(f, e) && f.mode == 0 && 3 * k + 2 < |c.prev|
    requires forall x: nat, y: nat :: SetsReference(f, e, x, y) ==> Place(f.realWidth, x, y) != k
    ensures GetSample(Paint(f, c, e).prev, k) == GetSample(c.prev, k)
  {
    hide GetSample, Apply, Place;
    var op := Operation(f, e);
    if op == Difference {
      KeepsReferences(f, c, e, 64);
    } else {
      forall n: nat | n < 64
        ensures !(Inside(f, op, e, n) && Place(f.realWidth, PixX(op, e, n), PixY(op, e, n)) == k)
      {
        var x, y := PixX(op, e, n), PixY(op, e, n);
        Digits(e.tx, n % 8, 8, x);
        Digits(e.ty, n / 8, 8, y);
        if Inside(f, op, e, n) { assert SetsReference(f, e, x, y); }
      }
      ApplyReference(f, c, op, e, 64, k, false, 0);
    }
  }

  lemma {:induction false} KeepsReferences(f: Frame, c: Canvas, e: Event, n: nat)
    requires Ready(f, Difference, e) && n <= 64
    ensures Apply(f, c, Difference, e, n).prev == c.prev
  {
    hide Rgb, PutPixel, Difference8, NarrowSample;
    if n > 0 { KeepsReferences(f, c, e, n - 1); }
  }
}
