/** Drawing decoded tiles: the framebuffer and the reference samples, byte by byte and then cell by cell. */
module Drawing {
  import opened Bits
  import opened Colour

  /** The sizes of one frame: destination, source, padded source height, chroma mode. */
  datatype Frame = Frame(width: nat, height: nat, realWidth: nat, realHeight: nat, padHeight: nat, mode: nat)

  datatype Canvas = Canvas(fb: seq<Byte>, prev: seq<int>)

  datatype Pass = First | Second

  /** A decoded tile, with the sample planes one after the other. */
  datatype Event = Event(pass: Pass, tx: nat, ty: nat, tile: seq<int>)

  function TileSize(mode: nat): nat { if mode == 0 then 192 else 384 }

  ghost predicate Proper(f: Frame, e: Event) { |e.tile| == TileSize(f.mode) }

  /** isNeutralBlock: every sample it inspects is 128. */
  predicate Neutral(f: Frame, e: Event)
    requires Proper(f, e)
  {
    forall i :: 0 <= i < (if f.mode == 1 then 384 else 192) ==> e.tile[i] == 128
  }

  /* What one tile does to each of its pixels, in the order the loops visit them. */

  datatype Op = Nothing | Remember | Draw | Difference | DrawWide

  function Operation(f: Frame, e: Event): Op
    requires Proper(f, e)
  {
    if Neutral(f, e) then (if f.mode == 0 then Remember else Nothing)
    else if e.pass == First then (if f.mode == 0 then Draw else DrawWide)
    else (if f.mode == 0 then Difference else Nothing)
  }

  /** Rows of a 16x16 tile that are drawn; the 38th row of tiles of an 800x600 picture is half outside. */
  function WideRows(f: Frame, ty: nat): (r: nat)
    ensures r == 8 || r == 16
  {
    if f.padHeight == 608 && ty == 37 then 8 else 16
  }

  function Count(f: Frame, op: Op, e: Event): nat {
    if op == Nothing then 0 else if op == DrawWide then 16 * WideRows(f, e.ty) else 64
  }

  function PutPixel(fb: seq<Byte>, q: nat, p: Pixel): (r: seq<Byte>)
    ensures |r| == |fb|
  {
    if 4 * q + 3 < |fb| then fb[4 * q := p.b][4 * q + 1 := p.g][4 * q + 2 := p.r][4 * q + 3 := p.a] else fb
  }

  function PutSample(prev: seq<int>, q: nat, s: Sample): (r: seq<int>)
    ensures |r| == |prev|
  {
    if 3 * q + 2 < |prev| then prev[3 * q := s.y][3 * q + 1 := s.cb][3 * q + 2 := s.cr] else prev
  }

  function GetSample(prev: seq<int>, q: nat): Sample {
    if 3 * q + 2 < |prev| then Sample(prev[3 * q], prev[3 * q + 1], prev[3 * q + 2]) else Sample(0, 0, 0)
  }

  function NarrowSample(tile: seq<int>, n: nat): Sample
    requires |tile| >= 192 && n < 64
  {
    Sample(tile[n], tile[64 + n], tile[128 + n])
  }

  /** The sample of pixel n of a 16x16 tile: four luma blocks, chroma shared by 2x2 pixels. */
  function WideSample(tile: seq<int>, n: nat): Sample
    requires |tile| >= 384 && n < 256
  {
    var row, col := n / 16, n % 16;
    var chroma := 8 * (row / 2) + col / 2;
    Sample(tile[64 * (2 * (row / 8) + col / 8) + 8 * (row % 8) + col % 8], tile[256 + chroma], tile[320 + chroma])
  }

  function SampleOf(op: Op, e: Event, n: nat): Sample
    requires |e.tile| >= 192 && (op == DrawWide ==> |e.tile| >= 384)
    requires n < if op == DrawWide then 256 else 64
  {
    if op == DrawWide then WideSample(e.tile, n) else NarrowSample(e.tile, n)
  }

  function PixX(op: Op, e: Event, n: nat): nat { if op == DrawWide then 16 * e.tx + n % 16 else 8 * e.tx + n % 8 }
  function PixY(op: Op, e: Event, n: nat): nat { if op == DrawWide then 16 * e.ty + n / 16 else 8 * e.ty + n / 8 }

  /** Whether pixel n of the tile is inside the picture (the source picture, when only remembering). */
  predicate Inside(f: Frame, op: Op, e: Event, n: nat) {
    if op == Remember then PixY(op, e, n) < f.realHeight && PixX(op, e, n) < f.realWidth
    else PixY(op, e, n) < f.height && PixX(op, e, n) < f.width
  }

  ghost predicate Ready(f: Frame, op: Op, e: Event) {
    Proper(f, e) && op != Nothing && (op == DrawWide <==> f.mode != 0)
  }

  function Place(w: nat, x: nat, y: nat): nat { y * w + x }

  function Step(f: Frame, c: Canvas, op: Op, e: Event, n: nat): (r: Canvas)
    requires Ready(f, op, e) && n < Count(f, op, e)
    ensures |r.fb| == |c.fb| && |r.prev| == |c.prev|
  {
    if !Inside(f, op, e, n) then c
    else
      var x, y, s := PixX(op, e, n), PixY(op, e, n), SampleOf(op, e, n);
      var q, k := Place(f.width, x, y), Place(f.realWidth, x, y);
      match op
      case Remember => c.(prev := PutSample(c.prev, k, s))
      case Draw => Canvas(PutPixel(c.fb, q, Rgb(s)), PutSample(c.prev, k, s))
      case Difference => c.(fb := PutPixel(c.fb, q, Rgb(Difference8(c.prev, k, s))))
      case DrawWide => c.(fb := PutPixel(c.fb, q, Rgb(s)))
      case Nothing => c
  }

  /** The sample a second-pass pixel shows; without a reference it is all zero. */
  function Difference8(prev: seq<int>, k: nat, s: Sample): Sample {
    if 3 * k + 2 < |prev| then Combine(GetSample(prev, k), s) else Sample(0, 0, 0)
  }

  function Apply(f: Frame, c: Canvas, op: Op, e: Event, n: nat): (r: Canvas)
    requires Ready(f, op, e) && n <= Count(f, op, e)
    ensures |r.fb| == |c.fb| && |r.prev| == |c.prev|
  {
    if n == 0 then c else Step(f, Apply(f, c, op, e, n - 1), op, e, n - 1)
  }

  /** The effect of one decoded tile. */
  function Paint(f: Frame, c: Canvas, e: Event): (r: Canvas)
    requires Proper(f, e)
    ensures |r.fb| == |c.fb| && |r.prev| == |c.prev|
  {
    var op := Operation(f, e);
    if op == Nothing then c else Apply(f, c, op, e, Count(f, op, e))
  }

  ghost predicate AllProper(f: Frame, es: seq<Event>) { forall i :: 0 <= i < |es| ==> Proper(f, es[i]) }

  function PaintAll(f: Frame, c: Canvas, es: seq<Event>): (r: Canvas)
    requires AllProper(f, es)
    ensures |r.fb| == |c.fb| && |r.prev| == |c.prev|
  {
    if es == [] then c else Paint(f, PaintAll(f, c, es[..|es| - 1]), es[|es| - 1])
  }

  lemma {:induction false} PaintConcat(f: Frame, c: Canvas, a: seq<Event>, b: seq<Event>)
    requires AllProper(f, a) && AllProper(f, b)
    ensures PaintAll(f, c, a + b) == PaintAll(f, PaintAll(f, c, a), b)
  {
    if b == [] {
      assert a + b == a;
    } else {
      var b' := b[..|b| - 1];
      assert (a + b)[..|a + b| - 1] == a + b';
      PaintConcat(f, c, a, b');
    }
  }

  /* 4:4:4 with equal source and destination: every pixel runs on its own. */

  ghost predicate Plain(f: Frame) { f.mode == 0 && f.realWidth == f.width && f.realHeight == f.height }

  function Area(f: Frame): nat { f.width * f.height }

  ghost predicate Sized(f: Frame, c: Canvas) { |c.fb| == 4 * Area(f) && |c.prev| == 3 * Area(f) }

  /** The position of a pixel in the picture. */
  function Linear(f: Frame, x: nat, y: nat): (q: nat)
    requires x < f.width && y < f.height
    ensures q < Area(f)
  {
    LinearBound(f.width, f.height, x, y);
    y * f.width + x
  }

  lemma LinearBound(w: nat, h: nat, x: nat, y: nat)
    requires x < w && y < h
    ensures y * w + x < w * h
  {
    assert (y + 1) * w <= h * w;
  }

  lemma LinearUnique(w: nat, x: nat, y: nat, x': nat, y': nat)
    requires x < w && x' < w
    ensures y * w + x == y' * w + x' <==> x == x' && y == y'
  {
    if y < y' { assert (y + 1) * w <= y' * w; }
    if y' < y { assert (y' + 1) * w <= y * w; }
  }

  /** A pixel of the framebuffer together with its reference sample. */
  datatype Cell = Cell(p: Pixel, s: Sample)

  function PixelAt(fb: seq<Byte>, q: nat): Pixel
    requires 4 * q + 3 < |fb|
  {
    Pixel(fb[4 * q], fb[4 * q + 1], fb[4 * q + 2], fb[4 * q + 3])
  }

  function CellAt(f: Frame, c: Canvas, x: nat, y: nat): Cell
    requires Sized(f, c) && x < f.width && y < f.height
  {
    Cell(PixelAt(c.fb, Linear(f, x, y)), GetSample(c.prev, Linear(f, x, y)))
  }

  lemma PutPixelAt(fb: seq<Byte>, q: nat, p: Pixel, k: nat)
    requires 4 * q + 3 < |fb| && 4 * k + 3 < |fb|
    ensures PixelAt(PutPixel(fb, q, p), k) == if k == q then p else PixelAt(fb, k)
  {
  }

  lemma PutSampleAt(prev: seq<int>, q: nat, s: Sample, k: nat)
    requires 3 * q + 2 < |prev| && 3 * k + 2 < |prev|
    ensures GetSample(PutSample(prev, q, s), k) == if k == q then s else GetSample(prev, k)
  {
  }

  /** What an operation does to one covered cell. */
  function CellStep(op: Op, s: Sample, cell: Cell): Cell {
    match op
    case Remember => cell.(s := s)
    case Draw => Cell(Rgb(s), s)
    case Difference => cell.(p := Rgb(Combine(cell.s, s)))
    case _ => cell
  }

  predicate Covers(e: Event, x: nat, y: nat) {
    8 * e.tx <= x < 8 * e.tx + 8 && 8 * e.ty <= y < 8 * e.ty + 8
  }

  /** The index of a covered pixel inside its tile. */
  function Spot(e: Event, x: nat, y: nat): (n: nat)
    requires Covers(e, x, y)
    ensures n < 64 && n % 8 == x - 8 * e.tx && n / 8 == y - 8 * e.ty
  {
    8 * (y - 8 * e.ty) + (x - 8 * e.tx)
  }

  lemma StepAt(f: Frame, c: Canvas, op: Op, e: Event, n: nat, x: nat, y: nat)
    requires Plain(f) && Sized(f, c) && Ready(f, op, e) && n < 64 && x < f.width && y < f.height
    ensures CellAt(f, Step(f, c, op, e, n), x, y) ==
            if Covers(e, x, y) && Spot(e, x, y) == n then CellStep(op, NarrowSample(e.tile, n), CellAt(f, c, x, y))
            else CellAt(f, c, x, y)
  {
    hide Rgb, PutPixel, PutSample, GetSample, PixelAt;
    var px, py := PixX(op, e, n), PixY(op, e, n);
    if Inside(f, op, e, n) {
      var q, k := Linear(f, px, py), Linear(f, x, y);
      LinearUnique(f.width, px, py, x, y);
      var s := NarrowSample(e.tile, n);
      PutSampleAt(c.prev, q, s, k);
      PutPixelAt(c.fb, q, Rgb(s), k);
      PutPixelAt(c.fb, q, Rgb(Difference8(c.prev, q, s)), k);
      SpotUnique(e, n, x, y);
    }
  }

  lemma SpotUnique(e: Event, n: nat, x: nat, y: nat)
    requires n < 64
    ensures (x == 8 * e.tx + n % 8 && y == 8 * e.ty + n / 8) <==> Covers(e, x, y) && Spot(e, x, y) == n
  {
  }

  lemma {:induction false} ApplyAt(f: Frame, c: Canvas, op: Op, e: Event, n: nat, x: nat, y: nat)
    requires Plain(f) && Sized(f, c) && Ready(f, op, e) && n <= 64 && x < f.width && y < f.height
    ensures CellAt(f, Apply(f, c, op, e, n), x, y) ==
            if Covers(e, x, y) && Spot(e, x, y) < n
            then CellStep(op, NarrowSample(e.tile, Spot(e, x, y)), CellAt(f, c, x, y))
            else CellAt(f, c, x, y)
  {
    hide Step, CellAt, CellStep, NarrowSample;
    if n > 0 {
      ApplyAt(f, c, op, e, n - 1, x, y);
      StepAt(f, Apply(f, c, op, e, n - 1), op, e, n - 1, x, y);
    }
  }

  /** What one tile does to one cell. */
  function CellEvent(f: Frame, e: Event, x: nat, y: nat, cell: Cell): Cell
    requires Proper(f, e) && f.mode == 0
  {
    if Covers(e, x, y) then CellStep(Operation(f, e), NarrowSample(e.tile, Spot(e, x, y)), cell) else cell
  }

  function RunCell(f: Frame, es: seq<Event>, x: nat, y: nat, cell: Cell): Cell
    requires AllProper(f, es) && f.mode == 0
  {
    if es == [] then cell else CellEvent(f, es[|es| - 1], x, y, RunCell(f, es[..|es| - 1], x, y, cell))
  }

  lemma PaintAt(f: Frame, c: Canvas, e: Event, x: nat, y: nat)
    requires Plain(f) && Sized(f, c) && Proper(f, e) && x < f.width && y < f.height
    ensures CellAt(f, Paint(f, c, e), x, y) == CellEvent(f, e, x, y, CellAt(f, c, x, y))
  {
    hide CellAt, Step, Apply, CellStep, NarrowSample, Neutral;
    ApplyAt(f, c, Operation(f, e), e, 64, x, y);
  }

  /** Locality: a frame acts on each cell through the tiles that cover it, and through nothing else. */
  lemma {:induction false} PaintAllAt(f: Frame, c: Canvas, es: seq<Event>, x: nat, y: nat)
    requires Plain(f) && Sized(f, c) && AllProper(f, es) && x < f.width && y < f.height
    ensures CellAt(f, PaintAll(f, c, es), x, y) == RunCell(f, es, x, y, CellAt(f, c, x, y))
  {
    hide CellAt, Paint, CellEvent;
    if es != [] {
      var es' := es[..|es| - 1];
      PaintAllAt(f, c, es', x, y);
      PaintAt(f, PaintAll(f, c, es'), es[|es| - 1], x, y);
    }
  }

  /** Canvases that agree on every cell are equal. */
  lemma CellsDetermineCanvas(f: Frame, c: Canvas, d: Canvas)
    requires Sized(f, c) && Sized(f, d)
    requires forall x, y :: 0 <= x < f.width && 0 <= y < f.height ==> CellAt(f, c, x, y) == CellAt(f, d, x, y)
    ensures c == d
  {
    forall i | 0 <= i < |c.fb| ensures c.fb[i] == d.fb[i] {
      CoordinatesOf(f, i / 4);
      var x, y := i / 4 % f.width, i / 4 / f.width;
      assert CellAt(f, c, x, y) == CellAt(f, d, x, y);
    }
    forall i | 0 <= i < |c.prev| ensures c.prev[i] == d.prev[i] {
      CoordinatesOf(f, i / 3);
      var x, y := i / 3 % f.width, i / 3 / f.width;
      assert CellAt(f, c, x, y) == CellAt(f, d, x, y);
    }
  }

  lemma CoordinatesOf(f: Frame, q: nat)
    requires q < Area(f)
    ensures f.width > 0 && q % f.width < f.width && 0 <= q / f.width < f.height &&
            Linear(f, q % f.width, q / f.width) == q
  {
    assert f.width > 0;
    var y := q / f.width;
    assert q == y * f.width + q % f.width;
    assert y >= f.height ==> y * f.width >= f.height * f.width;
  }
}
