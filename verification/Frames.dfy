/** A compressed frame as a list of decoded tiles: what the block loop reads from header and data. */
module Frames {
  import opened Bits
  import opened BitReading
  import opened Huffman
  import opened Entropy
  import opened Idct
  import opened Drawing
  import Raster

  /** The header fields the decoder uses; quant holds the four scaled quantisation tables they select. */
  datatype Header = Header(srcX: nat, srcY: nat, dstX: nat, dstY: nat, mode: nat, compressSize: nat,
                           quant: seq<seq<int>>)

  datatype Coders = Coders(dcLuma: Table, acLuma: Table, dcChroma: Table, acChroma: Table)

  ghost predicate Coding(k: Coders) {
    Standard(Luma, k.dcLuma, k.acLuma) && Standard(Chroma, k.dcChroma, k.acChroma)
  }

  ghost predicate Quants(q: seq<seq<int>>) { |q| == 4 && forall i :: 0 <= i < 4 ==> |q[i]| == 64 }

  /** Everything about a frame that the block loop does not change. */
  datatype Context = Context(frame: Frame, cols: nat, rows: nat, quant: seq<seq<int>>, coders: Coders,
                             buf: seq<Word>, words: nat)

  ghost predicate Set(x: Context) { Coding(x.coders) && Quants(x.quant) && |x.buf| >= 3 }

  function SourceSize(src: nat, dst: nat): nat { if src <= 0 then dst else src }

  function FrameOf(h: Header): Frame {
    var w, t := SourceSize(h.srcX, h.dstX), SourceSize(h.srcY, h.dstY);
    Frame(h.dstX, h.dstY, w, t, Raster.Pad(t, if h.mode == 1 then 16 else 8), h.mode)
  }

  /** Tiles in one direction: the destination padded to the tile size, counted in tiles of 8 or 16. */
  function GridTiles(length: nat, mode: nat): nat {
    Raster.Tiles(Raster.Pad(length, if mode == 1 then 16 else 8), if mode == 0 then 8 else 16)
  }

  function ContextOf(h: Header, k: Coders, data: seq<Byte>): Context {
    Context(FrameOf(h), GridTiles(h.dstX, h.mode), GridTiles(h.dstY, h.mode), h.quant, k, Words(data),
      h.compressSize / 4)
  }

  /** What the block loop carries from block to block. */
  datatype Cursor = Cursor(pos: nat, dcY: int, dcCb: int, dcCr: int, at: Raster.Place,
                           vqColor: seq<nat>, vqIndex: seq<nat>, tile: seq<int>)

  ghost predicate Fit(c: Cursor) {
    |c.vqColor| == 4 && |c.vqIndex| == 4 && |c.tile| == 768 && forall i :: 0 <= i < 4 ==> c.vqIndex[i] < 4
  }

  function Start(tile: seq<int>): Cursor {
    Cursor(0, 0, 0, 0, Raster.Place(0, 0), [0x008080, 0xFF8080, 0x808080, 0xC08080], [0, 1, 2, 3], tile)
  }

  /* JPEG blocks. */

  datatype Plane = PlaneY | PlaneCb | PlaneCr

  function Splice(tile: seq<int>, offset: nat, block: seq<int>): (r: seq<int>)
    requires |block| == 64 && offset + 64 <= |tile|
    ensures |r| == |tile|
    ensures forall i :: 0 <= i < |tile| ==> r[i] == if offset <= i < offset + 64 then block[i - offset] else tile[i]
  {
    tile[..offset] + block + tile[offset + 64..]
  }

  function Predictor(c: Cursor, plane: Plane): int {
    match plane case PlaneY => c.dcY case PlaneCb => c.dcCb case PlaneCr => c.dcCr
  }

  function WithPredictor(c: Cursor, plane: Plane, dc: int): Cursor {
    match plane case PlaneY => c.(dcY := dc) case PlaneCb => c.(dcCb := dc) case PlaneCr => c.(dcCr := dc)
  }

  function UnitOf(x: Context, plane: Plane, p: nat, pred: int): (u: Unit)
    requires Set(x)
    ensures |u.coeff| == 64 && u.pos > p
  {
    if plane == PlaneY then DecodeUnit(x.coders.dcLuma, x.coders.acLuma, x.buf, p, pred)
    else DecodeUnit(x.coders.dcChroma, x.coders.acChroma, x.buf, p, pred)
  }

  /** Decode one data unit and transform it into the tile. */
  function DecodePlane(x: Context, c: Cursor, plane: Plane, offset: nat, q: nat): (r: Cursor)
    requires Set(x) && Fit(c) && offset + 64 <= 768 && q < 4
    ensures Fit(r) && r.pos > c.pos
  {
    var u := UnitOf(x, plane, c.pos, Predictor(c, plane));
    WithPredictor(c, plane, u.dc).(pos := u.pos, tile := Splice(c.tile, offset, Samples(u.coeff, x.quant[q])))
  }

  function DecodeThree(x: Context, c: Cursor, q: nat): (r: Cursor)
    requires Set(x) && Fit(c) && q < 3
    ensures Fit(r) && r.pos > c.pos
  {
    var c1 := DecodePlane(x, c, PlaneY, 0, q);
    var c2 := DecodePlane(x, c1, PlaneCb, 64, q + 1);
    DecodePlane(x, c2, PlaneCr, 128, q + 1)
  }

  function DecodeSix(x: Context, c: Cursor, q: nat): (r: Cursor)
    requires Set(x) && Fit(c) && q < 3
    ensures Fit(r) && r.pos > c.pos
  {
    var c1 := DecodePlane(x, c, PlaneY, 0, q);
    var c2 := DecodePlane(x, c1, PlaneY, 64, q);
    var c3 := DecodePlane(x, c2, PlaneY, 128, q);
    var c4 := DecodePlane(x, c3, PlaneY, 192, q);
    var c5 := DecodePlane(x, c4, PlaneCb, 256, q + 1);
    DecodePlane(x, c5, PlaneCr, 320, q + 1)
  }

  /* VQ blocks. */

  /** Read one colour selection; a set flag replaces the cached colour. */
  function VqOne(x: Context, c: Cursor, i: nat): (r: Cursor)
    requires Set(x) && Fit(c) && i < 4
    ensures Fit(r) && r.pos >= c.pos
  {
    var index := TwoBits(x.buf, c.pos + 1);
    var c1 := c.(vqIndex := c.vqIndex[i := index]);
    if !StreamBit(x.buf, c.pos) then c1.(pos := c.pos + 3)
    else c1.(pos := c.pos + 27, vqColor := c.vqColor[index := Val(Window(x.buf, c.pos + 3, 24))])
  }

  /** The selections i .. n - 1 of a block. */
  function VqHeader(x: Context, c: Cursor, i: nat, n: nat): (r: Cursor)
    requires Set(x) && Fit(c) && i <= n <= 4
    ensures Fit(r) && r.pos >= c.pos
    decreases n - i
  {
    if i == n then c else VqHeader(x, VqOne(x, c, i), i + 1, n)
  }

  function TwoBits(buf: seq<Word>, p: nat): (v: nat)
    requires buf != []
    ensures v < 4
  {
    FewBits(buf, p, 2);
    Val(Window(buf, p, 2))
  }

  lemma FewBits(buf: seq<Word>, p: nat, n: nat)
    requires buf != [] && n <= 4
    ensures Val(Window(buf, p, n)) < Pow2(n) <= 16
    ensures n <= 2 ==> Val(Window(buf, p, n)) < 4
    ensures n == 4 ==> Pow2(n) == 16
  {
    ValBound(Window(buf, p, n));
    PowersRight(n);
  }

  /** The bitmap value of pixel n. */
  function Selector(buf: seq<Word>, p: nat, bits: nat): (v: nat)
    requires buf != [] && bits <= 2
    ensures v < 4
  {
    FewBits(buf, p, bits);
    Val(Window(buf, p, bits))
  }

  function Selected(x: Context, c: Cursor, bits: nat, n: nat): nat
    requires Set(x) && Fit(c) && bits <= 2
  {
    hide Coding, Selector;
    c.vqColor[c.vqIndex[Selector(x.buf, c.pos + bits * n, bits)]]
  }

  /** The plane value of tile entry i: luma, then Cb, then Cr of the colours selected by the bitmap. */
  function VqEntry(x: Context, c: Cursor, bits: nat, i: nat): int
    requires Set(x) && Fit(c) && bits <= 2 && i < 192
  {
    var color := Selected(x, c, bits, i % 64);
    if i < 64 then color / 65536 % 256 else if i < 128 then color / 256 % 256 else color % 256
  }

  function VqTile(x: Context, c: Cursor, bits: nat): (r: Cursor)
    requires Set(x) && Fit(c) && bits <= 2
    ensures Fit(r) && r.pos >= c.pos
  {
    c.(pos := c.pos + 64 * bits,
       tile := seq(768, i requires 0 <= i < 768 => if i < 192 then VqEntry(x, c, bits, i) else c.tile[i]))
  }

  /* One block. */

  datatype Outcome = Exhausted | FrameEnd | Advance(code: nat) | OutOfFuel

  datatype Stepped = Done(outcome: Outcome) | Next(event: Event, cursor: Cursor)

  function BlockType(buf: seq<Word>, p: nat): (t: nat)
    requires buf != []
    ensures t < 16
  {
    FewBits(buf, p, 4);
    Val(Window(buf, p, 4))
  }

  /** Skip blocks carry their tile position in two bytes after the type. */
  function Positioned(x: Context, c: Cursor): (r: Cursor)
    requires Set(x) && Fit(c)
    ensures Fit(r) && r.pos >= c.pos + 4
  {
    if BlockType(x.buf, c.pos) < 8 then c.(pos := c.pos + 4)
    else c.(pos := c.pos + 20,
            at := Raster.Place(Val(Window(x.buf, c.pos + 4, 8)), Val(Window(x.buf, c.pos + 12, 8))))
  }

  /** The tile of a block whose type, modulo 8, is t. */
  function Body(x: Context, c: Cursor, t: nat): (r: Cursor)
    requires Set(x) && Fit(c) && t < 8 && t != 1 && t != 3
    ensures Fit(r) && r.pos >= c.pos
  {
    if t == 0 || t == 4 then
      var q := if t == 0 then 0 else 2;
      if x.frame.mode == 1 then DecodeSix(x, c, q) else DecodeThree(x, c, q)
    else if t == 2 then DecodeThree(x, c, 2)
    else if t == 5 then VqTile(x, VqHeader(x, c, 0, 1), 0)
    else if t == 6 then VqTile(x, VqHeader(x, c, 0, 2), 1)
    else VqTile(x, VqHeader(x, c, 0, 4), 2)
  }

  function EventOf(x: Context, c: Cursor, t: nat): (e: Event)
    requires Fit(c)
    ensures Proper(x.frame, e)
  {
    Event(if t == 2 then Second else First, c.at.tx, c.at.ty, c.tile[..TileSize(x.frame.mode)])
  }

  function StepBlock(x: Context, c: Cursor): (r: Stepped)
    requires Set(x) && Fit(c)
    ensures match r
            case Done(o) => o != OutOfFuel
            case Next(e, d) => Fit(d) && d.pos >= c.pos + 4 && Proper(x.frame, e)
  {
    hide Body, Positioned, EventOf, BlockType, At, Coding;
    var t := BlockType(x.buf, c.pos);
    if At(x.buf, c.pos).index >= x.words then Done(Exhausted)
    else if t == 1 || t == 3 || t == 11 then Done(Advance(t))
    else if t == 9 then Done(FrameEnd)
    else
      var c1 := Body(x, Positioned(x, c), t % 8);
      Next(EventOf(x, c1, t % 8), c1.(at := Raster.Move(x.cols, x.rows, c1.at)))
  }

  /** The block loop, for at most fuel blocks. */
  datatype Ran = Ran(events: seq<Event>, cursor: Cursor, outcome: Outcome)

  function RunBlocks(x: Context, c: Cursor, fuel: nat): (r: Ran)
    requires Set(x) && Fit(c)
    ensures Fit(r.cursor) && AllProper(x.frame, r.events)
    decreases fuel
  {
    hide StepBlock;
    match StepBlock(x, c)
    case Done(o) => Ran([], c, o)
    case Next(e, d) =>
      if fuel == 0 then Ran([], c, OutOfFuel)
      else
        var r := RunBlocks(x, d, fuel - 1);
        r.(events := [e] + r.events)
  }
}
