/** Where the tiles of a frame lie: sizes, the grid, and the order of blocks without a position. */
module Placement {
  import opened Bits
  import opened Frames
  import opened FrameCoding
  import opened Transmission
  import Decoding
  import Raster

  /* Sizes. */

  /** The least multiple of unit that is not below length. */
  lemma PadIsLeast(length: nat, unit: nat)
    requires unit == 8 || unit == 16
    ensures var p := Raster.Pad(length, unit); p % unit == 0 && length <= p < length + unit
  {
  }

  /** What a header makes of a frame: a source without size has the size of the picture, and its height is padded
      to 16 rows in 4:2:0 and to 8 otherwise. */
  lemma FrameExactly(h: Header)
    ensures var f := FrameOf(h);
            && f.width == h.dstX && f.height == h.dstY && f.mode == h.mode
            && f.realWidth == (if h.srcX == 0 then h.dstX else h.srcX)
            && f.realHeight == (if h.srcY == 0 then h.dstY else h.srcY)
            && f.padHeight % (if h.mode == 1 then 16 else 8) == 0
            && f.realHeight <= f.padHeight < f.realHeight + if h.mode == 1 then 16 else 8
  {
    hide Raster.Pad;
    PadIsLeast(FrameOf(h).realHeight, if h.mode == 1 then 16 else 8);
  }

  /** The grid has just the tiles that the picture needs: of 8x8 pixels in 4:4:4, of 16x16 in 4:2:0. */
  lemma GridExactly(length: nat)
    requires length > 0
    ensures GridTiles(length, 0) == (length + 7) / 8
    ensures GridTiles(length, 1) == (length + 15) / 16
  {
  }

  /** Width and height of a tile. */
  function Unit(mode: nat): (u: nat)
    ensures u == 8 || u == 16
  {
    if mode == 0 then 8 else 16
  }

  function Columns(h: Header): nat { (h.dstX + Unit(h.mode) - 1) / Unit(h.mode) }
  function Rows(h: Header): nat { (h.dstY + Unit(h.mode) - 1) / Unit(h.mode) }

  ghost predicate Ordinary(h: Header) { h.dstX > 0 && h.dstY > 0 && h.mode <= 1 }

  lemma GridForExactly(h: Header)
    requires Ordinary(h)
    ensures GridFor(h).cols == Columns(h) > 0 && GridFor(h).rows == Rows(h) > 0
  {
    hide GridTiles;
    GridExactly(h.dstX);
    GridExactly(h.dstY);
  }

  /* Blocks without a position. */

  ghost predicate Unplaced(blocks: seq<Block>) { forall i :: 0 <= i < |blocks| ==> blocks[i].place.None? }

  lemma {:induction false} EventPlaces(g: Grid, s: Coder, blocks: seq<Block>, n: nat, i: nat)
    requires Quants(g.quant) && Codable(g, s, blocks) && Unplaced(blocks) && i < |blocks|
    requires s.at == Raster.MoveTimes(g.cols, g.rows, Raster.Place(0, 0), n)
    ensures var e := EventsFor(g, s, blocks)[i];
            Raster.Place(e.tx, e.ty) == Raster.MoveTimes(g.cols, g.rows, Raster.Place(0, 0), n + i)
    decreases i
  {
    hide Quants, ContentCodable, AfterContent, TileAfter, Raster.Move, Raster.MoveTimes;
    var b := blocks[0];
    assert b.place.None?;
    if i > 0 {
      ContentKeepsPlace(g, s.(at := s.at), b.content);
      OneMove(g.cols, g.rows, n);
      EventPlaces(g, AfterBlock(g, s, b), blocks[1..], n + 1, i - 1);
    }
  }

  lemma OneMove(cols: nat, rows: nat, n: nat)
    ensures Raster.MoveTimes(cols, rows, Raster.Place(0, 0), n + 1) ==
            Raster.Move(cols, rows, Raster.MoveTimes(cols, rows, Raster.Place(0, 0), n))
  {
  }

  lemma RasterDigits(i: nat, cols: nat, rows: nat)
    requires cols > 0 && rows > 0
    ensures cols * rows > 0 && i % (cols * rows) % cols == i % cols && i % (cols * rows) / cols == i / cols % rows
  {
    var q, r := i / cols, i % cols;
    var a, b := q / rows, q % rows;
    Raster.ProductPositive(cols, rows);
    Quotient(i, cols);
    Quotient(q, rows);
    Regroup(a, rows, cols, b, r);
    InnerSmall(b, r, cols, rows);
    DivModUnique(a, cols * rows, b * cols + r);
    DivModUnique(b, cols, r);
  }

  lemma Quotient(i: nat, m: nat)
    requires m > 0
    ensures i == i / m * m + i % m && i % m < m
  {
  }

  lemma InnerSmall(b: nat, r: nat, cols: nat, rows: nat)
    requires b < rows && r < cols
    ensures b * cols + r < cols * rows
  {
    Raster.MulLe(b + 1, rows, cols);
    assert (b + 1) * cols == b * cols + cols;
  }

  lemma Regroup(a: nat, rows: nat, cols: nat, b: nat, r: nat)
    ensures (a * rows + b) * cols + r == a * (cols * rows) + (b * cols + r)
  {
    assert (a * rows + b) * cols == a * rows * cols + b * cols;
    assert a * rows * cols == a * (cols * rows) by { assert rows * cols == cols * rows; }
  }

  /** Blocks without a position go through the grid row by row, over and over. */
  lemma UnplacedOrder(h: Header, blocks: seq<Block>, tile: seq<int>, i: nat)
    requires Ordinary(h) && Encodes(h, blocks) && Unplaced(blocks) && |tile| == 768 && i < |blocks|
    ensures var e := TilesOf(h, blocks, tile)[i];
            Columns(h) > 0 && Rows(h) > 0 && e.tx == i % Columns(h) && e.ty == i / Columns(h) % Rows(h)
  {
    GridForExactly(h);
    OrderInGrid(h, blocks, tile, i);
    hide TilesOf, Encodes, Columns, Rows, GridFor, Raster.MoveTimes;
    Raster.MovesAreRasterOrder(Columns(h), Rows(h), i);
    RasterDigits(i, Columns(h), Rows(h));
  }

  lemma OrderInGrid(h: Header, blocks: seq<Block>, tile: seq<int>, i: nat)
    requires Encodes(h, blocks) && Unplaced(blocks) && |tile| == 768 && i < |blocks|
    ensures var e, g := TilesOf(h, blocks, tile)[i], GridFor(h);
            Raster.Place(e.tx, e.ty) == Raster.MoveTimes(g.cols, g.rows, Raster.Place(0, 0), i)
  {
    hide Quants, Codable, EventsFor, GridTiles, Raster.MoveTimes, Unplaced;
    var g, s := GridFor(h), StartCoder(tile);
    BlocksIgnoreTile(g, StartCoder(Decoding.FreshTile()), s, blocks);
    StartsFirst(g.cols, g.rows);
    EventPlaces(g, s, blocks, 0, i);
  }

  lemma StartsFirst(cols: nat, rows: nat)
    ensures Raster.MoveTimes(cols, rows, Raster.Place(0, 0), 0) == Raster.Place(0, 0)
  {
  }

  /** The tile that holds a pixel. */
  function TileNumber(h: Header, x: nat, y: nat): nat { y / Unit(h.mode) * Columns(h) + x / Unit(h.mode) }

  lemma InGrid(length: nat, unit: nat, x: nat)
    requires x < length && (unit == 8 || unit == 16)
    ensures x / unit < (length + unit - 1) / unit
  {
  }

  /** The first Columns times Rows blocks without a position cover every pixel of the picture, each exactly once. */
  lemma PictureCoveredOnce(h: Header, blocks: seq<Block>, tile: seq<int>, x: nat, y: nat, i: nat)
    requires Ordinary(h) && Encodes(h, blocks) && Unplaced(blocks) && |tile| == 768
    requires Columns(h) * Rows(h) <= |blocks| && x < h.dstX && y < h.dstY && i < Columns(h) * Rows(h)
    ensures TileNumber(h, x, y) < Columns(h) * Rows(h)
    ensures var e := TilesOf(h, blocks, tile)[i];
            e.tx == x / Unit(h.mode) && e.ty == y / Unit(h.mode) <==> i == TileNumber(h, x, y)
  {
    hide Encodes, TilesOf, Unplaced, Columns, Rows, Unit;
    UnplacedOrder(h, blocks, tile, i);
    PixelInGrid(h, x, y);
    NumberOfPlace(i, Columns(h), Rows(h), x / Unit(h.mode), y / Unit(h.mode));
  }

  lemma NumberOfPlace(i: nat, cols: nat, rows: nat, tx: nat, ty: nat)
    requires tx < cols && ty < rows && i < cols * rows
    ensures ty * cols + tx < cols * rows
    ensures i % cols == tx && i / cols % rows == ty <==> i == ty * cols + tx
  {
    InnerSmall(ty, tx, cols, rows);
    Raster.Split(i, cols, rows);
    SmallRow(i / cols, rows);
    DivModUnique(ty, cols, tx);
    SmallRow(ty, rows);
  }

  lemma PixelInGrid(h: Header, x: nat, y: nat)
    requires x < h.dstX && y < h.dstY
    ensures x / Unit(h.mode) < Columns(h) && y / Unit(h.mode) < Rows(h)
  {
    InGrid(h.dstX, Unit(h.mode), x);
    InGrid(h.dstY, Unit(h.mode), y);
  }

  lemma SmallRow(q: nat, rows: nat)
    requires q < rows
    ensures q % rows == q
  {
  }
}
