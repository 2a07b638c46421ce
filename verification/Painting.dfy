/** The drawing loops of decompress.go, in place on the framebuffer and the reference buffer. */
module Painting {
  import opened Bits
  import opened Colour
  import opened Drawing
  import opened Undo

  /** The tile buffer holds the samples of event e. */
  ghost predicate Shows(f: Frame, e: Event, tile: array<int>)
    reads tile
  {
    tile.Length == 768 && e.tile == tile[..TileSize(f.mode)]
  }

  method IsNeutralBlock(f: Frame, tile: array<int>, ghost e: Event) returns (neutral: bool)
    requires Shows(f, e, tile)
    ensures neutral == Neutral(f, e)
  {
    var count := if f.mode == 1 then 384 else 192;
    for i := 0 to count
      invariant forall k :: 0 <= k < i ==> e.tile[k] == 128
    {
      if tile[i] != 128 { return false; }
    }
    return true;
  }

  /** Three guarded stores. */
  method StoreSample(prev: array<int>, q: nat, s: Sample)
    modifies prev
    ensures prev[..] == PutSample(old(prev[..]), q, s)
  {
    var idx := 3 * q;
    if idx + 2 < prev.Length {
      prev[idx], prev[idx + 1], prev[idx + 2] := s.y, s.cb, s.cr;
    }
  }

  method UpdatePreviousYUV(f: Frame, tx: nat, ty: nat, tile: array<int>, prev: array<int>, ghost e: Event,
                           ghost fb: seq<Byte>)
    requires f.mode == 0 && Shows(f, e, tile) && e.tx == tx && e.ty == ty && tile != prev
    modifies prev
    ensures Canvas(fb, prev[..]) == Apply(f, Canvas(fb, old(prev[..])), Remember, e, 64)
  {
    hide PutSample, PutPixel, Place;
    ghost var c := Canvas(fb, prev[..]);
    for n := 0 to 64
      invariant Canvas(fb, prev[..]) == Apply(f, c, Remember, e, n)
    {
      var px, py := 8 * tx + n % 8, 8 * ty + n / 8;
      if py < f.realHeight && px < f.realWidth {
        StoreSample(prev, Place(f.realWidth, px, py), Sample(tile[n], tile[64 + n], tile[128 + n]));
      }
    }
  }

  method ConvertNarrow(f: Frame, tx: nat, ty: nat, tile: array<int>, fb: array<Byte>, prev: array<int>,
                       t: ColourTables, ghost e: Event)
    requires f.mode == 0 && Shows(f, e, tile) && e.tx == tx && e.ty == ty && tile != prev && Initialised(t)
    requires fb as object != prev && fb as object != tile
    modifies fb, prev
    ensures Canvas(fb[..], prev[..]) == Apply(f, Canvas(old(fb[..]), old(prev[..])), Draw, e, 64)
  {
    hide PutSample, PutPixel, Place, Initialised, Rgb;
    ghost var c := Canvas(fb[..], prev[..]);
    for n := 0 to 64
      invariant Canvas(fb[..], prev[..]) == Apply(f, c, Draw, e, n)
    {
      var px, py := 8 * tx + n % 8, 8 * ty + n / 8;
      if py < f.height && px < f.width {
        var s := Sample(tile[n], tile[64 + n], tile[128 + n]);
        StoreSample(prev, Place(f.realWidth, px, py), s);
        var p := ConvertSample(t, s);
        StorePixel(fb, Place(f.width, px, py), p);
      }
    }
  }

  method ConvertPass2(f: Frame, tx: nat, ty: nat, tile: array<int>, fb: array<Byte>, prev: array<int>,
                      t: ColourTables, ghost e: Event)
    requires f.mode == 0 && Shows(f, e, tile) && e.tx == tx && e.ty == ty && tile != prev && Initialised(t)
    requires fb as object != prev && fb as object != tile
    modifies fb
    ensures Canvas(fb[..], prev[..]) == Apply(f, Canvas(old(fb[..]), old(prev[..])), Difference, e, 64)
  {
    hide PutSample, PutPixel, Place, Initialised, Rgb;
    ghost var c := Canvas(fb[..], prev[..]);
    for n := 0 to 64
      invariant Canvas(fb[..], prev[..]) == Apply(f, c, Difference, e, n)
    {
      var px, py := 8 * tx + n % 8, 8 * ty + n / 8;
      if py < f.height && px < f.width {
        var yuvIdx := 3 * Place(f.realWidth, px, py);
        var s := Sample(0, 0, 0);
        if yuvIdx + 2 < prev.Length {
          s := Sample(prev[yuvIdx] + (tile[n] - 128), prev[yuvIdx + 1] + (tile[64 + n] - 128),
                      prev[yuvIdx + 2] + (tile[128 + n] - 128));
        }
        var p := ConvertSample(t, s);
        StorePixel(fb, Place(f.width, px, py), p);
      }
    }
  }

  /** The 16x16 case: luma from four blocks, each read in order, chroma shared by 2x2 pixels. */
  method ConvertWide(f: Frame, tx: nat, ty: nat, tile: array<int>, fb: array<Byte>, t: ColourTables, ghost e: Event,
                     ghost prev: seq<int>)
    requires f.mode != 0 && Shows(f, e, tile) && e.tx == tx && e.ty == ty && Initialised(t)
    requires fb as object != tile
    modifies fb
    ensures Canvas(fb[..], prev) == Apply(f, Canvas(old(fb[..]), prev), DrawWide, e, Count(f, DrawWide, e))
  {
    hide Apply, Initialised;
    ghost var c := Canvas(fb[..], prev);
    assert Apply(f, c, DrawWide, e, 0) == c by { WideStart(f, c, e); }
    var maxRow := if f.padHeight == 608 && ty == 37 then 8 else 16;
    var yBlockIdx := [0, 0, 0, 0];
    for row := 0 to maxRow
      invariant Canvas(fb[..], prev) == Apply(f, c, DrawWide, e, 16 * row)
      invariant |yBlockIdx| == 4
      invariant forall b :: 0 <= b < 4 ==> yBlockIdx[b] == BlockReads(row, b)
    {
      yBlockIdx := ConvertWideRow(f, tx, ty, row, tile, fb, t, yBlockIdx, e, prev, c);
    }
  }

  lemma WideStart(f: Frame, c: Canvas, e: Event)
    requires Ready(f, DrawWide, e)
    ensures Apply(f, c, DrawWide, e, 0) == c
  {
  }

  method ConvertWideRow(f: Frame, tx: nat, ty: nat, row: nat, tile: array<int>, fb: array<Byte>, t: ColourTables,
                        idx: seq<int>,
                        ghost e: Event, ghost prev: seq<int>, ghost c: Canvas) returns (next: seq<int>)
    requires f.mode != 0 && Shows(f, e, tile) && e.tx == tx && e.ty == ty && Initialised(t) && row < WideRows(f, ty)
    requires fb as object != tile
    requires Canvas(fb[..], prev) == Apply(f, c, DrawWide, e, 16 * row)
    requires |idx| == 4 && forall b :: 0 <= b < 4 ==> idx[b] == BlockReads(row, b)
    modifies fb
    ensures Canvas(fb[..], prev) == Apply(f, c, DrawWide, e, 16 * row + 16)
    ensures |next| == 4 && forall b :: 0 <= b < 4 ==> next[b] == BlockReads(row + 1, b)
  {
    hide PutPixel, Place, Initialised, Rgb, Apply, BlockReads, ColumnReads;
    next := idx;
    ReadsEnds(row);
    var blockRow, chromaRow := row / 8 * 2, row / 2 * 8;
    for col := 0 to 16
      invariant Canvas(fb[..], prev) == Apply(f, c, DrawWide, e, 16 * row + col)
      invariant |next| == 4
      invariant forall b :: 0 <= b < 4 ==> next[b] == BlockReads(row, b) + ColumnReads(row, col, b)
    {
      var blockIdx := blockRow + col / 8;
      var yIdx := next[blockIdx];
      ReadsStep(row, col);
      next := next[blockIdx := yIdx + 1];
      WideStep(f, c, e, row, col);
      var px, py := 16 * tx + col, 16 * ty + row;
      if py < f.height && px < f.width {
        var chromaIdx := chromaRow + col / 2;
        var p := ConvertSample(t, Sample(tile[64 * blockIdx + yIdx], tile[256 + chromaIdx], tile[320 + chromaIdx]));
        StorePixel(fb, Place(f.width, px, py), p);
      }
    }
  }

  /** How many samples of luma block b rows 0 .. row - 1 have read, and columns 0 .. col - 1 of a row. */
  ghost function BlockReads(row: nat, b: nat): int {
    if b < 2 then (if row < 8 then 8 * row else 64) else (if row < 8 then 0 else 8 * (row - 8))
  }

  ghost function ColumnReads(row: nat, col: nat, b: nat): int {
    if b / 2 != row / 8 then 0
    else if b % 2 == 0 then (if col < 8 then col else 8)
    else (if col < 8 then 0 else col - 8)
  }

  lemma ReadsStep(row: nat, col: nat)
    requires row < 16 && col < 16
    ensures var k := row / 8 * 2 + col / 8;
            && BlockReads(row, k) + ColumnReads(row, col, k) == 8 * (row % 8) + col % 8
            && (forall b :: 0 <= b < 4 ==>
                  ColumnReads(row, col + 1, b) == ColumnReads(row, col, b) + (if b == k then 1 else 0))
  {
  }

  lemma ReadsEnds(row: nat)
    requires row < 16
    ensures forall b :: 0 <= b < 4 ==> ColumnReads(row, 0, b) == 0
    ensures forall b :: 0 <= b < 4 ==> BlockReads(row + 1, b) == BlockReads(row, b) + ColumnReads(row, 16, b)
  {
  }

  lemma WideStep(f: Frame, c: Canvas, e: Event, row: nat, col: nat)
    requires Ready(f, DrawWide, e) && col < 16 && 16 * row + col < Count(f, DrawWide, e)
    ensures var n := 16 * row + col;
            var before := Apply(f, c, DrawWide, e, n);
            var chroma := 8 * (row / 2) + col / 2;
            var s := Sample(e.tile[64 * (row / 8 * 2 + col / 8) + 8 * (row % 8) + col % 8], e.tile[256 + chroma],
              e.tile[320 + chroma]);
            var px, py := 16 * e.tx + col, 16 * e.ty + row;
            Apply(f, c, DrawWide, e, n + 1) ==
            if py < f.height && px < f.width then before.(fb := PutPixel(before.fb, Place(f.width, px, py), Rgb(s)))
              else before
  {
    hide Rgb, PutPixel, Place;
    assert (16 * row + col) / 16 == row && (16 * row + col) % 16 == col;
  }
}
