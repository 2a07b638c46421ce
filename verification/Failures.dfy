/** Headers and byte strings on which the decoder does not do what one might expect of it. */
module Failures {
  import opened Wrappers
  import opened Bits
  import opened Tables
  import opened Entropy
  import opened Idct
  import opened Colour
  import opened Drawing
  import opened History
  import opened Undo
  import opened Frames
  import opened FrameCoding
  import opened Decoding
  import opened Transmission
  import Raster

  /** A 4:4:4 picture of one row of tiles, with any quantisation tables. */
  function Small(width: nat, quant: seq<seq<int>>, size: nat): Header { Header(width, 8, width, 8, 0, size, quant) }

  /* Blocks of one colour. */

  function Fill(at: Raster.Place, pick: Pick): Block { Block(Some(at), Vq([pick], seq(64, _ => 0))) }

  function ColourTile(color: nat): (t: seq<int>)
    ensures |t| == 192
  {
    seq(192, i => if i < 64 then color / 65536 % 256 else if i < 128 then color / 256 % 256 else color % 256)
  }

  ghost predicate Ready444(g: Grid, s: Coder) { Quants(g.quant) && g.mode == 0 && |s.tile| == 768 && |s.colors| == 4 }

  /** The colour cache after one pick. */
  function Repainted(colors: seq<nat>, pick: Pick): seq<nat>
    requires |colors| == 4 && pick.index < 4
  {
    if pick.colour.Some? then colors[pick.index := pick.colour.value] else colors
  }

  lemma FillContent(g: Grid, s: Coder, pick: Pick)
    requires Ready444(g, s) && PickCodable(pick)
    ensures var content := Vq([pick], seq(64, _ => 0));
            && ContentCodable(0, s, content) && Recoloured(s.colors, [pick]) == Repainted(s.colors, pick)
            && ContentPlanes(g, s, content) == ColourTile(Repainted(s.colors, pick)[pick.index])
            && |ContentBits(0, s, content)| == if pick.colour.Some? then 27 else 3
  {
    hide BitsOf;
    var picks, content := [pick], Vq([pick], seq(64, _ => 0));
    assert picks[1..] == [];
    var colors := Repainted(s.colors, pick);
    assert Recoloured(colors, []) == colors && Recoloured(s.colors, picks) == colors;
    assert PicksBits([]) == [] && PicksBits(picks) == PickBits(pick) + [];
    assert ContentPlanes(g, s, content) == ColourTile(colors[pick.index]);
  }

  lemma FillBlock(g: Grid, s: Coder, at: Raster.Place, pick: Pick)
    requires Ready444(g, s) && at.tx < 256 && at.ty < 256 && PickCodable(pick)
    ensures var colors, b := Repainted(s.colors, pick), Fill(at, pick);
            && BlockCodable(0, s, b) && EventFor(g, s, b) == Event(First, at.tx, at.ty, ColourTile(colors[pick.index]))
            && Ready444(g, AfterBlock(g, s, b)) && AfterBlock(g, s, b).colors == colors
            && |BlockBits(0, s, b)| == if pick.colour.Some? then 47 else 23
  {
    hide BitsOf, Raster.Move, ContentBits, ContentPlanes, ContentCodable, Recoloured, ColourTile, Quants;
    var t, b := s.(at := at), Fill(at, pick);
    FillContent(g, t, pick);
    var tile := TileAfter(g, t, b.content);
    assert tile[..192] == ContentPlanes(g, t, b.content);
  }

  /* An aborted frame that is not rolled back. */

  const CORNER := Raster.Place(0, 0)
  const WHITE := Pick(1, None)

  /** White, from the initial colour cache, twice in the first tile. */
  function Twice(): seq<Block> { [Fill(CORNER, WHITE), Fill(CORNER, WHITE)] }

  lemma TwiceEncodes(quant: seq<seq<int>>, size: nat)
    requires Quants(quant)
    ensures var h := Small(8, quant, size);
            Encodes(h, Twice()) && TilesOf(h, Twice(), FreshTile()) == [WhiteTile(0), WhiteTile(0)]
  {
    hide BlockBits, BlockCodable, AfterBlock, EventFor, ColourTile, Quants, Small, Fill, GridFor;
    var h := Small(8, quant, size);
    SmallGrid(8, quant, size);
    var g, s, b := GridFor(h), StartCoder(FreshTile()), Fill(CORNER, WHITE);
    FillBlock(g, s, CORNER, WHITE);
    var t := AfterBlock(g, s, b);
    FillBlock(g, t, CORNER, WHITE);
    TwoBlocks(g, s, b, b);
  }

  function WhiteTile(tx: nat): Event { Event(First, tx, 0, ColourTile(0xFF8080)) }

  lemma SmallGrid(width: nat, quant: seq<seq<int>>, size: nat)
    ensures var h := Small(width, quant, size); h.quant == quant && GridFor(h).mode == 0 && GridFor(h).quant == quant
  {
    hide GridTiles;
  }

  lemma TwoBlocks(g: Grid, s: Coder, a: Block, b: Block)
    requires Quants(g.quant) && BlockCodable(g.mode, s, a) && BlockCodable(g.mode, AfterBlock(g, s, a), b)
    ensures Codable(g, s, [a, b])
    ensures EventsFor(g, s, [a, b]) == [EventFor(g, s, a), EventFor(g, AfterBlock(g, s, a), b)]
  {
    hide BlockBits, BlockCodable, AfterBlock, EventFor, Quants;
    var t := AfterBlock(g, s, a);
    assert [a, b][1..] == [b] && [b][1..] == [];
    assert Codable(g, AfterBlock(g, t, b), []);
    assert Codable(g, t, [b]);
    assert EventsFor(g, t, [b]) == [EventFor(g, t, b)] + EventsFor(g, AfterBlock(g, t, b), []);
  }

  lemma SmallFrame(width: nat, quant: seq<seq<int>>, size: nat)
    requires width % 8 == 0
    ensures var h := Small(width, quant, size);
            FrameOf(h) == Frame(width, 8, width, 8, 8, 0) && h.compressSize == size && h.dstX == width && h.dstY == 8
  {
  }

  /** The announced size is not part of what is encoded. */
  lemma SizeIgnored(width: nat, quant: seq<seq<int>>, size: nat, blocks: seq<Block>, mark: nat)
    requires Encodes(Small(width, quant, 0), blocks)
    ensures Encodes(Small(width, quant, size), blocks)
    ensures Encoded(Small(width, quant, size), blocks, mark) == Encoded(Small(width, quant, 0), blocks, mark)
  {
    hide Codable, FrameBits, Pack, GridTiles, Quants;
    assert GridFor(Small(width, quant, size)) == GridFor(Small(width, quant, 0));
  }

  lemma SmallDirect(width: nat, quant: seq<seq<int>>, k: Coders, blocks: seq<Block>, mark: nat, size: nat)
    requires Coding(k) && width > 0 && Encodes(Small(width, quant, size), blocks)
    ensures var h := Small(width, quant, size); Direct(h, k, Encoded(h, blocks, mark))
  {
    hide Coding, Encoded, BitReading.Words, Codable;
    EncodedLong(Small(width, quant, size), blocks, mark);
  }

  lemma WhiteShows(f: Frame)
    requires f.mode == 0
    ensures Proper(f, WhiteTile(0)) && !Neutral(f, WhiteTile(0))
  {
    assert WhiteTile(0).tile[0] == 255;
  }

  /** For every advance code and all quantisation tables, there are a byte string and an earlier picture of the
      right size on which decoding fails with that code and yet changes the picture. */
  lemma AbortChangesPicture(k: Coders, quant: seq<seq<int>>, mark: nat, fuel: nat)
    returns (h: Header, data: seq<Byte>, s: State)
    requires Coding(k) && Quants(quant) && Closing(mark) && mark != 9 && fuel >= 2
    ensures h.quant == quant && Legal(h, k) && Matching(s, h)
    ensures var (r, result) := Decode(s, h, k, data, fuel); result == AdvanceBlock(mark) && r.canvas.fb != s.canvas.fb
  {
    hide Coding, Encodes, Encoded, Small, Twice, TilesOf, Decode, Direct, FrameOf, Quants, ColourTile, RollbackSafe;
    TwiceEncodes(quant, 0);
    data := Encoded(Small(8, quant, 0), Twice(), mark);
    h := Small(8, quant, |data|);
    TwiceEncodes(quant, |data|);
    SizeIgnored(8, quant, |data|, Twice(), mark);
    SmallDirect(8, quant, k, Twice(), mark, |data|);
    SmallFrame(8, quant, |data|);
    SmallGrid(8, quant, |data|);
    WhiteShows(FrameOf(h));
    RollbackFails(FrameOf(h), WhiteTile(0));
    assert |Twice()| == 2 by { TwiceLength(); }
    EncodedAbortExactly(h, k, Twice(), mark, fuel);
    s :| Matching(s, h) && Decode(s, h, k, data, fuel).0.canvas.fb != s.canvas.fb;
    assert Legal(h, k) by { DirectIsLegal(h, k, data); }
  }

  lemma TwiceLength()
    ensures |Twice()| == 2
  {
  }

  lemma DirectIsLegal(h: Header, k: Coders, data: seq<Byte>)
    requires Direct(h, k, data)
    ensures Legal(h, k)
  {
  }

  /* JPEG blocks of DC coefficients alone. */

  function Flat(kind: Kind, a: int, b: int, c: int): Block {
    Block(Some(CORNER), Jpeg(kind, [FirstCoefficient(a), FirstCoefficient(b), FirstCoefficient(c)]))
  }

  /** The sample that a DC coefficient becomes. */
  function Level(quant: seq<seq<int>>, q: nat, dc: int): int
    requires Quants(quant) && q < 4
  {
    Limit(Dequantize(dc, quant[q][0]))
  }

  function ThreeTile(y: int, cb: int, cr: int): (t: seq<int>)
    ensures |t| == 192
  {
    seq(192, i => if i < 64 then y else if i < 128 then cb else cr)
  }

  ghost predicate FlatUnit(dc: int) { UnitCodable(FirstCoefficient(dc), 0) }

  lemma FlatCodable(dc: int)
    requires Category(dc) <= 11 && -32768 <= dc < 32768
    ensures FlatUnit(dc)
  {
    var u := FirstCoefficient(dc);
    forall i | 1 <= i < 64 ensures Category(Scanned(u)[i]) <= 10 {
      ScanOrdersInvert(i);
      ScanOrdersInvert(0);
      assert Scanned(u)[i] == 0;
    }
  }

  lemma FlatSamples(quant: seq<seq<int>>, q: nat, dc: int)
    requires Quants(quant) && q < 4
    ensures Samples(FirstCoefficient(dc), quant[q]) == seq(64, _ => Level(quant, q, dc))
  {
    hide Samples, Limit, Dequantize;
    DcOnlyIsConstant(FirstCoefficient(dc), quant[q]);
  }

  lemma FlatUnits(s: Coder, slots: seq<Slot>, a: int, b: int, c: int)
    requires s.dcY == s.dcCb == s.dcCr == 0
    requires FlatUnit(a) && FlatUnit(b) && FlatUnit(c)
    requires |slots| == 3 && slots[0].plane == PlaneY && slots[1].plane == PlaneCb && slots[2].plane == PlaneCr
    ensures var units := [FirstCoefficient(a), FirstCoefficient(b), FirstCoefficient(c)];
            && UnitsCodable(s, slots, units)
            && AfterUnits(s, slots, units).colors == s.colors && AfterUnits(s, slots, units).at == s.at
  {
    hide UnitCodable;
    var units := [FirstCoefficient(a), FirstCoefficient(b), FirstCoefficient(c)];
    var s1 := WithDc(s, PlaneY, a);
    var s2 := WithDc(s1, PlaneCb, b);
    var r1, u1 := slots[1..], units[1..];
    var r2, u2 := r1[1..], u1[1..];
    assert r1[0] == slots[1] && r2[0] == slots[2] && u1[0] == units[1] && u2[0] == units[2];
    assert r2[1..] == [] && u2[1..] == [];
    assert UnitsCodable(WithDc(s2, PlaneCr, c), [], []);
    assert UnitsCodable(s2, r2, u2);
    assert UnitsCodable(s1, r1, u1);
    assert AfterUnits(s2, r2, u2) == WithDc(s2, PlaneCr, c);
    assert AfterUnits(s1, r1, u1) == AfterUnits(s2, r2, u2);
  }

  lemma FlatPlanes(quant: seq<seq<int>>, slots: seq<Slot>, a: int, b: int, c: int, q: nat)
    requires Quants(quant) && q < 3 && |slots| == 3 && slots[0].q == q && slots[1].q == slots[2].q == q + 1
    ensures Planes(quant, slots, [FirstCoefficient(a), FirstCoefficient(b), FirstCoefficient(c)]) ==
            ThreeTile(Level(quant, q, a), Level(quant, q + 1, b), Level(quant, q + 1, c))
  {
    hide Samples, Level, FirstCoefficient;
    var units := [FirstCoefficient(a), FirstCoefficient(b), FirstCoefficient(c)];
    FlatSamples(quant, q, a);
    FlatSamples(quant, q + 1, b);
    FlatSamples(quant, q + 1, c);
    var r1, u1 := slots[1..], units[1..];
    var r2, u2 := r1[1..], u1[1..];
    assert r1[0] == slots[1] && r2[0] == slots[2] && u1[0] == units[1] && u2[0] == units[2];
    assert r2[1..] == [] && u2[1..] == [];
    var x, y, z := Level(quant, q, a), Level(quant, q + 1, b), Level(quant, q + 1, c);
    assert Planes(quant, r2, u2) == seq(64, _ => z);
    assert Planes(quant, r1, u1) == seq(64, _ => y) + seq(64, _ => z);
    assert Planes(quant, slots, units) == seq(64, _ => x) + (seq(64, _ => y) + seq(64, _ => z));
  }

  lemma FlatBlock(g: Grid, s: Coder, kind: Kind, a: int, b: int, c: int)
    requires Ready444(g, s) && s.dcY == s.dcCb == s.dcCr == 0
    requires FlatUnit(a) && FlatUnit(b) && FlatUnit(c)
    ensures var q := FirstTable(kind);
            var block := Flat(kind, a, b, c);
            var tile := ThreeTile(Level(g.quant, q, a), Level(g.quant, q + 1, b), Level(g.quant, q + 1, c));
            && BlockCodable(0, s, block)
            && EventFor(g, s, block) == Event(if kind == Differential then Second else First, 0, 0, tile)
            && Ready444(g, AfterBlock(g, s, block)) && AfterBlock(g, s, block).colors == s.colors
  {
    hide Samples, UnitCodable, Raster.Move, Level, UnitsCodable, AfterUnits, Planes, FirstCoefficient;
    var block, t, q := Flat(kind, a, b, c), s.(at := CORNER), FirstTable(kind);
    FlatUnits(t, SlotsFor(0, kind), a, b, c);
    FlatPlanes(g.quant, SlotsFor(0, kind), a, b, c, q);
    var tile := TileAfter(g, t, block.content);
    assert tile[..192] == ContentPlanes(g, t, block.content);
  }

  /* A complete frame that drifts. */

  /** A difference, then grey from the initial colour cache, in the first tile. */
  function Drifting(): seq<Block> { [Flat(Differential, 8, 8, 8), Fill(CORNER, Pick(2, None))] }

  /** Under a table whose DC entry is u, a coefficient of 8 is a difference of u. */
  lemma EightLevel(quant: seq<seq<int>>, q: nat, u: int)
    requires Quants(quant) && q < 4 && quant[q][0] == 65536 * u && 1 <= u <= 255
    ensures Level(quant, q, 8) == Clamp(128 + u) != 128
  {
    hide Limit;
    DequantizeExact(8, u);
    LimitIsClampExactly(8 * u);
  }

  lemma EightCodable()
    ensures FlatUnit(8)
  {
    assert Category(8) == 4 by { assert Category(2) == 2; }
    FlatCodable(8);
  }

  function BrightTile(u: int, v: int): Event {
    Event(Second, 0, 0, ThreeTile(Clamp(128 + u), Clamp(128 + v), Clamp(128 + v)))
  }

  function GreyTile(): Event { Event(First, 0, 0, ColourTile(0x808080)) }

  lemma DriftingEncodes(quant: seq<seq<int>>, u: int, v: int, size: nat)
    requires Quants(quant) && quant[2][0] == 65536 * u && quant[3][0] == 65536 * v && 1 <= u <= 255 && 1 <= v <= 255
    ensures var h := Small(8, quant, size);
            Encodes(h, Drifting()) && TilesOf(h, Drifting(), FreshTile()) == [BrightTile(u, v), GreyTile()]
  {
    hide BlockBits, BlockCodable, AfterBlock, EventFor, ColourTile, Flat, Fill, GridFor, FlatUnit, Level, ThreeTile,
      Quants, Small;
    var h, grey, b := Small(8, quant, size), Pick(2, None), Flat(Differential, 8, 8, 8);
    SmallGrid(8, quant, size);
    var g, s := GridFor(h), StartCoder(FreshTile());
    EightCodable();
    EightLevel(quant, 2, u);
    EightLevel(quant, 3, v);
    FlatBlock(g, s, Differential, 8, 8, 8);
    FillBlock(g, AfterBlock(g, s, b), CORNER, grey);
    TwoBlocks(g, s, b, Fill(CORNER, grey));
  }

  lemma ShadesShow(f: Frame, u: int, v: int)
    requires f.mode == 0 && 1 <= u <= 255
    ensures Proper(f, BrightTile(u, v)) && Proper(f, GreyTile())
    ensures !Neutral(f, BrightTile(u, v)) && Neutral(f, GreyTile())
  {
    assert BrightTile(u, v).tile[0] == Clamp(128 + u) != 128;
  }

  /** For all quantisation tables whose DC entries for difference blocks are in 1 .. 255, there are a byte string and
      an earlier state from which the frame decodes without error, and decoding it again changes the picture or its
      references. */
  lemma CompleteFrameDrifts(k: Coders, quant: seq<seq<int>>, u: int, v: int, fuel: nat)
    returns (h: Header, data: seq<Byte>, s: State)
    requires Coding(k) && fuel >= 2 && Quants(quant)
    requires quant[2][0] == 65536 * u && quant[3][0] == 65536 * v && 1 <= u <= 255 && 1 <= v <= 255
    ensures h.quant == quant && Direct(h, k, data) && Proper8(s)
    ensures Decode(s, h, k, data, fuel).1 == Ok && !Steady(s, h, k, data, fuel)
  {
    hide Coding, Encodes, Encoded, Small, Drifting, TilesOf, Decode, Direct, FrameOf, Quants, DriftFree, Steady, Legal,
      ThreeTile;
    DriftingEncodes(quant, u, v, 0);
    data := Encoded(Small(8, quant, 0), Drifting(), 9);
    h := Small(8, quant, |data|);
    DriftingEncodes(quant, u, v, |data|);
    SizeIgnored(8, quant, |data|, Drifting(), 9);
    SmallDirect(8, quant, k, Drifting(), 9, |data|);
    SmallFrame(8, quant, |data|);
    SmallGrid(8, quant, |data|);
    ShadesShow(FrameOf(h), u, v);
    DriftExample(FrameOf(h), BrightTile(u, v), GreyTile());
    DriftingLength();
    EncodedTwiceExactly(h, k, Drifting(), fuel);
    s :| Proper8(s) && !Steady(s, h, k, data, fuel);
    EncodedOk(s, h, k, Drifting(), fuel);
  }

  lemma DriftingLength()
    ensures |Drifting()| == 2
  {
  }

  lemma EncodedOk(s: State, h: Header, k: Coders, blocks: seq<Block>, fuel: nat)
    requires Proper8(s) && Encodes(h, blocks) && Direct(h, k, Encoded(h, blocks, 9)) && fuel >= |blocks|
    requires h.compressSize == |Encoded(h, blocks, 9)|
    ensures Decode(s, h, k, Encoded(h, blocks, 9), fuel).1 == Ok
  {
    hide Legal, Encodes, Encoded, Decode, TilesOf, PaintAll;
    EncodedFrameComplete(s, h, k, blocks, fuel);
  }

  /* A frame that loses its last block. */

  /** White twice in the first tile and once in the second: three blocks of 23 bits. */
  function Lost(): seq<Block> { [Fill(CORNER, WHITE), Fill(CORNER, WHITE), Fill(Raster.Place(1, 0), WHITE)] }

  lemma LostEncodes(quant: seq<seq<int>>, size: nat)
    requires Quants(quant)
    ensures var h := Small(16, quant, size);
            && Encodes(h, Lost()) && |Lost()| == 3 && StartBit(h, Lost(), 0) == 0 && StartBit(h, Lost(), 1) == 23
            && StartBit(h, Lost(), 2) == 46 && StartBit(h, Lost(), 3) == 69
            && forall tile :: |tile| == 768 ==> TilesOf(h, Lost(), tile) == [WhiteTile(0), WhiteTile(0), WhiteTile(1)]
  {
    hide GridFor, ColourTile, Quants, Small, Codable, EventsFor, StartOf, Lost;
    var h := Small(16, quant, size);
    SmallGrid(16, quant, size);
    assert |Lost()| == 3 by { LostLength(); }
    LostFrom(GridFor(h), StartCoder(FreshTile()));
    forall tile | |tile| == 768 ensures TilesOf(h, Lost(), tile) == [WhiteTile(0), WhiteTile(0), WhiteTile(1)] {
      LostFrom(GridFor(h), StartCoder(tile));
    }
  }

  lemma LostLength()
    ensures |Lost()| == 3
  {
  }

  lemma LostFrom(g: Grid, s: Coder)
    requires Ready444(g, s) && s.colors[1] == 0xFF8080
    ensures Codable(g, s, Lost()) && EventsFor(g, s, Lost()) == [WhiteTile(0), WhiteTile(0), WhiteTile(1)]
    ensures StartOf(g, s, 0, Lost(), 0) == 0 && StartOf(g, s, 0, Lost(), 1) == 23
    ensures StartOf(g, s, 0, Lost(), 2) == 46 && StartOf(g, s, 0, Lost(), 3) == 69
  {
    hide BlockBits, BlockCodable, AfterBlock, EventFor, ColourTile, Quants, Fill;
    var a, b := Fill(CORNER, WHITE), Fill(Raster.Place(1, 0), WHITE);
    FillBlock(g, s, CORNER, WHITE);
    var t := AfterBlock(g, s, a);
    FillBlock(g, t, CORNER, WHITE);
    var u := AfterBlock(g, t, a);
    FillBlock(g, u, Raster.Place(1, 0), WHITE);
    TwoBlocks(g, t, a, b);
    assert Lost()[1..] == [a, b] && [a, b][1..] == [b] && [b][1..] == [];
    assert StartOf(g, u, 46, [b], 0) == 46;
    assert StartOf(g, u, 46, [b], 1) == 69 by { assert StartOf(g, AfterBlock(g, u, b), 69, [], 0) == 69; }
    assert StartOf(g, t, 23, [a, b], 1) == StartOf(g, u, 46, [b], 0);
    assert StartOf(g, t, 23, [a, b], 2) == StartOf(g, u, 46, [b], 1);
    assert StartOf(g, t, 23, [a, b], 0) == 23;
  }

  /** Under all quantisation tables, the encoding has 73 bits, three words. A header that announces exactly those
      three words loses the last block: a new decoder draws the first tile only, and leaves the second black and
      transparent. */
  lemma LosesLastBlock(k: Coders, quant: seq<seq<int>>, fuel: nat)
    requires Coding(k) && Quants(quant) && fuel >= 3
    ensures var h := Small(16, quant, 12);
            var f, s := FrameOf(h), State(0, 0, Canvas([], []), FreshTile());
            && Encodes(h, Lost()) && StartBit(h, Lost(), 3) + 4 == 73
            && Consistent(s) && Legal(h, k)
            && var (r, result) := Decode(s, h, k, Encoded(h, Lost(), 9), fuel);
            && result == Ok && AllProper(f, [WhiteTile(0), WhiteTile(0)])
            && r.canvas == PaintAll(f, Blank(16, 8), [WhiteTile(0), WhiteTile(0)])
            && 35 < |r.canvas.fb| && PixelAt(r.canvas.fb, 8) == Pixel(0, 0, 0, 0)
  {
    hide Coding, Encodes, Encoded, Small, TilesOf, FrameOf, Decode, Quants, ColourTile, StartBit, PaintAll;
    var h, s := Small(16, quant, 12), State(0, 0, Canvas([], []), FreshTile());
    LostEncodes(quant, 12);
    SmallFrame(16, quant, 12);
    LostReaches(h);
    SmallDirect(16, quant, k, Lost(), 9, 12);
    EncodedLong(h, Lost(), 9);
    EncodedFrameDraws(s, h, k, Lost(), 2, fuel);
    var tiles := TilesOf(h, Lost(), FreshTile());
    assert tiles[..2] == [WhiteTile(0), WhiteTile(0)];
    SecondTileBlack(FrameOf(h));
  }

  lemma LostReaches(h: Header)
    requires h.compressSize == 12 && Encodes(h, Lost()) && StartBit(h, Lost(), 0) == 0 && StartBit(h, Lost(), 1) == 23
    requires StartBit(h, Lost(), 2) == 46
    ensures ReachedCount(h, Lost(), 2)
  {
    hide Encodes, StartBit;
    forall i | 0 <= i < 3 ensures Reached(h, StartBit(h, Lost(), i)) <==> i < 2 {
      assert i == 0 || i == 1 || i == 2;
    }
  }

  lemma SecondTileBlack(f: Frame)
    requires f == Frame(16, 8, 16, 8, 8, 0)
    ensures var es := [WhiteTile(0), WhiteTile(0)];
            && AllProper(f, es) && 35 < |PaintAll(f, Blank(16, 8), es).fb|
            && PixelAt(PaintAll(f, Blank(16, 8), es).fb, 8) == Pixel(0, 0, 0, 0)
  {
    hide PaintAll, Neutral, ColourTile;
    var es, c := [WhiteTile(0), WhiteTile(0)], Blank(16, 8);
    assert |c.fb| == 512;
    PaintAllAt(f, c, es, 8, 0);
    UnwrittenKeeps(f, es, 8, 0, CellAt(f, c, 8, 0));
    assert Linear(f, 8, 0) == 8;
  }

  /* A white block that decodes to black. */

  /** Under a DC entry of v, the least coefficient whose shifted sum is past the range table's last right entry. */
  function Overflow(v: int): int
    requires v > 0
  {
    (4087 + v) / v
  }

  lemma OverflowRange(v: int)
    requires 2 <= v <= 255
    ensures 1 <= Overflow(v) <= 2044 && 511 <= Overflow(v) * v / 8 <= 542
  {
    var c, r := Overflow(v), (4087 + v) % v;
    assert 4087 + v == c * v + r;
    assert c * v >= 4088 && c * v <= 4087 + v;
    CoefficientTooLarge(c, v);
  }

  lemma CoefficientTooLarge(c: int, v: int)
    requires v >= 2
    ensures c >= 2045 ==> c * v > 4087 + v
  {
    if c >= 2045 { assert (c - 1) * v >= 2044 * v; }
  }

  lemma CategoryLimit(c: int)
    requires 0 <= c < 2048
    ensures Category(c) <= 11
  {
    CategoryBound(c);
    LargePower(Category(c));
  }

  lemma LargePower(n: nat)
    ensures n >= 12 ==> Pow2(n - 1) >= 2048
  {
    assert Pow2(11) == 2048 by { Pow2Add(8, 3); assert Pow2(3) == 8; SmallPowers(); }
    if n >= 12 { BitReading.Pow2Monotone(11, n - 1); }
  }

  /** Its samples are 0, where the clamp that the table stands for gives 255. */
  lemma OverflowLevel(quant: seq<seq<int>>, q: nat, v: int)
    requires Quants(quant) && q < 4 && quant[q][0] == 65536 * v && 2 <= v <= 255
    ensures FlatUnit(Overflow(v)) && Level(quant, q, Overflow(v)) == 0 && Clamp(128 + Overflow(v) * v / 8) == 255
  {
    var c := Overflow(v);
    OverflowRange(v);
    CategoryLimit(c);
    FlatCodable(c);
    DequantizeExact(c, v);
  }

  function Bright(v: int): seq<Block>
    requires v > 0
  {
    [Flat(Full, Overflow(v), 0, 0)]
  }

  function BlackTile(): Event { Event(First, 0, 0, ThreeTile(0, 128, 128)) }

  lemma BrightEncodes(quant: seq<seq<int>>, v: int, size: nat)
    requires Quants(quant) && quant[0][0] == 65536 * v && 2 <= v <= 255
    ensures var h := Small(8, quant, size);
            Encodes(h, Bright(v)) && forall tile :: |tile| == 768 ==> TilesOf(h, Bright(v), tile) == [BlackTile()]
  {
    hide GridFor, Quants, Small, Codable, EventsFor, Bright, ThreeTile;
    var h := Small(8, quant, size);
    SmallGrid(8, quant, size);
    BrightFrom(GridFor(h), StartCoder(FreshTile()), v);
    forall tile | |tile| == 768 ensures TilesOf(h, Bright(v), tile) == [BlackTile()] {
      BrightFrom(GridFor(h), StartCoder(tile), v);
    }
  }

  lemma BrightFrom(g: Grid, s: Coder, v: int)
    requires Ready444(g, s) && s.dcY == s.dcCb == s.dcCr == 0 && g.quant[0][0] == 65536 * v && 2 <= v <= 255
    ensures Codable(g, s, Bright(v)) && EventsFor(g, s, Bright(v)) == [BlackTile()]
  {
    hide BlockBits, BlockCodable, AfterBlock, EventFor, Flat, FlatUnit, ThreeTile, Overflow, Quants;
    OverflowLevel(g.quant, 0, v);
    hide Level;
    ZeroLevel(g.quant, 1);
    var b := Flat(Full, Overflow(v), 0, 0);
    FlatBlock(g, s, Full, Overflow(v), 0, 0);
    assert Bright(v)[1..] == [] && Codable(g, AfterBlock(g, s, b), []);
    assert EventsFor(g, AfterBlock(g, s, b), []) == [];
  }

  lemma ZeroLevel(quant: seq<seq<int>>, q: nat)
    requires Quants(quant) && q < 4
    ensures FlatUnit(0) && Level(quant, q, 0) == 128
  {
    FlatCodable(0);
    DequantizeZero(quant[q][0]);
  }

  lemma DequantizeZero(q: int)
    ensures Dequantize(0, q) == 0
  {
  }

  /** For all quantisation tables whose first DC entry is in 2 .. 255, there is a byte string that decodes without
      error, from every earlier state, to a black pixel where the inverse transform with a true clamp gives white. */
  lemma WhiteTurnsBlack(s: State, k: Coders, quant: seq<seq<int>>, v: int, fuel: nat)
    returns (h: Header, data: seq<Byte>)
    requires Consistent(s) && Coding(k) && Quants(quant) && quant[0][0] == 65536 * v && 2 <= v <= 255 && fuel >= 1
    ensures h.quant == quant && Legal(h, k) && Encodes(h, Bright(v)) && data == Encoded(h, Bright(v), 9)
    ensures var (r, result) := Decode(s, h, k, data, fuel);
            && result == Ok && 3 < |r.canvas.fb| && PixelAt(r.canvas.fb, 0) == Rgb(Sample(0, 128, 128))
    ensures Clamp(128 + Overflow(v) * v / 8) == 255 && Rgb(Sample(0, 128, 128)) != Rgb(Sample(255, 128, 128))
  {
    hide Coding, Encodes, Encoded, Small, Bright, TilesOf, Decode, Direct, FrameOf, Quants, Legal, ThreeTile, PaintAll,
      Rgb, Level, FlatUnit, Overflow, PixelAt;
    BrightEncodes(quant, v, 0);
    data := Encoded(Small(8, quant, 0), Bright(v), 9);
    h := Small(8, quant, |data|);
    BrightEncodes(quant, v, |data|);
    SizeIgnored(8, quant, |data|, Bright(v), 9);
    SmallDirect(8, quant, k, Bright(v), 9, |data|);
    SmallFrame(8, quant, |data|);
    SmallGrid(8, quant, |data|);
    DirectIsLegal(h, k, data);
    assert |Bright(v)| == 1 by { BrightLength(v); }
    EncodedFrameComplete(s, h, k, Bright(v), fuel);
    CornerBlack(FrameOf(h), Prepared(s, h).canvas);
    OverflowLevel(quant, 0, v);
    LumaMatters(0, 255, 128, 128);
  }

  lemma BrightLength(v: int)
    requires v > 0
    ensures |Bright(v)| == 1
  {
  }

  lemma CornerBlack(f: Frame, c: Canvas)
    requires f == Frame(8, 8, 8, 8, 8, 0) && Sized(f, c)
    ensures AllProper(f, [BlackTile()]) && 3 < |PaintAll(f, c, [BlackTile()]).fb|
    ensures PixelAt(PaintAll(f, c, [BlackTile()]).fb, 0) == Rgb(Sample(0, 128, 128))
  {
    hide PaintAll, Rgb, Neutral, SampleAt, CellAt, BlackTile;
    var es := [BlackTile()];
    BlackShows(f);
    assert IsLast(f, es, 0, 0, 0, true);
    PixelHistory(f, c, es, 0, 0);
    CornerCell(f, PaintAll(f, c, es));
  }

  lemma BlackShows(f: Frame)
    requires f.mode == 0
    ensures Proper(f, BlackTile()) && !Neutral(f, BlackTile()) && BlackTile().pass == First
    ensures Covers(BlackTile(), 0, 0) && SampleAt(BlackTile(), 0, 0) == Sample(0, 128, 128)
  {
    assert BlackTile().tile[0] == 0;
  }

  lemma CornerCell(f: Frame, c: Canvas)
    requires f == Frame(8, 8, 8, 8, 8, 0) && Sized(f, c)
    ensures 3 < |c.fb| && CellAt(f, c, 0, 0).p == PixelAt(c.fb, 0)
  {
  }
}
