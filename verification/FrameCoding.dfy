/** A reference encoder of whole frames, and what the block loop makes of its output. */
module FrameCoding {
  import opened Wrappers
  import opened Bits
  import opened BitReading
  import opened Entropy
  import opened Idct
  import opened Drawing
  import opened Frames
  import Raster

  /* The encoder: its state, and the blocks it writes. */

  /** Predictors, colour cache, current place and tile buffer, as encoder and decoder both track them. */
  datatype Coder = Coder(dcY: int, dcCb: int, dcCr: int, colors: seq<nat>, at: Raster.Place, tile: seq<int>)

  /** Where a data unit goes in the tile buffer, and its quantisation table. */
  datatype Slot = Slot(plane: Plane, offset: nat, q: nat)

  datatype Kind = Full | Low | Differential

  /** A cached colour chosen for a block, with a new value if it is to be replaced. */
  datatype Pick = Pick(index: nat, colour: Option<nat>)

  datatype Content = Jpeg(kind: Kind, units: seq<seq<int>>) | Vq(picks: seq<Pick>, bitmap: seq<nat>)

  /** A block, with an explicit position or at the current one. */
  datatype Block = Block(place: Option<Raster.Place>, content: Content)

  function Dc(s: Coder, plane: Plane): int {
    match plane case PlaneY => s.dcY case PlaneCb => s.dcCb case PlaneCr => s.dcCr
  }

  function WithDc(s: Coder, plane: Plane, dc: int): Coder {
    match plane case PlaneY => s.(dcY := dc) case PlaneCb => s.(dcCb := dc) case PlaneCr => s.(dcCr := dc)
  }

  function ComponentOf(plane: Plane): Entropy.Component { if plane == PlaneY then Luma else Chroma }

  /** Three data units per block, or six in 4:2:0. */
  function Slots(mode: nat, q: nat): seq<Slot> {
    if mode == 1 then
      [Slot(PlaneY, 0, q), Slot(PlaneY, 64, q), Slot(PlaneY, 128, q), Slot(PlaneY, 192, q),
       Slot(PlaneCb, 256, q + 1), Slot(PlaneCr, 320, q + 1)]
    else [Slot(PlaneY, 0, q), Slot(PlaneCb, 64, q + 1), Slot(PlaneCr, 128, q + 1)]
  }

  /** A block of coefficients within the range of the code, given the predictor. */
  ghost predicate UnitCodable(unit: seq<int>, pred: int) {
    |unit| == 64 && Encodable(Scanned(unit)) && Category(unit[0] - pred) <= 11 && -32768 <= unit[0] < 32768
  }

  ghost predicate UnitsCodable(s: Coder, slots: seq<Slot>, units: seq<seq<int>>)
    decreases |slots|
  {
    && |units| == |slots|
    && (slots == [] || (UnitCodable(units[0], Dc(s, slots[0].plane)) &&
                        UnitsCodable(WithDc(s, slots[0].plane, units[0][0]), slots[1..], units[1..])))
  }

  ghost function UnitBits(s: Coder, slot: Slot, unit: seq<int>): seq<bool>
    requires UnitCodable(unit, Dc(s, slot.plane))
  {
    EncodeUnit(ComponentOf(slot.plane), unit, Dc(s, slot.plane))
  }

  ghost function UnitsBits(s: Coder, slots: seq<Slot>, units: seq<seq<int>>): seq<bool>
    requires UnitsCodable(s, slots, units)
    decreases |slots|
  {
    if slots == [] then []
    else UnitBits(s, slots[0], units[0]) + UnitsBits(WithDc(s, slots[0].plane, units[0][0]), slots[1..], units[1..])
  }

  ghost function AfterUnits(s: Coder, slots: seq<Slot>, units: seq<seq<int>>): Coder
    requires UnitsCodable(s, slots, units)
    decreases |slots|
  {
    if slots == [] then s else AfterUnits(WithDc(s, slots[0].plane, units[0][0]), slots[1..], units[1..])
  }

  /** The planes of a block, one after the other. */
  function Planes(quant: seq<seq<int>>, slots: seq<Slot>, units: seq<seq<int>>): (r: seq<int>)
    requires Quants(quant) && |units| == |slots|
    requires forall i :: 0 <= i < |slots| ==> slots[i].q < 4 && |units[i]| == 64
    ensures |r| == 64 * |slots|
  {
    if slots == [] then [] else Samples(units[0], quant[slots[0].q]) + Planes(quant, slots[1..], units[1..])
  }

  /* Data units, decoded. */

  /** The slots lie one after the other from the given offset on. */
  ghost predicate Consecutive(slots: seq<Slot>, offset: nat) {
    offset + 64 * |slots| <= 768 && forall i :: 0 <= i < |slots| ==>
      slots[i].offset == offset + 64 * i && slots[i].q < 4
  }

  ghost predicate Matches(c: Cursor, s: Coder) {
    c.dcY == s.dcY && c.dcCb == s.dcCb && c.dcCr == s.dcCr && c.vqColor == s.colors && c.at == s.at
  }

  function DecodePlanes(x: Context, c: Cursor, slots: seq<Slot>): (r: Cursor)
    requires Set(x) && Fit(c) && forall i :: 0 <= i < |slots| ==> slots[i].offset + 64 <= 768 && slots[i].q < 4
    ensures Fit(r)
    decreases |slots|
  {
    if slots == [] then c
    else DecodePlanes(x, DecodePlane(x, c, slots[0].plane, slots[0].offset, slots[0].q), slots[1..])
  }

  lemma PlaneRoundTrip(x: Context, c: Cursor, s: Coder, slot: Slot, unit: seq<int>)
    requires Set(x) && Fit(c) && Matches(c, s) && slot.offset + 64 <= 768 && slot.q < 4
    requires UnitCodable(unit, Dc(s, slot.plane))
    requires Window(x.buf, c.pos, |UnitBits(s, slot, unit)|) == UnitBits(s, slot, unit)
    ensures var r := DecodePlane(x, c, slot.plane, slot.offset, slot.q);
            && r.pos == c.pos + |UnitBits(s, slot, unit)| && Matches(r, WithDc(s, slot.plane, unit[0]))
            && r.tile == Splice(c.tile, slot.offset, Samples(unit, x.quant[slot.q]))
  {
    hide Window, EncodeUnit, DecodeUnit, Samples, Encodable, Scanned, Category, Standard;
    assert Predictor(c, slot.plane) == Dc(s, slot.plane);
    if slot.plane == PlaneY {
      UnitRoundTrip(Luma, x.coders.dcLuma, x.coders.acLuma, x.buf, c.pos, unit, s.dcY);
    } else {
      UnitRoundTrip(Chroma, x.coders.dcChroma, x.coders.acChroma, x.buf, c.pos, unit, Dc(s, slot.plane));
    }
  }

  lemma UnitSizes(s: Coder, slots: seq<Slot>, units: seq<seq<int>>)
    requires UnitsCodable(s, slots, units)
    ensures forall i :: 0 <= i < |units| ==> |units[i]| == 64
    decreases |slots|
  {
    if slots != [] {
      UnitSizes(WithDc(s, slots[0].plane, units[0][0]), slots[1..], units[1..]);
      assert units == [units[0]] + units[1..];
    }
  }

  lemma {:induction false} UnitsRoundTrip(x: Context, c: Cursor, s: Coder, slots: seq<Slot>, units: seq<seq<int>>,
                                          offset: nat)
    requires Set(x) && Fit(c) && Matches(c, s) && Consecutive(slots, offset) && UnitsCodable(s, slots, units)
    requires Window(x.buf, c.pos, |UnitsBits(s, slots, units)|) == UnitsBits(s, slots, units)
    requires forall i :: 0 <= i < |units| ==> |units[i]| == 64
    ensures var r := DecodePlanes(x, c, slots);
            && r.pos == c.pos + |UnitsBits(s, slots, units)| && Matches(r, AfterUnits(s, slots, units))
            && r.tile == c.tile[..offset] + Planes(x.quant, slots, units) + c.tile[offset + 64 * |slots|..]
    decreases |slots|
  {
    hide Coding, Window, UnitBits, UnitCodable, DecodePlane, Samples, Splice;
    if slots != [] {
      var slot, unit := slots[0], units[0];
      var t := WithDc(s, slot.plane, unit[0]);
      var a, b := UnitBits(s, slot, unit), UnitsBits(t, slots[1..], units[1..]);
      WindowTail(x.buf, c.pos, a, b);
      PlaneRoundTrip(x, c, s, slot, unit);
      var d := DecodePlane(x, c, slot.plane, slot.offset, slot.q);
      UnitsRoundTrip(x, d, t, slots[1..], units[1..], offset + 64);
      var first := Samples(unit, x.quant[slot.q]);
      SpliceExtends(c.tile, offset, first, Planes(x.quant, slots[1..], units[1..]));
    } else {
      assert c.tile[..offset] + [] + c.tile[offset..] == c.tile;
    }
  }

  lemma SpliceExtends(tile: seq<int>, offset: nat, block: seq<int>, more: seq<int>)
    requires |block| == 64 && offset + 64 + |more| <= |tile|
    ensures var t, n := Splice(tile, offset, block), offset + 64;
            t[..n] + more + t[n + |more|..] == tile[..offset] + (block + more) + tile[n + |more|..]
  {
  }

  /* VQ blocks. */

  ghost predicate PickCodable(p: Pick) { p.index < 4 && (p.colour.Some? ==> p.colour.value < Pow2(24)) }

  ghost function PickBits(p: Pick): seq<bool> {
    if p.colour.None? then [false] + BitsOf(2, p.index) else [true] + BitsOf(2, p.index) + BitsOf(24, p.colour.value)
  }

  ghost function PicksBits(picks: seq<Pick>): seq<bool> {
    if picks == [] then [] else PickBits(picks[0]) + PicksBits(picks[1..])
  }

  /** The colour cache after the picks of a block. */
  function Recoloured(colors: seq<nat>, picks: seq<Pick>): (r: seq<nat>)
    requires |colors| == 4 && forall i :: 0 <= i < |picks| ==> picks[i].index < 4
    ensures |r| == 4
    decreases |picks|
  {
    if picks == [] then colors
    else
      var p := picks[0];
      Recoloured(if p.colour.Some? then colors[p.index := p.colour.value] else colors, picks[1..])
  }

  lemma PickReads(x: Context, c: Cursor, i: nat, p: Pick)
    requires Set(x) && Fit(c) && i < 4 && PickCodable(p) && Window(x.buf, c.pos, |PickBits(p)|) == PickBits(p)
    ensures VqOne(x, c, i) ==
            c.(pos := c.pos + |PickBits(p)|, vqIndex := c.vqIndex[i := p.index],
               vqColor := if p.colour.Some? then c.vqColor[p.index := p.colour.value] else c.vqColor)
  {
    hide Coding, BitsOf, Val, Pow2, Window;
    var w := Window(x.buf, c.pos, |PickBits(p)|);
    assert w[0] == StreamBit(x.buf, c.pos);
    WindowSlice(x.buf, c.pos, |w|, 1, 3);
    assert w[1..3] == BitsOf(2, p.index);
    SmallPowers();
    ValBitsOf(2, p.index);
    if p.colour.Some? {
      WindowSlice(x.buf, c.pos, |w|, 3, 27);
      assert w[3..27] == BitsOf(24, p.colour.value);
      ValBitsOf(24, p.colour.value);
    }
  }

  lemma SmallPowers()
    ensures Pow2(0) == 1 && Pow2(1) == 2 && Pow2(2) == 4 && Pow2(4) == 16 && Pow2(8) == 256
  {
    assert Pow2(4) == 16;
    Pow2Add(4, 4);
  }

  ghost predicate PicksCodable(picks: seq<Pick>) { forall i :: 0 <= i < |picks| ==> PickCodable(picks[i]) }

  lemma {:induction false} PicksRead(x: Context, c: Cursor, picks: seq<Pick>, i: nat)
    requires Set(x) && Fit(c) && i <= |picks| <= 4 && PicksCodable(picks)
    requires Window(x.buf, c.pos, |PicksBits(picks[i..])|) == PicksBits(picks[i..])
    requires forall k :: 0 <= k < i ==> c.vqIndex[k] == picks[k].index
    ensures var r := VqHeader(x, c, i, |picks|);
            && r == c.(pos := c.pos + |PicksBits(picks[i..])|, vqIndex := r.vqIndex,
              vqColor := Recoloured(c.vqColor, picks[i..]))
            && forall k :: 0 <= k < |picks| ==> r.vqIndex[k] == picks[k].index
    decreases |picks| - i
  {
    hide Coding, Window, PickBits, VqOne;
    if i < |picks| {
      var rest := picks[i..];
      assert rest[1..] == picks[i + 1..] && rest[0] == picks[i];
      WindowTail(x.buf, c.pos, PickBits(rest[0]), PicksBits(rest[1..]));
      PickReads(x, c, i, picks[i]);
      PicksRead(x, VqOne(x, c, i), picks, i + 1);
    } else {
      assert picks[i..] == [];
    }
  }

  ghost function BitmapBits(bits: nat, bitmap: seq<nat>): (b: seq<bool>)
    ensures |b| == bits * |bitmap|
  {
    if bitmap == [] then [] else
      var n := |bitmap| - 1;
      BitmapSize(bits, n);
      BitmapBits(bits, bitmap[..n]) + BitsOf(bits, bitmap[n])
  }

  lemma BitmapSize(bits: nat, n: nat)
    ensures bits * n + bits == bits * (n + 1)
  {
  }

  lemma BitmapOffset(bits: nat, n: nat, m: nat)
    requires n < m
    ensures 0 <= bits * n && bits * n + bits <= bits * m
  {
    BitmapSize(bits, n);
    if n + 1 < m { BitmapOffset(bits, n, m - 1); BitmapSize(bits, m - 1); }
  }

  lemma {:induction false} BitmapAt(bits: nat, bitmap: seq<nat>, n: nat)
    requires n < |bitmap|
    ensures bits * n + bits <= bits * |bitmap|
    ensures BitmapBits(bits, bitmap)[bits * n..bits * n + bits] == BitsOf(bits, bitmap[n])
  {
    hide BitsOf;
    BitmapOffset(bits, n, |bitmap|);
    var last := |bitmap| - 1;
    BitmapSize(bits, last);
    var before, o := BitmapBits(bits, bitmap[..last]), bits * n;
    if n < last {
      BitmapAt(bits, bitmap[..last], n);
      SliceOfPrefix(before, BitsOf(bits, bitmap[last]), o, o + bits);
    }
  }

  lemma SliceOfPrefix(a: seq<bool>, b: seq<bool>, lo: nat, hi: nat)
    requires lo <= hi <= |a|
    ensures (a + b)[lo..hi] == a[lo..hi]
  {
  }

  lemma SliceSelects(buf: seq<Word>, p: nat, total: nat, o: nat, bits: nat, v: nat)
    requires buf != [] && bits <= 2 && o + bits <= total && v < Pow2(bits)
    requires Window(buf, p, total)[o..o + bits] == BitsOf(bits, v)
    ensures Selector(buf, p + o, bits) == v
  {
    hide Window, BitsOf, Val, Pow2;
    WindowSlice(buf, p, total, o, o + bits);
    ValBitsOf(bits, v);
  }

  /** Reading one bitmap value. */
  lemma SelectorReads(buf: seq<Word>, p: nat, bits: nat, bitmap: seq<nat>, n: nat)
    requires buf != [] && bits <= 2 && n < |bitmap| && bitmap[n] < Pow2(bits)
    requires Window(buf, p, bits * |bitmap|) == BitmapBits(bits, bitmap)
    ensures 0 <= p + bits * n && Selector(buf, p + bits * n, bits) == bitmap[n]
  {
    hide Window, BitsOf, BitmapBits, Val, Pow2, Selector;
    BitmapAt(bits, bitmap, n);
    SliceSelects(buf, p, bits * |bitmap|, bits * n, bits, bitmap[n]);
  }

  /** The planes of a VQ tile. */
  function VqPlane(colors: seq<nat>, picks: seq<Pick>, bitmap: seq<nat>, i: nat): int
    requires |colors| == 4 && |bitmap| == 64 && i < 192
    requires forall k :: 0 <= k < 64 ==> bitmap[k] < |picks|
    requires forall k :: 0 <= k < |picks| ==> picks[k].index < 4
  {
    var color := colors[picks[bitmap[i % 64]].index];
    if i < 64 then color / 65536 % 256 else if i < 128 then color / 256 % 256 else color % 256
  }

  lemma BitmapReads(x: Context, c: Cursor, picks: seq<Pick>, bits: nat, bitmap: seq<nat>)
    requires Set(x) && Fit(c) && bits <= 2 && |picks| == Pow2(bits) <= 4 && |bitmap| == 64
    requires forall k :: 0 <= k < 64 ==> bitmap[k] < |picks|
    requires forall k :: 0 <= k < |picks| ==> picks[k].index < 4 && c.vqIndex[k] == picks[k].index
    requires Window(x.buf, c.pos, bits * 64) == BitmapBits(bits, bitmap)
    ensures var r := VqTile(x, c, bits);
            && r == c.(pos := c.pos + bits * 64, tile := r.tile) && r.tile[192..] == c.tile[192..]
            && forall i :: 0 <= i < 192 ==> r.tile[i] == VqPlane(c.vqColor, picks, bitmap, i)
  {
    hide Coding, Window, BitmapBits, Selector, Pow2;
    var r := VqTile(x, c, bits);
    forall i | 0 <= i < 192 ensures r.tile[i] == VqPlane(c.vqColor, picks, bitmap, i) {
      SelectorReads(x.buf, c.pos, bits, bitmap, i % 64);
    }
  }

  /* Blocks. */

  /** What a frame's header fixes for its blocks. */
  datatype Grid = Grid(mode: nat, cols: nat, rows: nat, quant: seq<seq<int>>)

  function GridOf(x: Context): Grid { Grid(x.frame.mode, x.cols, x.rows, x.quant) }

  function ContentCode(content: Content): nat {
    match content
    case Jpeg(kind, _) => (match kind case Full => 0 case Differential => 2 case Low => 4)
    case Vq(picks, _) => if |picks| == 1 then 5 else if |picks| == 2 then 6 else 7
  }

  function FirstTable(kind: Kind): nat { if kind == Full then 0 else 2 }

  function BitmapWidth(picks: seq<Pick>): (bits: nat)
    ensures bits <= 2
  {
    if |picks| == 1 then 0 else if |picks| == 2 then 1 else 2
  }

  /** Difference blocks have three planes in every mode. */
  function SlotsFor(mode: nat, kind: Kind): seq<Slot> {
    Slots(if kind == Differential then 0 else mode, FirstTable(kind))
  }

  ghost predicate ContentCodable(mode: nat, s: Coder, content: Content) {
    && |s.tile| == 768 && |s.colors| == 4
    && match content
       case Jpeg(kind, units) => UnitsCodable(s, SlotsFor(mode, kind), units)
       case Vq(picks, bitmap) =>
         && (|picks| == 1 || |picks| == 2 || |picks| == 4) && PicksCodable(picks)
         && |bitmap| == 64 && forall k :: 0 <= k < 64 ==> bitmap[k] < |picks|
  }

  ghost function ContentBits(mode: nat, s: Coder, content: Content): seq<bool>
    requires ContentCodable(mode, s, content)
  {
    match content
    case Jpeg(kind, units) => UnitsBits(s, SlotsFor(mode, kind), units)
    case Vq(picks, bitmap) => PicksBits(picks) + BitmapBits(BitmapWidth(picks), bitmap)
  }

  /** The samples of a block: the inverse transform of its coefficients, or its colours. */
  ghost function ContentPlanes(g: Grid, s: Coder, content: Content): (r: seq<int>)
    requires Quants(g.quant) && ContentCodable(g.mode, s, content)
    ensures |r| == 192 || |r| == 384
  {
    match content
    case Jpeg(kind, units) =>
      UnitSizes(s, SlotsFor(g.mode, kind), units);
      Planes(g.quant, SlotsFor(g.mode, kind), units)
    case Vq(picks, bitmap) =>
      var colors := Recoloured(s.colors, picks);
      seq(192, i requires 0 <= i < 192 => VqPlane(colors, picks, bitmap, i))
  }

  /** The tile buffer after a block: in 4:2:0, blocks of three planes leave its second half as it was. */
  ghost function TileAfter(g: Grid, s: Coder, content: Content): (r: seq<int>)
    requires Quants(g.quant) && ContentCodable(g.mode, s, content)
    ensures |r| == 768
  {
    var planes := ContentPlanes(g, s, content);
    planes + s.tile[|planes|..]
  }

  ghost function AfterContent(g: Grid, s: Coder, content: Content): Coder
    requires Quants(g.quant) && ContentCodable(g.mode, s, content)
  {
    match content
    case Jpeg(kind, units) => AfterUnits(s, SlotsFor(g.mode, kind), units).(tile := TileAfter(g, s, content))
    case Vq(picks, _) => s.(colors := Recoloured(s.colors, picks), tile := TileAfter(g, s, content))
  }

  function PlaceOf(s: Coder, b: Block): Raster.Place { if b.place.Some? then b.place.value else s.at }

  ghost predicate BlockCodable(mode: nat, s: Coder, b: Block) {
    (b.place.Some? ==> b.place.value.tx < 256 && b.place.value.ty < 256) &&
      ContentCodable(mode, s.(at := PlaceOf(s, b)), b.content)
  }

  ghost function Head(b: Block): seq<bool> {
    if b.place.None? then BitsOf(4, ContentCode(b.content))
    else BitsOf(4, 8 + ContentCode(b.content)) + BitsOf(8, b.place.value.tx) + BitsOf(8, b.place.value.ty)
  }

  ghost function BlockBits(mode: nat, s: Coder, b: Block): seq<bool>
    requires BlockCodable(mode, s, b)
  {
    Head(b) + ContentBits(mode, s.(at := PlaceOf(s, b)), b.content)
  }

  ghost function EventFor(g: Grid, s: Coder, b: Block): Event
    requires Quants(g.quant) && BlockCodable(g.mode, s, b)
  {
    var t := s.(at := PlaceOf(s, b));
    var pass := if b.content.Jpeg? && b.content.kind == Differential then Second else First;
    Event(pass, t.at.tx, t.at.ty, TileAfter(g, t, b.content)[..TileSize(g.mode)])
  }

  ghost function AfterBlock(g: Grid, s: Coder, b: Block): Coder
    requires Quants(g.quant) && BlockCodable(g.mode, s, b)
  {
    var t := AfterContent(g, s.(at := PlaceOf(s, b)), b.content);
    t.(at := Raster.Move(g.cols, g.rows, t.at))
  }

  lemma HeadReads(x: Context, c: Cursor, b: Block)
    requires Set(x) && Fit(c) && Window(x.buf, c.pos, |Head(b)|) == Head(b)
    requires b.place.Some? ==> b.place.value.tx < 256 && b.place.value.ty < 256
    ensures BlockType(x.buf, c.pos) == ContentCode(b.content) + if b.place.Some? then 8 else 0
    ensures Positioned(x, c) == c.(pos := c.pos + |Head(b)|, at := if b.place.Some? then b.place.value else c.at)
  {
    hide Coding, BitsOf, Val, Pow2, Window;
    SmallPowers();
    var w, n := Window(x.buf, c.pos, |Head(b)|), |Head(b)|;
    var t := ContentCode(b.content) + if b.place.Some? then 8 else 0;
    WindowSlice(x.buf, c.pos, n, 0, 4);
    assert w[0..4] == BitsOf(4, t);
    ValBitsOf(4, t);
    if b.place.Some? {
      WindowSlice(x.buf, c.pos, n, 4, 12);
      WindowSlice(x.buf, c.pos, n, 12, 20);
      assert w[4..12] == BitsOf(8, b.place.value.tx) && w[12..20] == BitsOf(8, b.place.value.ty);
      ValBitsOf(8, b.place.value.tx);
      ValBitsOf(8, b.place.value.ty);
    }
  }

  lemma SlotsStep(x: Context, c: Cursor, slot: Slot, rest: seq<Slot>)
    requires Set(x) && Fit(c) && slot.offset + 64 <= 768 && slot.q < 4
    requires forall i :: 0 <= i < |rest| ==> rest[i].offset + 64 <= 768 && rest[i].q < 4
    ensures DecodePlanes(x, c, [slot] + rest) ==
            DecodePlanes(x, DecodePlane(x, c, slot.plane, slot.offset, slot.q), rest)
    ensures DecodePlanes(x, c, []) == c
  {
    hide Coding, DecodePlane;
    assert ([slot] + rest)[1..] == rest;
  }

  lemma ThreeSlots(x: Context, c: Cursor, mode: nat, q: nat)
    requires Set(x) && Fit(c) && mode != 1 && q < 3
    ensures Consecutive(Slots(mode, q), 0) && DecodePlanes(x, c, Slots(mode, q)) == DecodeThree(x, c, q)
  {
    hide Coding, DecodePlane, DecodePlanes;
    var a, b, d := Slot(PlaneY, 0, q), Slot(PlaneCb, 64, q + 1), Slot(PlaneCr, 128, q + 1);
    var c1 := DecodePlane(x, c, PlaneY, 0, q);
    var c2 := DecodePlane(x, c1, PlaneCb, 64, q + 1);
    SlotsStep(x, c, a, [b, d]);
    SlotsStep(x, c1, b, [d]);
    SlotsStep(x, c2, d, []);
    SlotsStep(x, DecodePlane(x, c2, PlaneCr, 128, q + 1), a, []);
    assert [a] + [b, d] == Slots(mode, q) && [b] + [d] == [b, d] && [d] + [] == [d];
  }

  lemma SixSlots(x: Context, c: Cursor, q: nat)
    requires Set(x) && Fit(c) && q < 3
    ensures Consecutive(Slots(1, q), 0) && DecodePlanes(x, c, Slots(1, q)) == DecodeSix(x, c, q)
  {
    hide Coding, DecodePlane, DecodePlanes;
    var y1, y2, y3, y4 := Slot(PlaneY, 0, q), Slot(PlaneY, 64, q), Slot(PlaneY, 128, q), Slot(PlaneY, 192, q);
    var cb, cr := Slot(PlaneCb, 256, q + 1), Slot(PlaneCr, 320, q + 1);
    var c1 := DecodePlane(x, c, PlaneY, 0, q);
    var c2 := DecodePlane(x, c1, PlaneY, 64, q);
    var c3 := DecodePlane(x, c2, PlaneY, 128, q);
    var c4 := DecodePlane(x, c3, PlaneY, 192, q);
    var c5 := DecodePlane(x, c4, PlaneCb, 256, q + 1);
    SlotsStep(x, c, y1, [y2, y3, y4, cb, cr]);
    SlotsStep(x, c1, y2, [y3, y4, cb, cr]);
    SlotsStep(x, c2, y3, [y4, cb, cr]);
    SlotsStep(x, c3, y4, [cb, cr]);
    SlotsStep(x, c4, cb, [cr]);
    SlotsStep(x, c5, cr, []);
    SlotsStep(x, DecodePlane(x, c5, PlaneCr, 320, q + 1), y1, []);
    assert [y1] + [y2, y3, y4, cb, cr] == Slots(1, q) && [y2] + [y3, y4, cb, cr] == [y2, y3, y4, cb, cr];
    assert [y3] + [y4, cb, cr] == [y3, y4, cb, cr] && [y4] + [cb, cr] == [y4, cb, cr] && [cb] + [cr] == [cb, cr] &&
      [cr] + [] == [cr];
  }

  ghost predicate Agrees(c: Cursor, s: Coder) { Matches(c, s) && c.tile == s.tile }

  /** The body of a block, decoded. */
  ghost predicate BodyDecodes(x: Context, c: Cursor, s: Coder, content: Content)
    requires Set(x) && Fit(c) && ContentCodable(x.frame.mode, s, content)
  {
    var r := Body(x, c, ContentCode(content));
    r.pos == c.pos + |ContentBits(x.frame.mode, s, content)| && Agrees(r, AfterContent(GridOf(x), s, content))
  }

  lemma JpegRoundTrip(x: Context, c: Cursor, s: Coder, kind: Kind, units: seq<seq<int>>)
    requires Set(x) && Fit(c) && Agrees(c, s) && ContentCodable(x.frame.mode, s, Jpeg(kind, units))
    requires var bits := ContentBits(x.frame.mode, s, Jpeg(kind, units)); Window(x.buf, c.pos, |bits|) == bits
    ensures BodyDecodes(x, c, s, Jpeg(kind, units))
  {
    hide Coding, Window, UnitsBits, UnitsCodable, DecodePlanes, DecodeThree, DecodeSix, Planes, AfterUnits;
    var mode, q := if kind == Differential then 0 else x.frame.mode, FirstTable(kind);
    if mode == 1 { SixSlots(x, c, q); } else { ThreeSlots(x, c, mode, q); }
    UnitSizes(s, Slots(mode, q), units);
    UnitsRoundTrip(x, c, s, Slots(mode, q), units, 0);
    assert c.tile[..0] == [];
  }

  lemma VqRoundTrip(x: Context, c: Cursor, s: Coder, picks: seq<Pick>, bitmap: seq<nat>)
    requires Set(x) && Fit(c) && Agrees(c, s) && ContentCodable(x.frame.mode, s, Vq(picks, bitmap))
    requires var bits := ContentBits(x.frame.mode, s, Vq(picks, bitmap)); Window(x.buf, c.pos, |bits|) == bits
    ensures BodyDecodes(x, c, s, Vq(picks, bitmap))
  {
    hide Coding, Window, PicksBits, BitmapBits, VqHeader, VqTile, Recoloured, VqPlane, Pow2;
    SmallPowers();
    var bits := BitmapWidth(picks);
    WindowTail(x.buf, c.pos, PicksBits(picks), BitmapBits(bits, bitmap));
    assert picks[0..] == picks;
    PicksRead(x, c, picks, 0);
    var d := VqHeader(x, c, 0, |picks|);
    BitmapReads(x, d, picks, bits, bitmap);
    var tile := VqTile(x, d, bits).tile;
    assert tile == tile[..192] + tile[192..];
  }

  lemma {:induction false} UnitsKeepPlace(s: Coder, slots: seq<Slot>, units: seq<seq<int>>)
    requires UnitsCodable(s, slots, units)
    ensures AfterUnits(s, slots, units).at == s.at
    decreases |slots|
  {
    if slots != [] { UnitsKeepPlace(WithDc(s, slots[0].plane, units[0][0]), slots[1..], units[1..]); }
  }

  lemma ContentKeepsPlace(g: Grid, s: Coder, content: Content)
    requires Quants(g.quant) && ContentCodable(g.mode, s, content)
    ensures AfterContent(g, s, content).at == s.at && AfterContent(g, s, content).tile == TileAfter(g, s, content)
  {
    hide TileAfter;
    if content.Jpeg? { UnitsKeepPlace(s, SlotsFor(g.mode, content.kind), content.units); }
  }

  lemma BlockRoundTrip(x: Context, c: Cursor, s: Coder, b: Block)
    requires Set(x) && Fit(c) && Agrees(c, s) && BlockCodable(x.frame.mode, s, b) && At(x.buf, c.pos).index < x.words
    requires var bits := BlockBits(x.frame.mode, s, b); Window(x.buf, c.pos, |bits|) == bits
    ensures var r := StepBlock(x, c);
            && r.Next? && r.event == EventFor(GridOf(x), s, b) && Agrees(r.cursor, AfterBlock(GridOf(x), s, b))
            && r.cursor.pos == c.pos + |BlockBits(x.frame.mode, s, b)|
  {
    hide Coding, Window, At, Head, ContentBits, ContentCodable, AfterContent, TileAfter, Body, Positioned, BlockType,
      Fit, Quants;
    var t := s.(at := PlaceOf(s, b));
    WindowTail(x.buf, c.pos, Head(b), ContentBits(x.frame.mode, t, b.content));
    HeadReads(x, c, b);
    var d, code := Positioned(x, c), ContentCode(b.content);
    assert code < 8 && code != 1 && code != 3 && BlockType(x.buf, c.pos) % 8 == code;
    assert code == 2 <==> b.content.Jpeg? && b.content.kind == Differential;
    ContentKeepsPlace(GridOf(x), t, b.content);
    match b.content
    case Jpeg(kind, units) => JpegRoundTrip(x, d, t, kind, units);
    case Vq(picks, bitmap) => VqRoundTrip(x, d, t, picks, bitmap);
  }

  /* Frames. */

  ghost predicate Codable(g: Grid, s: Coder, blocks: seq<Block>)
    requires Quants(g.quant)
    decreases |blocks|
  {
    blocks == [] || (BlockCodable(g.mode, s, blocks[0]) && Codable(g, AfterBlock(g, s, blocks[0]), blocks[1..]))
  }

  ghost function BlocksBits(g: Grid, s: Coder, blocks: seq<Block>): seq<bool>
    requires Quants(g.quant) && Codable(g, s, blocks)
    decreases |blocks|
  {
    if blocks == [] then []
    else BlockBits(g.mode, s, blocks[0]) + BlocksBits(g, AfterBlock(g, s, blocks[0]), blocks[1..])
  }

  ghost function EventsFor(g: Grid, s: Coder, blocks: seq<Block>): (es: seq<Event>)
    requires Quants(g.quant) && Codable(g, s, blocks)
    ensures |es| == |blocks|
    decreases |blocks|
  {
    if blocks == [] then []
    else [EventFor(g, s, blocks[0])] + EventsFor(g, AfterBlock(g, s, blocks[0]), blocks[1..])
  }

  /** The end marker, or one of the advance types that make the decoder give up the frame. */
  predicate Closing(mark: nat) { mark == 9 || mark == 1 || mark == 3 || mark == 11 }

  function ClosingOutcome(mark: nat): Outcome { if mark == 9 then FrameEnd else Advance(mark) }

  /** The blocks, then a closing mark. */
  ghost function FrameBits(g: Grid, s: Coder, blocks: seq<Block>, mark: nat): seq<bool>
    requires Quants(g.quant) && Codable(g, s, blocks)
  {
    BlocksBits(g, s, blocks) + BitsOf(4, mark)
  }

  /** How many blocks the loop begins: it stops as soon as it has fetched the announced number of words. */
  ghost function Begun(x: Context, s: Coder, p: nat, blocks: seq<Block>): (n: nat)
    requires |x.buf| >= 2 && Quants(x.quant) && Codable(GridOf(x), s, blocks)
    ensures n <= |blocks|
    decreases |blocks|
  {
    if blocks == [] || At(x.buf, p).index >= x.words then 0
    else 1 + Begun(x, AfterBlock(GridOf(x), s, blocks[0]), p + |BlockBits(x.frame.mode, s, blocks[0])|, blocks[1..])
  }

  /** Whole frames, complete or given up: on a stream that goes on with the encoding of any blocks and a closing
      mark, the loop yields exactly the tiles of the blocks it begins, in order, and no other; it sees the mark
      if it gets there in time. */
  lemma {:induction false} FrameRoundTrip(x: Context, c: Cursor, s: Coder, blocks: seq<Block>, mark: nat, fuel: nat)
    requires Set(x) && Fit(c) && Agrees(c, s) && Codable(GridOf(x), s, blocks) && Closing(mark) && fuel >= |blocks|
    requires var bits := FrameBits(GridOf(x), s, blocks, mark); Window(x.buf, c.pos, |bits|) == bits
    ensures var r := RunBlocks(x, c, fuel);
            var n := Begun(x, s, c.pos, blocks);
            var end := c.pos + |BlocksBits(GridOf(x), s, blocks)|;
            && r.events == EventsFor(GridOf(x), s, blocks)[..n]
            && r.outcome == if n == |blocks| && At(x.buf, end).index < x.words then ClosingOutcome(mark) else Exhausted
    decreases |blocks|
  {
    hide Coding, Window, At, BlockBits, BlockCodable, AfterBlock, EventFor, StepBlock, BitsOf, Fit, Quants;
    var g := GridOf(x);
    if At(x.buf, c.pos).index >= x.words {
      StepStops(x, c);
      assert EventsFor(g, s, blocks)[..0] == [];
    } else if blocks == [] {
      assert BlocksBits(g, s, []) + BitsOf(4, mark) == BitsOf(4, mark);
      StepEnds(x, c, mark);
    } else {
      var b, rest := blocks[0], blocks[1..];
      var t := AfterBlock(g, s, b);
      assert FrameBits(g, s, blocks, mark) == BlockBits(g.mode, s, b) + FrameBits(g, t, rest, mark);
      WindowTail(x.buf, c.pos, BlockBits(g.mode, s, b), FrameBits(g, t, rest, mark));
      BlockRoundTrip(x, c, s, b);
      FrameRoundTrip(x, StepBlock(x, c).cursor, t, rest, mark, fuel - 1);
    }
  }

  lemma StepStops(x: Context, c: Cursor)
    requires Set(x) && Fit(c) && At(x.buf, c.pos).index >= x.words
    ensures StepBlock(x, c) == Done(Exhausted)
  {
  }

  lemma StepEnds(x: Context, c: Cursor, mark: nat)
    requires Set(x) && Fit(c) && At(x.buf, c.pos).index < x.words && Closing(mark)
    requires Window(x.buf, c.pos, 4) == BitsOf(4, mark)
    ensures StepBlock(x, c) == Done(ClosingOutcome(mark))
  {
    hide Coding, Window, At, BitsOf, Val, Pow2, Body, Positioned, EventOf;
    SmallPowers();
    ValBitsOf(4, mark);
  }

  /* Which blocks are begun. */

  /** The bit position at which block i starts when the first starts at p. */
  ghost function StartOf(g: Grid, s: Coder, p: nat, blocks: seq<Block>, i: nat): (q: nat)
    requires Quants(g.quant) && Codable(g, s, blocks) && i <= |blocks|
    ensures q >= p
    decreases i
  {
    if i == 0 then p
    else StartOf(g, AfterBlock(g, s, blocks[0]), p + |BlockBits(g.mode, s, blocks[0])|, blocks[1..], i - 1)
  }

  lemma IndexAt(buf: seq<Word>, p: nat, words: nat)
    requires |buf| >= 2
    ensures At(buf, p).index < words <==> words > |buf| || p / 32 + 2 < words
  {
  }

  /** The reader is two words ahead of the bits it shows, so block i is begun if and only if it starts before the
      last two announced words, or more words are announced than there are. */
  lemma {:induction false} BegunExactly(x: Context, s: Coder, p: nat, blocks: seq<Block>, i: nat)
    requires |x.buf| >= 2 && Quants(x.quant) && Codable(GridOf(x), s, blocks) && i < |blocks|
    ensures i < Begun(x, s, p, blocks) <==> x.words > |x.buf| || StartOf(GridOf(x), s, p, blocks, i) / 32 + 2 < x.words
    decreases i
  {
    hide At, BlockBits, BlockCodable, AfterBlock, Quants;
    IndexAt(x.buf, p, x.words);
    var g := GridOf(x);
    if i == 0 {
      assert StartOf(g, s, p, blocks, 0) == p;
    } else {
      var q := p + |BlockBits(g.mode, s, blocks[0])|;
      BegunExactly(x, AfterBlock(g, s, blocks[0]), q, blocks[1..], i - 1);
      if At(x.buf, p).index >= x.words {
        Later(p, StartOf(g, s, p, blocks, i));
      }
    }
  }

  lemma Later(p: nat, q: nat)
    requires p <= q
    ensures p / 32 <= q / 32
  {
  }

  /** The mark follows the last block. */
  lemma {:induction false} EndOf(g: Grid, s: Coder, p: nat, blocks: seq<Block>)
    requires Quants(g.quant) && Codable(g, s, blocks)
    ensures StartOf(g, s, p, blocks, |blocks|) == p + |BlocksBits(g, s, blocks)|
    decreases |blocks|
  {
    hide BlockBits, BlockCodable, AfterBlock, Quants;
    if blocks != [] {
      EndOf(g, AfterBlock(g, s, blocks[0]), p + |BlockBits(g.mode, s, blocks[0])|, blocks[1..]);
    }
  }

  /* What the encoder writes does not depend on the tile buffer. */

  lemma {:induction false} UnitsIgnoreTile(s: Coder, t: Coder, slots: seq<Slot>, units: seq<seq<int>>)
    requires t == s.(tile := t.tile) && UnitsCodable(s, slots, units)
    ensures UnitsCodable(t, slots, units) && UnitsBits(t, slots, units) == UnitsBits(s, slots, units)
    ensures AfterUnits(t, slots, units) == AfterUnits(s, slots, units).(tile := t.tile)
    decreases |slots|
  {
    hide UnitCodable, UnitBits;
    if slots != [] {
      OneUnitIgnoresTile(s, t, slots[0], units[0]);
      var plane, dc := slots[0].plane, units[0][0];
      UnitsIgnoreTile(WithDc(s, plane, dc), WithDc(t, plane, dc), slots[1..], units[1..]);
    }
  }

  lemma OneUnitIgnoresTile(s: Coder, t: Coder, slot: Slot, unit: seq<int>)
    requires t == s.(tile := t.tile) && UnitCodable(unit, Dc(s, slot.plane))
    ensures |unit| == 64 && UnitCodable(unit, Dc(t, slot.plane)) && UnitBits(t, slot, unit) == UnitBits(s, slot, unit)
  {
    hide Encodable, Scanned, Category, EncodeUnit;
  }

  lemma BlockIgnoresTile(g: Grid, s: Coder, t: Coder, b: Block)
    requires Quants(g.quant) && t == s.(tile := t.tile) && |t.tile| == 768 && BlockCodable(g.mode, s, b)
    ensures BlockCodable(g.mode, t, b) && BlockBits(g.mode, t, b) == BlockBits(g.mode, s, b)
    ensures var s', t' := AfterBlock(g, s, b), AfterBlock(g, t, b); t' == s'.(tile := t'.tile) && |t'.tile| == 768
  {
    hide TileAfter, UnitsCodable, UnitsBits, AfterUnits, PicksBits, BitmapBits, Head, Raster.Move;
    var u, v := s.(at := PlaceOf(s, b)), t.(at := PlaceOf(t, b));
    if b.content.Jpeg? { UnitsIgnoreTile(u, v, SlotsFor(g.mode, b.content.kind), b.content.units); }
  }

  lemma {:induction false} BlocksIgnoreTile(g: Grid, s: Coder, t: Coder, blocks: seq<Block>)
    requires Quants(g.quant) && t == s.(tile := t.tile) && |t.tile| == 768 && Codable(g, s, blocks)
    ensures Codable(g, t, blocks) && BlocksBits(g, t, blocks) == BlocksBits(g, s, blocks)
    decreases |blocks|
  {
    hide BlockBits, BlockCodable, AfterBlock, Quants;
    if blocks != [] {
      BlockIgnoresTile(g, s, t, blocks[0]);
      BlocksIgnoreTile(g, AfterBlock(g, s, blocks[0]), AfterBlock(g, t, blocks[0]), blocks[1..]);
    }
  }
}
