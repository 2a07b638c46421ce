/** From a list of blocks to bytes and back to a picture: the encoder's bits packed as Decode reads them. */
module Transmission {
  import opened Bits
  import opened BitReading
  import opened Drawing
  import opened History
  import opened Undo
  import opened Frames
  import opened FrameCoding
  import opened Decoding
  import Raster

  /* Packing. */

  /** Words to hold the bits, with two more so that the reader, which is two words ahead, reaches the end. */
  function WordCount(n: nat): nat { n / 32 + 3 }

  function Filled(bits: seq<bool>): (r: seq<bool>)
    ensures |r| == 32 * WordCount(|bits|) && bits <= r
  {
    bits + Zeros(32 * WordCount(|bits|) - |bits|)
  }

  function WordOf(bits: seq<bool>, i: nat): Word
    requires i < WordCount(|bits|)
  {
    Filled(bits)[32 * i..32 * i + 32]
  }

  function ByteOf(w: Word, j: nat): (b: Byte)
    requires j < 4
  {
    EightBits(w[24 - 8 * j..32 - 8 * j]);
    Val(w[24 - 8 * j..32 - 8 * j])
  }

  lemma EightBits(b: seq<bool>)
    requires |b| == 8
    ensures Val(b) < 256
  {
    hide Val;
    SmallPowers();
    ValBound(b);
  }

  /** Each word least significant byte first. */
  function Pack(bits: seq<bool>): (data: seq<Byte>)
    ensures |data| == 4 * WordCount(|bits|)
  {
    seq(4 * WordCount(|bits|), i requires 0 <= i < 4 * WordCount(|bits|) => ByteOf(WordOf(bits, i / 4), i % 4))
  }

  lemma BytesMakeWord(w: Word)
    ensures LittleEndianWord([ByteOf(w, 0), ByteOf(w, 1), ByteOf(w, 2), ByteOf(w, 3)]) == w
  {
    hide Val, BitsOf;
    BitsOfVal(w[0..8]);
    BitsOfVal(w[8..16]);
    BitsOfVal(w[16..24]);
    BitsOfVal(w[24..32]);
    assert w == w[0..8] + w[8..16] + w[16..24] + w[24..32];
  }

  lemma PackedByte(bits: seq<bool>, i: nat, j: nat)
    requires i < WordCount(|bits|) && j < 4
    ensures Pack(bits)[4 * i + j] == ByteOf(WordOf(bits, i), j)
  {
    hide WordOf, ByteOf;
    assert (4 * i + j) / 4 == i && (4 * i + j) % 4 == j;
  }

  lemma WordAtOffset(data: seq<Byte>, i: nat)
    requires |data| % 4 == 0 && 4 * i + 4 <= |data|
    ensures Words(data)[i] == LittleEndianWord([data[4 * i], data[4 * i + 1], data[4 * i + 2], data[4 * i + 3]])
  {
    hide LittleEndianWord;
    assert data[4 * i..4 * i + 4] == [data[4 * i], data[4 * i + 1], data[4 * i + 2], data[4 * i + 3]];
  }

  lemma PackedWord(bits: seq<bool>, i: nat)
    requires i < WordCount(|bits|)
    ensures Words(Pack(bits))[i] == WordOf(bits, i)
  {
    hide Filled, ByteOf, LittleEndianWord, Pack, Words, WordOf;
    PackedByte(bits, i, 0);
    PackedByte(bits, i, 1);
    PackedByte(bits, i, 2);
    PackedByte(bits, i, 3);
    WordAtOffset(Pack(bits), i);
    BytesMakeWord(WordOf(bits, i));
  }

  /** Packed bits read back as the beginning of the bit stream. */
  lemma PackedBits(bits: seq<bool>)
    ensures |Words(Pack(bits))| == WordCount(|bits|) && Window(Words(Pack(bits)), 0, |bits|) == bits
  {
    hide Pack, Words;
    var buf := Words(Pack(bits));
    forall p | 0 <= p < |bits| ensures StreamBit(buf, p) == bits[p] {
      PackedWord(bits, p / 32);
      assert WordOf(bits, p / 32)[p % 32] == Filled(bits)[p];
    }
  }

  /* A frame from encoder to picture. */

  function StartCoder(tile: seq<int>): Coder {
    Coder(0, 0, 0, [0x008080, 0xFF8080, 0x808080, 0xC08080], Raster.Place(0, 0), tile)
  }

  function GridFor(h: Header): Grid { Grid(h.mode, GridTiles(h.dstX, h.mode), GridTiles(h.dstY, h.mode), h.quant) }

  /** Blocks that can be encoded for a header. */
  ghost predicate Encodes(h: Header, blocks: seq<Block>) {
    Quants(h.quant) && Codable(GridFor(h), StartCoder(FreshTile()), blocks)
  }

  ghost function Encoded(h: Header, blocks: seq<Block>, mark: nat): seq<Byte>
    requires Encodes(h, blocks)
  {
    Pack(FrameBits(GridFor(h), StartCoder(FreshTile()), blocks, mark))
  }

  /** The tiles of the blocks, for a decoder whose tile buffer starts with the given contents. */
  ghost function TilesOf(h: Header, blocks: seq<Block>, tile: seq<int>): (es: seq<Event>)
    requires Encodes(h, blocks) && |tile| == 768
    ensures |es| == |blocks|
  {
    BlocksIgnoreTile(GridFor(h), StartCoder(FreshTile()), StartCoder(tile), blocks);
    EventsFor(GridFor(h), StartCoder(tile), blocks)
  }

  /** The bit position at which block i starts, and for i == |blocks| the closing mark. */
  ghost function StartBit(h: Header, blocks: seq<Block>, i: nat): nat
    requires Encodes(h, blocks) && i <= |blocks|
  {
    StartOf(GridFor(h), StartCoder(FreshTile()), 0, blocks, i)
  }

  /** Whether the loop gets to a bit position under a header that announces no more words than there are. */
  predicate Reached(h: Header, p: nat) { p / 32 + 2 < h.compressSize / 4 }

  lemma GridAgrees(h: Header, k: Coders, data: seq<Byte>)
    ensures GridOf(ContextOf(h, k, data)) == GridFor(h)
  {
    hide GridTiles, Words;
  }

  /** The tiles are as long as the frame's mode asks for. */
  lemma {:induction false} EventsProper(g: Grid, s: Coder, blocks: seq<Block>, f: Frame)
    requires Quants(g.quant) && Codable(g, s, blocks) && f.mode == g.mode
    ensures AllProper(f, EventsFor(g, s, blocks))
    decreases |blocks|
  {
    hide BlockCodable, AfterBlock, TileAfter;
    if blocks != [] { EventsProper(g, AfterBlock(g, s, blocks[0]), blocks[1..], f); }
  }

  /** What the decoder sees of an encoded frame. */
  lemma EncodedContext(h: Header, k: Coders, blocks: seq<Block>, mark: nat)
    requires Legal(h, k) && Encodes(h, blocks)
    ensures var x := ContextOf(h, k, Encoded(h, blocks, mark));
            var bits := FrameBits(GridFor(h), StartCoder(FreshTile()), blocks, mark);
            && Set(x) && GridOf(x) == GridFor(h) && x.words == h.compressSize / 4
            && |x.buf| == WordCount(|bits|) && Window(x.buf, 0, |bits|) == bits
  {
    hide Coding, Codable, FrameBits, Pack, Words, Window, FrameOf, GridTiles, Quants;
    PackedBits(FrameBits(GridFor(h), StartCoder(FreshTile()), blocks, mark));
    GridAgrees(h, k, Encoded(h, blocks, mark));
  }

  /** The block loop on an encoded frame. */
  ghost function EncodedRun(h: Header, k: Coders, blocks: seq<Block>, mark: nat, tile: seq<int>, fuel: nat): Ran
    requires Legal(h, k) && Encodes(h, blocks) && |tile| == 768
  {
    hide Coding, Encodes, Encoded, Quants, ContextOf;
    EncodedContext(h, k, blocks, mark);
    RunBlocks(ContextOf(h, k, Encoded(h, blocks, mark)), Start(tile), fuel)
  }

  /** An encoded frame, run: with n the number of blocks reached, exactly the first n tiles, and the closing mark
      if it is reached. */
  lemma EncodedFrameRuns(h: Header, k: Coders, blocks: seq<Block>, mark: nat, tile: seq<int>, n: nat, fuel: nat)
    requires Legal(h, k) && Encodes(h, blocks) && Closing(mark) && |tile| == 768 && n <= |blocks| <= fuel
    requires h.compressSize / 4 <= |Words(Encoded(h, blocks, mark))| && ReachedCount(h, blocks, n)
    ensures var r := EncodedRun(h, k, blocks, mark, tile, fuel);
            && r.events == TilesOf(h, blocks, tile)[..n]
            && r.outcome == if Reached(h, StartBit(h, blocks, |blocks|)) then ClosingOutcome(mark) else Exhausted
  {
    hide Coding, Codable, BlocksBits, EventsFor, Words, RunBlocks, Window, BitsOf, Quants, StartOf, Begun, At,
      GridTiles,
      Encoded, ReachedCount;
    var g, first, t := GridFor(h), StartCoder(FreshTile()), StartCoder(tile);
    BlocksIgnoreTile(g, first, t, blocks);
    EncodedContext(h, k, blocks, mark);
    var x := ContextOf(h, k, Encoded(h, blocks, mark));
    FrameRoundTrip(x, Start(tile), t, blocks, mark, fuel);
    BegunCount(x, h, t, blocks, n);
    EndOf(g, first, 0, blocks);
    IndexAt(x.buf, |BlocksBits(g, first, blocks)|, x.words);
    EndReached(h, blocks, n);
  }

  /** Exactly the first n blocks are reached. */
  ghost predicate ReachedCount(h: Header, blocks: seq<Block>, n: nat)
    requires Encodes(h, blocks)
  {
    n <= |blocks| && forall i :: 0 <= i < |blocks| ==> (Reached(h, StartBit(h, blocks, i)) <==> i < n)
  }

  lemma {:induction false} StartIgnoresTile(g: Grid, s: Coder, t: Coder, p: nat, blocks: seq<Block>, i: nat)
    requires Quants(g.quant) && t == s.(tile := t.tile) && |t.tile| == 768 && Codable(g, s, blocks) && i <= |blocks|
    requires Codable(g, t, blocks)
    ensures StartOf(g, t, p, blocks, i) == StartOf(g, s, p, blocks, i)
    decreases i
  {
    hide BlockBits, BlockCodable, AfterBlock, Quants;
    if i > 0 {
      BlockIgnoresTile(g, s, t, blocks[0]);
      var q := p + |BlockBits(g.mode, s, blocks[0])|;
      StartIgnoresTile(g, AfterBlock(g, s, blocks[0]), AfterBlock(g, t, blocks[0]), q, blocks[1..], i - 1);
    }
  }

  lemma BegunOne(x: Context, h: Header, t: Coder, blocks: seq<Block>, n: nat, i: nat)
    requires |x.buf| >= 2 && x.words == h.compressSize / 4 <= |x.buf| && GridOf(x) == GridFor(h) && Encodes(h, blocks)
    requires t == StartCoder(t.tile) && |t.tile| == 768 && Codable(GridOf(x), t, blocks)
    requires ReachedCount(h, blocks, n) && i < |blocks|
    ensures i < Begun(x, t, 0, blocks) <==> i < n
  {
    hide Codable, StartOf, Begun, Quants;
    BegunExactly(x, t, 0, blocks, i);
    StartIgnoresTile(GridOf(x), StartCoder(FreshTile()), t, 0, blocks, i);
    assert Reached(h, StartBit(h, blocks, i)) <==> i < n;
  }

  lemma BegunCount(x: Context, h: Header, t: Coder, blocks: seq<Block>, n: nat)
    requires |x.buf| >= 2 && x.words == h.compressSize / 4 <= |x.buf| && GridOf(x) == GridFor(h) && Encodes(h, blocks)
    requires t == StartCoder(t.tile) && |t.tile| == 768 && Codable(GridOf(x), t, blocks) && ReachedCount(h, blocks, n)
    ensures Begun(x, t, 0, blocks) == n
  {
    hide Codable, Begun, Quants;
    var b := Begun(x, t, 0, blocks);
    if b < |blocks| { BegunOne(x, h, t, blocks, n, b); }
    if n < |blocks| { BegunOne(x, h, t, blocks, n, n); }
  }

  /** The mark is reached only after all blocks. */
  lemma EndReached(h: Header, blocks: seq<Block>, n: nat)
    requires Encodes(h, blocks) && ReachedCount(h, blocks, n)
    ensures Reached(h, StartBit(h, blocks, |blocks|)) ==> n == |blocks|
  {
    hide Codable, StartOf, Quants;
    if n < |blocks| {
      StartsGrow(GridFor(h), StartCoder(FreshTile()), 0, blocks, n);
      assert !Reached(h, StartBit(h, blocks, n));
    }
  }

  lemma {:induction false} StartsGrow(g: Grid, s: Coder, p: nat, blocks: seq<Block>, i: nat)
    requires Quants(g.quant) && Codable(g, s, blocks) && i <= |blocks|
    ensures StartOf(g, s, p, blocks, i) <= StartOf(g, s, p, blocks, |blocks|)
    decreases i
  {
    hide BlockBits, BlockCodable, AfterBlock, Quants;
    if i > 0 {
      StartsGrow(g, AfterBlock(g, s, blocks[0]), p + |BlockBits(g.mode, s, blocks[0])|, blocks[1..], i - 1);
    }
  }

  /** A header that announces all of the packed words reaches every block and the mark. */
  lemma AllReached(h: Header, blocks: seq<Block>, mark: nat)
    requires Encodes(h, blocks) && h.compressSize == |Encoded(h, blocks, mark)|
    ensures ReachedCount(h, blocks, |blocks|) && Reached(h, StartBit(h, blocks, |blocks|))
  {
    hide Codable, BlocksBits, StartOf, Quants, GridTiles, BitsOf;
    var g, first := GridFor(h), StartCoder(FreshTile());
    EndOf(g, first, 0, blocks);
    var end := StartBit(h, blocks, |blocks|);
    Later(end, |FrameBits(g, first, blocks, mark)|);
    forall i | 0 <= i < |blocks| ensures Reached(h, StartBit(h, blocks, i)) {
      StartsGrow(g, first, 0, blocks, i);
      Later(StartBit(h, blocks, i), end);
    }
  }

  lemma TilesProper(h: Header, blocks: seq<Block>, tile: seq<int>, n: nat)
    requires Encodes(h, blocks) && |tile| == 768 && n <= |blocks|
    ensures AllProper(FrameOf(h), TilesOf(h, blocks, tile)[..n])
  {
    hide Codable, EventsFor, Quants, GridTiles;
    BlocksIgnoreTile(GridFor(h), StartCoder(FreshTile()), StartCoder(tile), blocks);
    EventsProper(GridFor(h), StartCoder(tile), blocks, FrameOf(h));
  }

  lemma EncodedLong(h: Header, blocks: seq<Block>, mark: nat)
    requires Encodes(h, blocks)
    ensures |Words(Encoded(h, blocks, mark))| >= 3
    ensures 4 * |Words(Encoded(h, blocks, mark))| == |Encoded(h, blocks, mark)|
  {
    hide Codable, FrameBits, Quants;
    PackedBits(FrameBits(GridFor(h), StartCoder(FreshTile()), blocks, mark));
  }

  /** Any blocks that can be encoded, packed into bytes, decode to exactly the picture on which the tiles of the
      blocks that are reached have been drawn in order: those that start before the last two announced words.
      All block types, all chroma modes, any earlier state. */
  lemma EncodedFrameDraws(s: State, h: Header, k: Coders, blocks: seq<Block>, n: nat, fuel: nat)
    requires Consistent(s) && Legal(h, k) && h.dstX > 0 && h.dstY > 0 && Encodes(h, blocks) && fuel >= |blocks|
    requires h.compressSize <= |Encoded(h, blocks, 9)| && ReachedCount(h, blocks, n)
    ensures var (r, result) := Decode(s, h, k, Encoded(h, blocks, 9), fuel);
            var p := Prepared(s, h);
            var tiles := TilesOf(h, blocks, p.tile)[..n];
            && AllProper(FrameOf(h), tiles) && result == Ok
            && r.canvas == PaintAll(FrameOf(h), p.canvas, tiles)
  {
    assert n <= |blocks|;
    hide Coding, Encodes, Encoded, TilesOf, ReachedCount, StartBit, Words, PaintAll, RunBlocks, FrameOf, GridTiles,
      Quants;
    EncodedLong(h, blocks, 9);
    var p := Prepared(s, h);
    TilesProper(h, blocks, p.tile, n);
    EncodedFrameRuns(h, k, blocks, 9, p.tile, n, fuel);
  }

  /** With every packed word announced, all tiles are drawn. */
  lemma EncodedFrameComplete(s: State, h: Header, k: Coders, blocks: seq<Block>, fuel: nat)
    requires Consistent(s) && Legal(h, k) && h.dstX > 0 && h.dstY > 0 && Encodes(h, blocks) && fuel >= |blocks|
    requires h.compressSize == |Encoded(h, blocks, 9)|
    ensures var (r, result) := Decode(s, h, k, Encoded(h, blocks, 9), fuel);
            var p := Prepared(s, h);
            var tiles := TilesOf(h, blocks, p.tile);
            && AllProper(FrameOf(h), tiles) && result == Ok
            && r.canvas == PaintAll(FrameOf(h), p.canvas, tiles)
  {
    hide Legal, Encodes, Encoded, TilesOf, ReachedCount, StartBit, PaintAll, Decode, FrameOf;
    AllReached(h, blocks, 9);
    EncodedFrameDraws(s, h, k, blocks, |blocks|, fuel);
    var tiles := TilesOf(h, blocks, Prepared(s, h).tile);
    assert tiles[..|blocks|] == tiles;
  }

  /* Encoded 4:4:4 frames, repeated or given up. */

  lemma EncodedTiles(h: Header, k: Coders, blocks: seq<Block>, mark: nat, fuel: nat)
    requires Encodes(h, blocks) && Direct(h, k, Encoded(h, blocks, mark)) && Closing(mark) && fuel >= |blocks|
    requires h.compressSize == |Encoded(h, blocks, mark)|
    ensures var run := Decoding.Tiles(h, k, Encoded(h, blocks, mark), fuel);
            run.events == TilesOf(h, blocks, FreshTile()) && run.outcome == ClosingOutcome(mark)
  {
    hide Coding, Encodes, Encoded, TilesOf, ReachedCount, StartBit, Words, RunBlocks, Quants;
    AllReached(h, blocks, mark);
    EncodedLong(h, blocks, mark);
    EncodedFrameRuns(h, k, blocks, mark, FreshTile(), |blocks|, fuel);
    var tiles := TilesOf(h, blocks, FreshTile());
    assert tiles[..|blocks|] == tiles;
  }

  /** An encoded frame that ends in an advance block fails with that block's code and leaves the picture as it
      was, from every earlier state of its size, if and only if its tiles can be rolled back. */
  lemma EncodedAbortExactly(h: Header, k: Coders, blocks: seq<Block>, mark: nat, fuel: nat)
    requires Encodes(h, blocks) && Direct(h, k, Encoded(h, blocks, mark)) && Closing(mark) && mark != 9 &&
             fuel >= |blocks|
    requires h.compressSize == |Encoded(h, blocks, mark)|
    ensures AllProper(FrameOf(h), TilesOf(h, blocks, FreshTile()))
    ensures forall s :: Consistent(s) ==> Decode(s, h, k, Encoded(h, blocks, mark), fuel).1 == AdvanceBlock(mark)
    ensures (forall s :: Matching(s, h) ==> Decode(s, h, k, Encoded(h, blocks, mark), fuel).0.canvas.fb == s.canvas.fb)
            <==> RollbackSafe(FrameOf(h), TilesOf(h, blocks, FreshTile()))
  {
    hide Legal, Encodes, Encoded, TilesOf, Words, Decode, RollbackSafe, FrameOf, Decoding.Tiles;
    EncodedTiles(h, k, blocks, mark, fuel);
    AbortRestoresExactly(h, k, Encoded(h, blocks, mark), fuel);
    forall s | Consistent(s) ensures Decode(s, h, k, Encoded(h, blocks, mark), fuel).1 == AdvanceBlock(mark) {
      DecodeDrawsTiles(s, h, k, Encoded(h, blocks, mark), fuel);
    }
  }

  /** A complete encoded frame can be decoded twice without change, from every earlier state, if and only if its
      tiles are drift-free. */
  lemma EncodedTwiceExactly(h: Header, k: Coders, blocks: seq<Block>, fuel: nat)
    requires Encodes(h, blocks) && Direct(h, k, Encoded(h, blocks, 9)) && fuel >= |blocks|
    requires h.compressSize == |Encoded(h, blocks, 9)|
    ensures AllProper(FrameOf(h), TilesOf(h, blocks, FreshTile())) && FrameOf(h).mode == 0
    ensures (forall s :: Proper8(s) ==> Steady(s, h, k, Encoded(h, blocks, 9), fuel)) <==>
            DriftFree(FrameOf(h), TilesOf(h, blocks, FreshTile()))
  {
    DirectFrame(h, k, Encoded(h, blocks, 9));
    hide Legal, Encodes, Encoded, TilesOf, Words, Steady, DriftFree, FrameOf, Decoding.Tiles, Proper8;
    EncodedTiles(h, k, blocks, 9, fuel);
    DecodeTwiceExactly(h, k, Encoded(h, blocks, 9), fuel);
  }
}
