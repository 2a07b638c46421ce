/** The ASPEED decoder object: decoder.go and decompress.go on mutable buffers, proved against the
    functions of Frames and Decoding. That every index below verifies is the index-safety result:
    no header and no data reach the source's panic recovery. */
module AspeedDecoder {
  import opened Bits
  import opened BitReading
  import opened Tables
  import opened Huffman
  import opened Entropy
  import opened Idct
  import opened Colour
  import opened Drawing
  import opened Undo
  import opened Frames
  import opened Decoding
  import opened Painting
  import Raster

  method InitHuffmanTables() returns (k: Coders)
    ensures Coding(k)
  {
    hide *;
    DcLumaCertified(); AcLumaCertified(); DcChromaCertified(); AcChromaCertified();
    CertifiedLoadable(DC_LUMA, DC_LUMA_SUMS, DC_LUMA_FILL);
    CertifiedLoadable(AC_LUMA, AC_LUMA_SUMS, AC_LUMA_FILL);
    CertifiedLoadable(DC_CHROMA, DC_CHROMA_SUMS, DC_CHROMA_FILL);
    CertifiedLoadable(AC_CHROMA, AC_CHROMA_SUMS, AC_CHROMA_FILL);
    var dc0 := LoadHuffmanTable(DC_LUMA);
    var ac0 := LoadHuffmanTable(AC_LUMA);
    var dc1 := LoadHuffmanTable(DC_CHROMA);
    var ac1 := LoadHuffmanTable(AC_CHROMA);
    k := Coders(dc0, ac0, dc1, ac1);
    LoadedStandard(k);
  }

  lemma LoadedStandard(k: Coders)
    requires Loaded(k.dcLuma, DC_LUMA) && Loaded(k.acLuma, AC_LUMA)
    requires Loaded(k.dcChroma, DC_CHROMA) && Loaded(k.acChroma, AC_CHROMA)
    ensures Coding(k)
  {
    hide Loaded, Usable;
    forall n | 0 <= n < 12 ensures 0 <= DC_LUMA.values[n] <= 11 { DcLumaValue(n); }
    forall n | 0 <= n < 12 ensures 0 <= DC_CHROMA.values[n] <= 11 { DcChromaValue(n); }
    forall n | 0 <= n < 162 ensures 0 <= AC_LUMA.values[n] <= 255 { AcLumaValue(n); }
    forall n | 0 <= n < 162 ensures 0 <= AC_CHROMA.values[n] <= 255 { AcChromaValue(n); }
    LoadedUsable(k.dcLuma, DC_LUMA, 11);
    LoadedUsable(k.dcChroma, DC_CHROMA, 11);
    LoadedUsable(k.acLuma, AC_LUMA, 255);
    LoadedUsable(k.acChroma, AC_CHROMA, 255);
  }

  class Decoder {
    var width: nat
    var height: nat
    var fb: array<Byte>
    var prev: array<int>

    const coeff: array<int>
    const tile: array<int>
    const workspace: array<int>
    const br: BitReader
    const coders: Coders
    const colours: ColourTables

    /* The frame being decoded. */
    var frame: Frame
    var cols: nat
    var rows: nat
    var quant: seq<seq<int>>
    var words: nat
    var txb: nat
    var tyb: nat
    var dcY: int
    var dcCb: int
    var dcCr: int
    var vqColor: seq<nat>
    var vqIndex: seq<nat>

    /** Buffer sizes and the absence of aliasing. */
    ghost predicate Buffers()
      reads this
    {
      && coeff.Length == 384 && tile.Length == 768 && workspace.Length == 64
      && coeff != tile && coeff != workspace && tile != workspace
      && prev != coeff && prev != tile && prev != workspace
      && fb as object != coeff && fb as object != tile && fb as object != workspace && fb as object != prev
      && fb.Length == 4 * (width * height) && prev.Length == 3 * (width * height)
    }

    ghost predicate Valid()
      reads this, br
    {
      Buffers() && br.Valid() && Coding(coders) && Initialised(colours)
    }

    /** In the middle of a frame. */
    ghost predicate Busy()
      reads this, br
    {
      && Valid() && Quants(quant) && |br.buf| >= 3
      && |vqColor| == 4 && |vqIndex| == 4 && forall i :: 0 <= i < 4 ==> vqIndex[i] < 4
    }

    ghost function Current(): Cursor
      reads this, br, tile
    {
      Cursor(br.pos, dcY, dcCb, dcCr, Raster.Place(txb, tyb), vqColor, vqIndex, tile[..])
    }

    ghost function Setting(): Context
      reads this, br
    {
      Context(frame, cols, rows, quant, coders, br.buf, words)
    }

    ghost function Persistent(): State
      reads this, fb, prev, tile
    {
      State(width, height, Canvas(fb[..], prev[..]), tile[..])
    }

    constructor ()
      ensures Valid() && Persistent() == State(0, 0, Canvas([], []), FreshTile())
    {
      var huffman := InitHuffmanTables();
      var tables := InitTables();
      width, height := 0, 0;
      fb := new Byte[0];
      prev := new int[0];
      coeff := new int[384](_ => 0);
      tile := new int[768](_ => 0);
      workspace := new int[64](_ => 0);
      br := new BitReader();
      coders := huffman;
      colours := tables;
      frame := Frame(0, 0, 0, 0, 0, 0);
      cols, rows, words, txb, tyb := 1, 1, 0, 0, 0;
      quant := [];
      dcY, dcCb, dcCr := 0, 0, 0;
      vqColor, vqIndex := [0, 0, 0, 0], [0, 0, 0, 0];
    }

    /** Decode one data unit and transform it into the tile. */
    method DecodeUnitInto(plane: Plane, offset: nat, q: nat)
      requires Busy() && offset + 64 <= 384 && q < 4
      modifies `dcY, `dcCb, `dcCr, br, coeff, workspace, tile
      ensures Busy() && Setting() == old(Setting())
      ensures Current() == DecodePlane(Setting(), old(Current()), plane, offset, q)
    {
      hide Coding, Initialised, Samples, DecodeUnit, At, Window;
      assert Usable(coders.dcLuma, 11) && Usable(coders.acLuma, 255) && Usable(coders.dcChroma, 11) &&
        Usable(coders.acChroma, 255) by {
        CodersUsable(coders);
      }
      assert |colours.limit| == 1408 && forall i :: 0 <= i < 1408 ==> colours.limit[i] == RangeAt(i) by {
        LimitLoaded(colours);
      }
      ghost var c := Current();
      ghost var before := tile[..];
      if plane == PlaneY {
        dcY := DecodeHuffmanDataUnit(br, coders.dcLuma, coders.acLuma, dcY, coeff, offset);
      } else if plane == PlaneCb {
        dcCb := DecodeHuffmanDataUnit(br, coders.dcChroma, coders.acChroma, dcCb, coeff, offset);
      } else {
        dcCr := DecodeHuffmanDataUnit(br, coders.dcChroma, coders.acChroma, dcCr, coeff, offset);
      }
      InverseDct(coeff, offset, quant[q], workspace, colours.limit, tile);
      assert tile[..] == Splice(before, offset, Samples(coeff[offset..offset + 64], quant[q]));
    }

    method ReadThree(q: nat)
      requires Busy() && q < 3
      modifies `dcY, `dcCb, `dcCr, br, coeff, workspace, tile
      ensures Busy() && Setting() == old(Setting())
      ensures Current() == DecodeThree(Setting(), old(Current()), q)
    {
      hide DecodePlane, Coding, Initialised, BitReader.Valid;
      DecodeUnitInto(PlaneY, 0, q);
      DecodeUnitInto(PlaneCb, 64, q + 1);
      DecodeUnitInto(PlaneCr, 128, q + 1);
    }

    method ReadSix(q: nat)
      requires Busy() && q < 3
      modifies `dcY, `dcCb, `dcCr, br, coeff, workspace, tile
      ensures Busy() && Setting() == old(Setting())
      ensures Current() == DecodeSix(Setting(), old(Current()), q)
    {
      hide DecodePlane, Coding, Initialised, BitReader.Valid;
      DecodeUnitInto(PlaneY, 0, q);
      DecodeUnitInto(PlaneY, 64, q);
      DecodeUnitInto(PlaneY, 128, q);
      DecodeUnitInto(PlaneY, 192, q);
      DecodeUnitInto(PlaneCb, 256, q + 1);
      DecodeUnitInto(PlaneCr, 320, q + 1);
    }

    /** Read one colour selection of a VQ block. */
    method ReadVqColour(i: nat)
      requires Busy() && i < 4
      modifies `vqColor, `vqIndex, br
      ensures Busy() && Setting() == old(Setting())
      ensures Current() == VqOne(Setting(), old(Current()), i)
    {
      hide Coding, Initialised, At, Window, Val;
      VqFields(br.buf, br.pos, br.reg0);
      vqIndex := vqIndex[i := Field(br.reg0, 1, 3)];
      var updateFlag := br.reg0[0];
      if !updateFlag {
        br.UpdateReadBuf(3);
      } else {
        vqColor := vqColor[vqIndex[i] := Field(br.reg0, 3, 27)];
        br.UpdateReadBuf(27);
      }
    }

    method ReadVqHeader(n: nat)
      requires Busy() && n <= 4
      modifies `vqColor, `vqIndex, br
      ensures Busy() && Setting() == old(Setting())
      ensures Current() == VqHeader(Setting(), old(Current()), 0, n)
    {
      hide VqOne, Coding, Initialised, BitReader.Valid;
      for i := 0 to n
        invariant Busy() && Setting() == old(Setting())
        invariant VqHeader(Setting(), Current(), i, n) == VqHeader(Setting(), old(Current()), 0, n)
      {
        ReadVqColour(i);
      }
    }

    method PutColour(n: nat, color: nat)
      requires tile.Length == 768 && n < 64
      modifies tile
      ensures forall i :: 0 <= i < 768 ==>
                tile[i] == if i == n then color / 65536 % 256 else if i == n + 64 then color / 256 % 256
                           else if i == n + 128 then color % 256 else old(tile[i])
    {
      tile[n] := color / 65536 % 256;
      tile[n + 64] := color / 256 % 256;
      tile[n + 128] := color % 256;
    }

    /** Fill the tile from the selected colours, by a bitmap unless there is only one. */
    method ReadVqTile(bits: nat)
      requires Busy() && bits <= 2
      modifies br, tile
      ensures Busy() && Setting() == old(Setting())
      ensures Current() == VqTile(Setting(), old(Current()), bits)
    {
      hide Coding, Initialised, At, Window, Val, Wrap16, Selected;
      ghost var x, c := Setting(), Current();
      for n := 0 to 64
        invariant Busy() && Setting() == x && br.pos == c.pos + bits * n
        invariant forall i :: 0 <= i < 768 ==>
                    tile[i] == if i < 192 && i % 64 < n then VqEntry(x, c, bits, i) else c.tile[i]
      {
        var sel := 0;
        SelectedBy(x, c, bits, n);
        if bits > 0 { sel := br.LookKbits(bits); }
        var color := vqColor[vqIndex[sel]];
        PutColour(n, color);
        if bits > 0 { br.SkipKbits(bits); }
        VqEntries(x, c, bits, n);
      }
      assert tile[..] == VqTile(x, c, bits).tile;
    }

    /** Remember or draw the tile just decoded. */
    method ShowTile(pass: Pass, ghost e: Event)
      requires Valid() && e == Event(pass, txb, tyb, tile[..TileSize(frame.mode)])
      modifies fb, prev
      ensures Valid() && Canvas(fb[..], prev[..]) == Paint(frame, old(Canvas(fb[..], prev[..])), e)
    {
      hide Coding, Apply, Initialised, Neutral, BitReader.Valid;
      var neutral := IsNeutralBlock(frame, tile, e);
      if neutral {
        if frame.mode == 0 { UpdatePreviousYUV(frame, txb, tyb, tile, prev, e, fb[..]); }
      } else if pass == First {
        if frame.mode == 0 {
          ConvertNarrow(frame, txb, tyb, tile, fb, prev, colours, e);
        } else {
          ConvertWide(frame, txb, tyb, tile, fb, colours, e, prev[..]);
        }
      } else if frame.mode == 0 {
        ConvertPass2(frame, txb, tyb, tile, fb, prev, colours, e);
      }
    }

    method MoveBlockIndex()
      modifies `txb, `tyb
      ensures Raster.Place(txb, tyb) == Raster.Move(cols, rows, old(Raster.Place(txb, tyb)))
    {
      txb := txb + 1;
      if txb >= cols {
        tyb := tyb + 1;
        if tyb >= rows { tyb := 0; }
        txb := 0;
      }
    }

    /** The tile of a block whose type, modulo 8, is t. */
    method ReadBody(t: nat)
      requires Busy() && t < 8 && t != 1 && t != 3
      modifies `dcY, `dcCb, `dcCr, `vqColor, `vqIndex, br, coeff, workspace, tile
      ensures Busy() && Setting() == old(Setting())
      ensures Current() == Body(Setting(), old(Current()), t)
    {
      hide Coding, Initialised, BitReader.Valid, DecodeThree, DecodeSix, VqHeader, VqTile;
      match t
      case 0 => if frame.mode == 1 { ReadSix(0); } else { ReadThree(0); }
      case 2 => ReadThree(2);
      case 4 => if frame.mode == 1 { ReadSix(2); } else { ReadThree(2); }
      case 5 => ReadVqHeader(1); ReadVqTile(0);
      case 6 => ReadVqHeader(2); ReadVqTile(1);
      case _ => ReadVqHeader(4); ReadVqTile(2);
    }

    /** Skip blocks set the tile position; every block saves the place it is about to draw. */
    method Position(skip: bool)
      requires Busy() && skip == (BlockType(br.buf, br.pos) >= 8)
      modifies `txb, `tyb, br
      ensures Busy() && Setting() == old(Setting())
      ensures Current() == Positioned(Setting(), old(Current()))
    {
      hide Coding, Initialised, At, Window, Val, BlockType;
      if skip {
        SkipFields(br.buf, br.pos, br.reg0);
        txb := Field(br.reg0, 4, 12);
        tyb := Field(br.reg0, 12, 20);
        br.UpdateReadBuf(20);
      } else {
        br.UpdateReadBuf(4);
      }
    }

    /** Position, save and read one block, before anything is drawn. */
    method ReadBlock(t: nat) returns (saved: Saved)
      requires Busy() && frame.width == width > 0 && t == BlockType(br.buf, br.pos) && t % 8 != 1 && t % 8 != 3
      modifies `txb, `tyb, `dcY, `dcCb, `dcCr, `vqColor, `vqIndex, br, coeff, workspace, tile
      ensures Busy() && Setting() == old(Setting())
      ensures Current() == Body(Setting(), Positioned(Setting(), old(Current())), t % 8)
      ensures saved == Save(width, fb[..], Base(width, txb, tyb))
    {
      hide Coding, Initialised, BitReader.Valid, Body, Positioned, Save, At, BlockType, Base;
      Position(t >= 8);
      saved := SaveBlock(frame, fb, txb, tyb);
      ReadBody(t % 8);
    }

    /** One block that decodes to a tile: save, read, show, move on. */
    method OneBlock(t: nat) returns (saved: Saved, ghost e: Event)
      requires Busy() && frame.width == width > 0 && t == BlockType(br.buf, br.pos)
      requires t != 1 && t != 3 && t != 9 && t != 11 && At(br.buf, br.pos).index < words
      modifies `txb, `tyb, `dcY, `dcCb, `dcCr, `vqColor, `vqIndex, br, coeff, workspace, tile, fb, prev
      ensures Busy() && Setting() == old(Setting())
      ensures StepBlock(Setting(), old(Current())) == Next(e, Current())
      ensures Canvas(fb[..], prev[..]) == Paint(frame, old(Canvas(fb[..], prev[..])), e)
      ensures saved == Save(width, old(fb[..]), Base(width, e.tx, e.ty))
    {
      hide Coding, Initialised, BitReader.Valid, Body, Positioned, Paint, Save, At, BlockType, Raster.Move, Base;
      saved := ReadBlock(t);
      e := EventOf(Setting(), Current(), t % 8);
      ShowTile(if t % 8 == 2 then Second else First, e);
      MoveBlockIndex();
    }

    method CurrentType() returns (t: nat)
      requires Busy()
      ensures t == BlockType(br.buf, br.pos) && (br.index < words <==> At(br.buf, br.pos).index < words)
    {
      hide Coding, Initialised, At, BlockType;
      SkipFields(br.buf, br.pos, br.reg0);
      t := Field(br.reg0, 0, 4);
    }

    /** The block loop with its undo log, for at most fuel blocks. */
    method DecodeBlocks(fuel: nat) returns (outcome: Outcome)
      requires Busy() && frame.width == width > 0
      modifies `txb, `tyb, `dcY, `dcCb, `dcCr, `vqColor, `vqIndex, br, coeff, workspace, tile, fb, prev
      ensures Valid()
      ensures var r := RunBlocks(old(Setting()), old(Current()), fuel);
              outcome == r.outcome && Persistent() == Finish(frame, old(Persistent()), r)
    {
      hide Coding, Initialised, StepBlock, Paint, PaintAll, Log, Save, BlockType, At, RunBlocks, Finish, Prepend,
        AllProper, Base;
      ghost var x, c, s := Setting(), Current(), Persistent();
      ghost var target := RunBlocks(x, c, fuel);
      var log: seq<Saved> := [];
      ghost var es: seq<Event> := [];
      var left := fuel;
      Begins(frame, s.canvas, target);
      while br.index < words
        invariant Busy() && Setting() == x && AllProper(frame, es)
        invariant Canvas(fb[..], prev[..]) == PaintAll(frame, s.canvas, es) && log == Log(frame, s.canvas, es)
        invariant target == Prepend(es, RunBlocks(x, Current(), left))
        decreases left
      {
        var blockType := CurrentType();
        ghost var d := Current();
        RunCases(x, d, left);
        if blockType == 1 || blockType == 3 || blockType == 11 {
          Ends(frame, s, es, d, Advance(blockType));
          RestoreBlocks(frame, fb, log);
          return Advance(blockType);
        } else if blockType == 9 {
          Ends(frame, s, es, d, FrameEnd);
          return FrameEnd;
        } else if left == 0 {
          Ends(frame, s, es, d, OutOfFuel);
          return OutOfFuel;
        }
        var saved, e := OneBlock(blockType);
        Continues(frame, s.canvas, es, e, RunBlocks(x, Current(), left - 1));
        es := es + [e];
        log := log + [saved];
        left := left - 1;
      }
      assert br.index == At(br.buf, br.pos).index;
      RunCases(x, Current(), left);
      Ends(frame, s, es, Current(), Exhausted);
      return Exhausted;
    }

    /** Sizes and tile grid of a frame. */
    method SetGeometry(h: Header)
      modifies `frame, `cols, `rows
      ensures frame == FrameOf(h)
      ensures cols == GridTiles(h.dstX, h.mode) && rows == GridTiles(h.dstY, h.mode)
    {
      hide Raster.Pad, Raster.Tiles;
      var srcW, srcH := h.srcX, h.srcY;
      if srcW <= 0 { srcW := h.dstX; }
      if srcH <= 0 { srcH := h.dstY; }
      var unit := if h.mode == 1 then 16 else 8;
      frame := Frame(h.dstX, h.dstY, srcW, srcH, Raster.Pad(srcH, unit), h.mode);
      var step := if h.mode == 0 then 8 else 16;
      cols := Raster.Tiles(Raster.Pad(h.dstX, unit), step);
      rows := Raster.Tiles(Raster.Pad(h.dstY, unit), step);
    }

    /** VQ cache, predictors, position and bit reader at the start of a frame. */
    method StartFrame(h: Header, buf: seq<Word>)
      requires Valid() && Quants(h.quant) && |buf| >= 3
      modifies `quant, `words, `txb, `tyb, `dcY, `dcCb, `dcCr, `vqColor, `vqIndex, br
      ensures Busy() && Current() == Start(tile[..])
      ensures quant == h.quant && words == h.compressSize / 4 && br.buf == buf
    {
      hide Coding, Initialised, At, Start;
      ResetPalette();
      quant := h.quant;
      br.Seed(buf);
      txb, tyb := 0, 0;
      dcY, dcCb, dcCr := 0, 0, 0;
      words := h.compressSize / 4;
      StartIs(Current());
    }

    method ResetPalette()
      modifies `vqColor, `vqIndex
      ensures vqIndex == [0, 1, 2, 3] && vqColor == [0x008080, 0xFF8080, 0x808080, 0xC08080]
    {
      vqIndex, vqColor := [0, 1, 2, 3], [0x008080, 0xFF8080, 0x808080, 0xC08080];
    }

    method Resize(w: nat, h: nat)
      requires Valid()
      modifies `width, `height, `fb, `prev
      ensures Valid() && width == w && height == h && fresh(fb) && fresh(prev)
      ensures Canvas(fb[..], prev[..]) == Blank(w, h)
    {
      hide Coding, Initialised;
      width, height := w, h;
      fb := new Byte[4 * (w * h)](_ => 0);
      prev := new int[3 * (w * h)](_ => 0);
      assert fb[..] == Blank(w, h).fb;
      assert prev[..] == Blank(w, h).prev;
    }

    /** The blocks of a frame whose picture has been sized. */
    method DecodeWords(h: Header, buf: seq<Word>, fuel: nat) returns (outcome: Outcome)
      requires Valid() && Quants(h.quant) && |buf| >= 3 && width == h.dstX > 0
      modifies this, br, coeff, workspace, tile, fb, prev
      ensures Valid() && fb == old(fb) && prev == old(prev)
      ensures var x := Context(FrameOf(h), GridTiles(h.dstX, h.mode), GridTiles(h.dstY, h.mode), h.quant, coders,
              buf, h.compressSize / 4);
              var r := RunBlocks(x, Start(old(tile[..])), fuel);
              outcome == r.outcome && Persistent() == Finish(x.frame, old(Persistent()), r)
    {
      hide Coding, Initialised, RunBlocks, Finish, FrameOf, GridTiles, BitReader.Valid;
      SetGeometry(h);
      StartFrame(h, buf);
      FrameWidth(h);
      outcome := DecodeBlocks(fuel);
    }

    /** One frame. The new picture, references and tile buffer, and the result, are those of Decoding.Decode. */
    method Decode(h: Header, data: seq<Byte>, fuel: nat) returns (result: Result)
      requires Valid() && Quants(h.quant)
      modifies this, br, coeff, workspace, tile, fb, prev
      ensures Valid() && (fb == old(fb) || fresh(fb)) && (prev == old(prev) || fresh(prev))
      ensures Decoding.Decode(old(Persistent()), h, coders, data, fuel) == (Persistent(), result)
    {
      hide Coding, Initialised, RunBlocks, Finish, Words, FrameOf, BitReader.Valid;
      var w, t := h.dstX, h.dstY;
      if w <= 0 || t <= 0 { return InvalidResolution; }
      if width != w || height != t { Resize(w, t); }
      var buf := MakeIntArray(data);
      if |buf| < 3 { return TooShort; }
      var outcome := DecodeWords(h, buf, fuel);
      result := ResultOf(outcome);
    }

    /** One frame whose header announces no more words than its data holds: always finishes, and under every larger
        bound on the number of blocks the result is the same. */
    method DecodeFrame(h: Header, data: seq<Byte>) returns (result: Result)
      requires Valid() && Quants(h.quant) && h.compressSize / 4 <= |Words(data)|
      modifies this, br, coeff, workspace, tile, fb, prev
      ensures Valid() && (fb == old(fb) || fresh(fb)) && (prev == old(prev) || fresh(prev))
      ensures result != Unfinished
      ensures forall more :: more >= 8 * (h.compressSize / 4) ==>
                Decoding.Decode(old(Persistent()), h, coders, data, more) == (Persistent(), result)
    {
      hide Coding, Initialised, Words, BitReader.Valid, Decoding.Decode;
      ghost var s, k := Persistent(), coders;
      var fuel := 8 * (h.compressSize / 4);
      result := Decode(h, data, fuel);
      forall more | more >= fuel ensures Decoding.Decode(s, h, k, data, more) == (Persistent(), result) {
        DecodeFinishes(s, h, k, data, fuel, more);
      }
      DecodeFinishes(s, h, k, data, fuel, fuel);
    }
  }

  lemma StartIs(c: Cursor)
    requires c.vqIndex == [0, 1, 2, 3] && c.vqColor == [0x008080, 0xFF8080, 0x808080, 0xC08080]
    requires c.pos == 0 && c.dcY == c.dcCb == c.dcCr == 0 && c.at == Raster.Place(0, 0)
    ensures c == Start(c.tile)
  {
  }

  lemma FrameWidth(h: Header)
    ensures FrameOf(h).width == h.dstX
  {
  }

  lemma Begins(f: Frame, c: Canvas, r: Ran)
    ensures AllProper(f, []) && PaintAll(f, c, []) == c && Log(f, c, []) == [] && Prepend([], r) == r
  {
  }

  lemma Continues(f: Frame, c: Canvas, es: seq<Event>, e: Event, r: Ran)
    requires AllProper(f, es) && Proper(f, e)
    ensures AllProper(f, es + [e]) && PaintAll(f, c, es + [e]) == Paint(f, PaintAll(f, c, es), e)
    ensures Log(f, c, es + [e]) == Log(f, c, es) + [Save(f.width, PaintAll(f, c, es).fb, Base(f.width, e.tx, e.ty))]
    ensures Prepend(es, Prepend([e], r)) == Prepend(es + [e], r)
  {
    hide Paint, Save;
    assert (es + [e])[..|es|] == es;
    assert es + ([e] + r.events) == (es + [e]) + r.events;
  }

  lemma Ends(f: Frame, s: State, es: seq<Event>, d: Cursor, o: Outcome)
    requires AllProper(f, es) && |d.tile| == 768 && Consistent(s)
    ensures var r := Prepend(es, Ran([], d, o));
            AllProper(f, r.events) && r.outcome == o &&
            Finish(f, s, r) == State(s.width, s.height,
                                     Canvas(if o.Advance? then RestoreAll(f.width, PaintAll(f, s.canvas, es).fb,
                                       Log(f, s.canvas, es))
                                            else PaintAll(f, s.canvas, es).fb, PaintAll(f, s.canvas, es).prev), d.tile)
  {
    assert es + [] == es;
  }

  ghost function Prepend(es: seq<Event>, r: Ran): Ran { r.(events := es + r.events) }

  /** One unfolding of the block loop. */
  lemma RunCases(x: Context, c: Cursor, left: nat)
    requires Set(x) && Fit(c)
    ensures var t := BlockType(x.buf, c.pos);
            var r := RunBlocks(x, c, left);
            if At(x.buf, c.pos).index >= x.words then r == Ran([], c, Exhausted)
            else if t == 1 || t == 3 || t == 11 then r == Ran([], c, Advance(t))
            else if t == 9 then r == Ran([], c, FrameEnd)
            else StepBlock(x, c).Next? &&
                 r == if left == 0 then Ran([], c, OutOfFuel)
                      else Prepend([StepBlock(x, c).event], RunBlocks(x, StepBlock(x, c).cursor, left - 1))
  {
    hide Coding, BlockType, Body, Positioned, EventOf, At, Raster.Move;
  }

  lemma SkipFields(buf: seq<Word>, p: nat, reg0: Word)
    requires |buf| >= 2 && reg0 == At(buf, p).reg0
    ensures Field(reg0, 4, 12) == Val(Window(buf, p + 4, 8)) && Field(reg0, 12, 20) == Val(Window(buf, p + 12, 8))
    ensures Field(reg0, 0, 4) == BlockType(buf, p)
  {
    hide Val;
    WindowSlice(buf, p, 32, 4, 12);
    WindowSlice(buf, p, 32, 12, 20);
    WindowSlice(buf, p, 32, 0, 4);
  }

  /** The fields of a colour selection are fields of the first register. */
  lemma VqFields(buf: seq<Word>, p: nat, reg0: Word)
    requires |buf| >= 2 && reg0 == At(buf, p).reg0
    ensures reg0[0] == StreamBit(buf, p) && Field(reg0, 1, 3) == TwoBits(buf, p + 1)
    ensures Field(reg0, 3, 27) == Val(Window(buf, p + 3, 24))
  {
    hide Val;
    WindowSlice(buf, p, 32, 1, 3);
    WindowSlice(buf, p, 32, 3, 27);
  }

  lemma SelectedBy(x: Context, c: Cursor, bits: nat, n: nat)
    requires Set(x) && Fit(c) && bits <= 2
    ensures var v := Val(Window(x.buf, c.pos + bits * n, bits));
            v < 4 && Wrap16(v) == v && (bits == 0 ==> v == 0) && Selected(x, c, bits, n) == c.vqColor[c.vqIndex[v]]
  {
    hide Coding, Window, StreamBit, Val;
    SelectorBits(x.buf, c.pos + bits * n, bits);
  }

  lemma SelectorBits(buf: seq<Word>, p: nat, bits: nat)
    requires buf != [] && bits <= 2
    ensures var v := Val(Window(buf, p, bits));
            v < 4 && Wrap16(v) == v && (bits == 0 ==> v == 0) && v == Selector(buf, p, bits)
  {
    FewBits(buf, p, bits);
    assert bits == 0 ==> Window(buf, p, bits) == [];
  }

  lemma VqEntries(x: Context, c: Cursor, bits: nat, n: nat)
    requires Set(x) && Fit(c) && bits <= 2 && n < 64
    ensures var color := Selected(x, c, bits, n);
            VqEntry(x, c, bits, n) == color / 65536 % 256 && VqEntry(x, c, bits, n + 64) == color / 256 % 256
            && VqEntry(x, c, bits, n + 128) == color % 256
  {
    hide Selected;
  }

  lemma CodersUsable(k: Coders)
    requires Coding(k)
    ensures Usable(k.dcLuma, 11) && Usable(k.acLuma, 255) && Usable(k.dcChroma, 11) && Usable(k.acChroma, 255)
  {
    hide Usable, Loaded;
  }

  lemma LimitLoaded(t: ColourTables)
    requires Initialised(t)
    ensures |t.limit| == 1408 && forall i :: 0 <= i < 1408 ==> t.limit[i] == RangeAt(i)
  {
  }
}
