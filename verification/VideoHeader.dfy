/** The 86-byte video header at the start of each frame (protocol.go). */
module VideoHeaders {
  import opened Wrappers
  import opened Bits
  import opened Ivtp

  datatype Field =
    | EngVersion | HeaderLen | SrcX | SrcY | SrcColorDepth | SrcRefreshRate | SrcModeIndex
    | DstX | DstY | DstColorDepth | DstRefreshRate | DstModeIndex
    | FrameStartCode | FrameNumber | HSize | VSize | Reserved
    | CompressionMode | JpegScaleFactor | JpegTableSelector | JpegYuvTableMapping | SharpModeSelection
    | AdvTableSelector | AdvScaleFactor | NumberOfMb
    | Rc4Enable | Rc4Reset | Mode420 | DownScalingMethod | DiffSetting | AnalogDiffThresh | DigitalDiffThresh
    | ExtSignalEnable | AutoMode | VqMode
    | SrcFrameSize | CompressSize | HDebug | VDebug | InputSignal | CursorXPos | CursorYPos

  datatype Slot = Slot(field: Field, bytes: nat)

  const ENGINE: seq<Slot> := [Slot(EngVersion, 2), Slot(HeaderLen, 2), Slot(SrcX, 2), Slot(SrcY, 2),
                              Slot(SrcColorDepth, 2), Slot(SrcRefreshRate, 2)]
  const MODE: seq<Slot> := [Slot(SrcModeIndex, 1), Slot(DstX, 2), Slot(DstY, 2), Slot(DstColorDepth, 2),
                            Slot(DstRefreshRate, 2), Slot(DstModeIndex, 1)]
  const FRAME: seq<Slot> := [Slot(FrameStartCode, 4), Slot(FrameNumber, 4), Slot(HSize, 2), Slot(VSize, 2),
                             Slot(Reserved, 8), Slot(CompressionMode, 1)]
  const SCALING: seq<Slot> := [Slot(JpegScaleFactor, 1), Slot(JpegTableSelector, 1), Slot(JpegYuvTableMapping, 1),
                               Slot(SharpModeSelection, 1), Slot(AdvTableSelector, 1), Slot(AdvScaleFactor, 1)]
  const SETTINGS: seq<Slot> := [Slot(NumberOfMb, 4), Slot(Rc4Enable, 1), Slot(Rc4Reset, 1), Slot(Mode420, 1),
                                Slot(DownScalingMethod, 1), Slot(DiffSetting, 1)]
  const SIGNAL: seq<Slot> := [Slot(AnalogDiffThresh, 2), Slot(DigitalDiffThresh, 2), Slot(ExtSignalEnable, 1),
                              Slot(AutoMode, 1), Slot(VqMode, 1), Slot(SrcFrameSize, 4)]
  const TRAILER: seq<Slot> := [Slot(CompressSize, 4), Slot(HDebug, 4), Slot(VDebug, 4), Slot(InputSignal, 1),
                               Slot(CursorXPos, 2), Slot(CursorYPos, 2)]

  const LAYOUT: seq<Slot> := ENGINE + MODE + FRAME + SCALING + SETTINGS + SIGNAL + TRAILER

  const VIDEO_HEADER_SIZE := 86

  function Size(layout: seq<Slot>): nat { if layout == [] then 0 else layout[0].bytes + Size(layout[1..]) }

  /** Field values in layout order, each within its width. */
  predicate Fits(layout: seq<Slot>, values: seq<nat>) {
    |values| == |layout| && forall i :: 0 <= i < |layout| ==> values[i] < Range(layout[i].bytes)
  }

  function DecodeFields(layout: seq<Slot>, data: seq<Byte>): (values: seq<nat>)
    requires |data| >= Size(layout)
    ensures |values| == |layout|
    decreases |layout|
  {
    if layout == [] then []
    else [FromLe(data[..layout[0].bytes])] + DecodeFields(layout[1..], data[layout[0].bytes..])
  }

  function EncodeFields(layout: seq<Slot>, values: seq<nat>): (b: seq<Byte>)
    requires |values| == |layout|
    ensures |b| == Size(layout)
    decreases |layout|
  {
    if layout == [] then [] else Le(values[0], layout[0].bytes) + EncodeFields(layout[1..], values[1..])
  }

  lemma FitsRest(layout: seq<Slot>, values: seq<nat>)
    requires layout != [] && Fits(layout, values)
    ensures Fits(layout[1..], values[1..]) && values[0] < Range(layout[0].bytes)
  {
    hide Range;
  }

  lemma {:induction false} FieldsRead(layout: seq<Slot>, values: seq<nat>, rest: seq<Byte>)
    requires Fits(layout, values)
    ensures DecodeFields(layout, EncodeFields(layout, values) + rest) == values
    decreases |layout|
  {
    hide Le, FromLe, Range;
    if layout != [] {
      FitsRest(layout, values);
      hide Fits;
      var n := layout[0].bytes;
      var first := Le(values[0], n);
      var more := EncodeFields(layout[1..], values[1..]) + rest;
      assert EncodeFields(layout, values) + rest == first + more;
      FieldsRead(layout[1..], values[1..], rest);
      FirstField(layout, first, more);
      LeReads(values[0], n);
    }
  }

  lemma FirstField(layout: seq<Slot>, first: seq<Byte>, more: seq<Byte>)
    requires layout != [] && |first| == layout[0].bytes && |more| >= Size(layout[1..])
    ensures DecodeFields(layout, first + more) == [FromLe(first)] + DecodeFields(layout[1..], more)
  {
    hide FromLe;
    assert (first + more)[..|first|] == first && (first + more)[|first|..] == more;
  }

  lemma {:induction false} FieldsWrite(layout: seq<Slot>, data: seq<Byte>)
    requires |data| >= Size(layout)
    ensures Fits(layout, DecodeFields(layout, data))
    ensures EncodeFields(layout, DecodeFields(layout, data)) == data[..Size(layout)]
    decreases |layout|
  {
    hide Le, FromLe, Range;
    if layout != [] {
      var n := layout[0].bytes;
      var values := DecodeFields(layout, data);
      FieldsWrite(layout[1..], data[n..]);
      LeWrites(data[..n]);
      assert values[1..] == DecodeFields(layout[1..], data[n..]);
      forall i | 0 <= i < |layout| ensures values[i] < Range(layout[i].bytes) {
        if i > 0 { assert values[i] == values[1..][i - 1] && layout[i] == layout[1..][i - 1]; }
      }
      assert data[..Size(layout)] == data[..n] + data[n..][..Size(layout[1..])];
    }
  }

  lemma {:induction false} SizeConcat(a: seq<Slot>, b: seq<Slot>)
    ensures Size(a + b) == Size(a) + Size(b)
  {
    if a == [] { assert a + b == b; } else { SizeConcat(a[1..], b); assert (a + b)[1..] == a[1..] + b; }
  }

  lemma SizeThree(row: seq<Slot>)
    requires |row| == 3
    ensures Size(row) == row[0].bytes + row[1].bytes + row[2].bytes
  {
    var b, c := row[1..], row[2..];
    assert b[1..] == c && c[1..] == [];
    assert Size(c) == row[2].bytes;
    assert Size(b) == row[1].bytes + Size(c);
  }

  lemma SizeSix(row: seq<Slot>)
    requires |row| == 6
    ensures Size(row) == row[0].bytes + row[1].bytes + row[2].bytes + row[3].bytes + row[4].bytes + row[5].bytes
  {
    SizeThree(row[..3]);
    SizeThree(row[3..]);
    SizeConcat(row[..3], row[3..]);
    assert row == row[..3] + row[3..];
  }

  lemma LayoutSize()
    ensures Size(LAYOUT) == VIDEO_HEADER_SIZE
  {
    hide Size;
    SizeSix(ENGINE);
    SizeSix(MODE);
    SizeSix(FRAME);
    SizeSix(SCALING);
    SizeSix(SETTINGS);
    SizeSix(SIGNAL);
    SizeSix(TRAILER);
    SizeConcat(ENGINE, MODE);
    SizeConcat(ENGINE + MODE, FRAME);
    SizeConcat(ENGINE + MODE + FRAME, SCALING);
    SizeConcat(ENGINE + MODE + FRAME + SCALING, SETTINGS);
    SizeConcat(ENGINE + MODE + FRAME + SCALING + SETTINGS, SIGNAL);
    SizeConcat(ENGINE + MODE + FRAME + SCALING + SETTINGS + SIGNAL, TRAILER);
  }

  function VideoHeader(data: seq<Byte>): Option<seq<nat>>
  {
    if |data| < VIDEO_HEADER_SIZE then None else LayoutSize(); Some(DecodeFields(LAYOUT, data))
  }

  function EncodeVideoHeader(values: seq<nat>): (b: seq<Byte>)
    requires |values| == |LAYOUT|
    ensures |b| == VIDEO_HEADER_SIZE
  {
    LayoutSize();
    EncodeFields(LAYOUT, values)
  }

  /** Decoding a video header succeeds exactly on at least 86 bytes, and is inverse to encoding. */
  lemma VideoHeaderExactly(data: seq<Byte>, values: seq<nat>)
    ensures VideoHeader(data) == Some(values) <==> Fits(LAYOUT, values) && EncodeVideoHeader(values) <= data
  {
    hide Range, DecodeFields, EncodeFields, Size;
    LayoutSize();
    if VideoHeader(data) == Some(values) { FieldsWrite(LAYOUT, data); }
    if Fits(LAYOUT, values) && EncodeVideoHeader(values) <= data {
      FieldsRead(LAYOUT, values, data[VIDEO_HEADER_SIZE..]);
      assert EncodeVideoHeader(values) + data[VIDEO_HEADER_SIZE..] == data;
    }
  }

  /** The value of a field, by name. */
  function FieldValue(layout: seq<Slot>, values: seq<nat>, field: Field): nat
    requires |values| == |layout|
    decreases |layout|
  {
    if layout == [] then 0
    else if layout[0].field == field then values[0]
    else FieldValue(layout[1..], values[1..], field)
  }

  ghost predicate TwoBytes(layout: seq<Slot>, field: Field) {
    forall i :: 0 <= i < |layout| && layout[i].field == field ==> layout[i].bytes == 2
  }

  lemma {:induction false} FieldBound(layout: seq<Slot>, values: seq<nat>, field: Field)
    requires Fits(layout, values) && TwoBytes(layout, field)
    ensures FieldValue(layout, values, field) < 65536
    decreases |layout|
  {
    if layout != [] {
      assert values[0] < Range(layout[0].bytes);
      if layout[0].field == field {
        Ranges();
      } else {
        FitsRest(layout, values);
        FieldBound(layout[1..], values[1..], field);
      }
    }
  }

  /** Picture sizes are 16-bit numbers. */
  lemma SizesBound(values: seq<nat>)
    requires Fits(LAYOUT, values)
    ensures FieldValue(LAYOUT, values, DstX) < 65536 && FieldValue(LAYOUT, values, DstY) < 65536
  {
    hide FieldValue, Fits;
    SizesTwoBytes();
    FieldBound(LAYOUT, values, DstX);
    FieldBound(LAYOUT, values, DstY);
  }

  lemma SizesTwoBytes()
    ensures TwoBytes(LAYOUT, DstX) && TwoBytes(LAYOUT, DstY)
  {
    assert TwoBytes(ENGINE, DstX) && TwoBytes(ENGINE, DstY) && TwoBytes(MODE, DstX) && TwoBytes(MODE, DstY);
    assert TwoBytes(FRAME, DstX) && TwoBytes(FRAME, DstY) && TwoBytes(SCALING, DstX) && TwoBytes(SCALING, DstY);
    assert TwoBytes(SETTINGS, DstX) && TwoBytes(SETTINGS, DstY) && TwoBytes(SIGNAL, DstX) && TwoBytes(SIGNAL, DstY);
    assert TwoBytes(TRAILER, DstX) && TwoBytes(TRAILER, DstY);
  }

  /* Byte offsets. */

  ghost predicate Absent(layout: seq<Slot>, field: Field) { forall i :: 0 <= i < |layout| ==> layout[i].field != field }

  /** A field is read from the bytes after those of the fields before it. */
  lemma {:induction false} FieldOffset(before: seq<Slot>, slot: Slot, after: seq<Slot>, data: seq<Byte>)
    requires Absent(before, slot.field) && |data| >= Size(before + [slot] + after)
    ensures Size(before) + slot.bytes <= |data|
    ensures FieldValue(before + [slot] + after, DecodeFields(before + [slot] + after, data), slot.field) ==
            FromLe(data[Size(before)..Size(before) + slot.bytes])
    decreases |before|
  {
    hide FromLe;
    var layout := before + [slot] + after;
    if before == [] {
      assert layout[0] == slot;
    } else {
      assert layout[1..] == before[1..] + [slot] + after && layout[0] == before[0];
      assert before[0].field != slot.field;
      var n := before[0].bytes;
      FieldOffset(before[1..], slot, after, data[n..]);
      var m := Size(before[1..]);
      assert data[n..][m..m + slot.bytes] == data[n + m..n + m + slot.bytes];
    }
  }

  /** The value that a header's data has in a field. */
  function HeaderField(data: seq<Byte>, field: Field): nat
    requires |data| >= VIDEO_HEADER_SIZE
  {
    LayoutSize();
    FieldValue(LAYOUT, DecodeFields(LAYOUT, data), field)
  }

  lemma OffsetAt(before: seq<Slot>, slot: Slot, after: seq<Slot>, data: seq<Byte>, offset: nat)
    requires LAYOUT == before + [slot] + after && Absent(before, slot.field) && Size(before) == offset
    requires |data| >= VIDEO_HEADER_SIZE
    ensures offset + slot.bytes <= |data|
    ensures HeaderField(data, slot.field) == FromLe(data[offset..offset + slot.bytes])
  {
    hide FieldValue, DecodeFields, FromLe, Size;
    LayoutSize();
    FieldOffset(before, slot, after, data);
  }

  lemma RowSizes()
    ensures Size(ENGINE) == 12 && Size(ENGINE + MODE) == 22 && Size(ENGINE + MODE + FRAME) == 43
    ensures Size(ENGINE + MODE + FRAME + SCALING) == 49 && Size(ENGINE + MODE + FRAME + SCALING + SETTINGS) == 58
    ensures Size(ENGINE + MODE + FRAME + SCALING + SETTINGS + SIGNAL) == 69
  {
    hide Size;
    SizeSix(ENGINE); SizeSix(MODE); SizeSix(FRAME); SizeSix(SCALING); SizeSix(SETTINGS); SizeSix(SIGNAL);
    SizeConcat(ENGINE, MODE);
    SizeConcat(ENGINE + MODE, FRAME);
    SizeConcat(ENGINE + MODE + FRAME, SCALING);
    SizeConcat(ENGINE + MODE + FRAME + SCALING, SETTINGS);
    SizeConcat(ENGINE + MODE + FRAME + SCALING + SETTINGS, SIGNAL);
  }

  lemma SizeOne(slot: Slot)
    ensures Size([slot]) == slot.bytes
  {
    assert [slot][1..] == [];
  }

  /** The source size. */
  lemma SourceOffsets(data: seq<Byte>)
    requires |data| >= VIDEO_HEADER_SIZE
    ensures HeaderField(data, SrcX) == FromLe(data[4..6]) && HeaderField(data, SrcY) == FromLe(data[6..8])
  {
    hide FromLe, HeaderField, Size;
    var a, b := ENGINE[..2], ENGINE[..3];
    var rest := MODE + FRAME + SCALING + SETTINGS + SIGNAL + TRAILER;
    SizeOne(ENGINE[0]); SizeOne(ENGINE[1]); SizeOne(ENGINE[2]);
    SizeConcat([ENGINE[0]], [ENGINE[1]]);
    SizeConcat([ENGINE[0]] + [ENGINE[1]], [ENGINE[2]]);
    assert a == [ENGINE[0]] + [ENGINE[1]] && b == [ENGINE[0]] + [ENGINE[1]] + [ENGINE[2]];
    assert LAYOUT == a + [Slot(SrcX, 2)] + (ENGINE[3..] + rest);
    assert LAYOUT == b + [Slot(SrcY, 2)] + (ENGINE[4..] + rest);
    OffsetAt(a, Slot(SrcX, 2), ENGINE[3..] + rest, data, 4);
    OffsetAt(b, Slot(SrcY, 2), ENGINE[4..] + rest, data, 6);
  }

  /** The picture size. */
  lemma PictureOffsets(data: seq<Byte>)
    requires |data| >= VIDEO_HEADER_SIZE
    ensures HeaderField(data, DstX) == FromLe(data[13..15]) && HeaderField(data, DstY) == FromLe(data[15..17])
  {
    hide FromLe, HeaderField, Size;
    var one, two := [MODE[0]], [MODE[0]] + [MODE[1]];
    var rest := FRAME + SCALING + SETTINGS + SIGNAL + TRAILER;
    RowSizes();
    SizeOne(MODE[0]); SizeOne(MODE[1]);
    SizeConcat(one, [MODE[1]]);
    SizeConcat(ENGINE, one);
    SizeConcat(ENGINE, two);
    assert LAYOUT == (ENGINE + one) + [Slot(DstX, 2)] + (MODE[2..] + rest);
    assert LAYOUT == (ENGINE + two) + [Slot(DstY, 2)] + (MODE[3..] + rest);
    OffsetAt(ENGINE + one, Slot(DstX, 2), MODE[2..] + rest, data, 13);
    OffsetAt(ENGINE + two, Slot(DstY, 2), MODE[3..] + rest, data, 15);
  }

  /** The fields that select the quantisation tables. */
  lemma SelectorOffsets(data: seq<Byte>)
    requires |data| >= VIDEO_HEADER_SIZE
    ensures HeaderField(data, JpegTableSelector) == data[44] && HeaderField(data, JpegYuvTableMapping) == data[45]
    ensures HeaderField(data, AdvTableSelector) == data[47]
  {
    hide HeaderField, Size;
    var start, rest := ENGINE + MODE + FRAME, SETTINGS + SIGNAL + TRAILER;
    RowSizes();
    SizeOne(SCALING[0]); SizeOne(SCALING[1]); SizeOne(SCALING[2]); SizeOne(SCALING[3]);
    var one, two := [SCALING[0]], [SCALING[0]] + [SCALING[1]];
    var three, four := two + [SCALING[2]], two + [SCALING[2]] + [SCALING[3]];
    SizeConcat(one, [SCALING[1]]); SizeConcat(two, [SCALING[2]]); SizeConcat(three, [SCALING[3]]);
    SizeConcat(start, one); SizeConcat(start, two); SizeConcat(start, four);
    assert LAYOUT == (start + one) + [Slot(JpegTableSelector, 1)] + (SCALING[2..] + rest);
    assert LAYOUT == (start + two) + [Slot(JpegYuvTableMapping, 1)] + (SCALING[3..] + rest);
    assert LAYOUT == (start + four) + [Slot(AdvTableSelector, 1)] + (SCALING[5..] + rest);
    OffsetAt(start + one, Slot(JpegTableSelector, 1), SCALING[2..] + rest, data, 44);
    OffsetAt(start + two, Slot(JpegYuvTableMapping, 1), SCALING[3..] + rest, data, 45);
    OffsetAt(start + four, Slot(AdvTableSelector, 1), SCALING[5..] + rest, data, 47);
    OneByte(data[44..45]); OneByte(data[45..46]); OneByte(data[47..48]);
  }

  lemma OneByte(b: seq<Byte>)
    requires |b| == 1
    ensures FromLe(b) == b[0]
  {
    assert b[1..] == [];
  }

  /** The chroma mode and the size of the compressed data. */
  lemma FrameOffsets(data: seq<Byte>)
    requires |data| >= VIDEO_HEADER_SIZE
    ensures HeaderField(data, Mode420) == data[55] && HeaderField(data, CompressSize) == FromLe(data[69..73])
  {
    hide HeaderField, Size, FromLe;
    var start, rest := ENGINE + MODE + FRAME + SCALING, SIGNAL + TRAILER;
    RowSizes();
    SizeOne(SETTINGS[0]); SizeOne(SETTINGS[1]); SizeOne(SETTINGS[2]);
    var two := [SETTINGS[0]] + [SETTINGS[1]];
    var three := two + [SETTINGS[2]];
    SizeConcat([SETTINGS[0]], [SETTINGS[1]]); SizeConcat(two, [SETTINGS[2]]); SizeConcat(start, three);
    assert LAYOUT == (start + three) + [Slot(Mode420, 1)] + (SETTINGS[4..] + rest);
    OffsetAt(start + three, Slot(Mode420, 1), SETTINGS[4..] + rest, data, 55);
    OneByte(data[55..56]);
    var last := start + SETTINGS + SIGNAL;
    assert LAYOUT == last + [Slot(CompressSize, 4)] + TRAILER[1..];
    OffsetAt(last, Slot(CompressSize, 4), TRAILER[1..], data, 69);
  }
}
