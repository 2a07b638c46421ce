/** What a VNC client sees (vnc.go): ServerInit, raw framebuffer updates, and the pixels they carry. */
module Vnc {
  import opened Bits
  import opened Idct
  import opened Colour
  import opened Drawing

  /* Messages the server builds. */

  function Be16(v: nat): (b: seq<Byte>)
    requires v < 65536
    ensures |b| == 2
  {
    [v / 256, v % 256]
  }

  function Be32(v: nat): (b: seq<Byte>)
    requires v < 0x1_0000_0000
    ensures |b| == 4
  {
    [v / 16777216, v / 65536 % 256, v / 256 % 256, v % 256]
  }

  /** Width, height, a 16-byte pixel format, and the name "iKVM" with its length. */
  function ServerInit(w: nat, h: nat): (b: seq<Byte>)
    requires w < 65536 && h < 65536
    ensures |b| == 28
  {
    Be16(w) + Be16(h) + [32, 24, 0, 1] + Be16(255) + Be16(255) + Be16(255) + [0, 8, 16] + [0, 0, 0]
    + Be32(4) + [105, 75, 86, 77]
  }

  lemma ServerInitParts(w: nat, h: nat)
    requires w < 65536 && h < 65536
    ensures ServerInit(w, h) == [w / 256, w % 256, h / 256, h % 256]
                                + [32, 24, 0, 1, 0, 255, 0, 255, 0, 255, 0, 8, 16, 0, 0, 0] +
                                  [0, 0, 0, 4, 105, 75, 86, 77]
  {
  }

  method PutGeometry(buf: array<Byte>, w: nat, h: nat)
    requires buf.Length == 28 && w < 65536 && h < 65536
    modifies buf
    ensures buf[0] == w / 256 && buf[1] == w % 256 && buf[2] == h / 256 && buf[3] == h % 256
    ensures forall k :: 4 <= k < 28 ==> buf[k] == old(buf[k])
  {
    buf[0] := w / 256;
    buf[1] := w % 256;
    buf[2] := h / 256;
    buf[3] := h % 256;
  }

  method PutPixelFormat(buf: array<Byte>)
    requires buf.Length == 28 && forall k :: 4 <= k < 28 ==> buf[k] == 0
    modifies buf
    ensures buf[4..20] == [32, 24, 0, 1, 0, 255, 0, 255, 0, 255, 0, 8, 16, 0, 0, 0]
    ensures forall k :: 0 <= k < 28 && !(4 <= k < 20) ==> buf[k] == old(buf[k])
  {
    buf[4] := 32;
    buf[5] := 24;
    buf[7] := 1;
    buf[9] := 255;
    buf[11] := 255;
    buf[13] := 255;
    buf[15] := 8;
    buf[16] := 16;
  }

  method PutName(buf: array<Byte>)
    requires buf.Length == 28 && forall k :: 20 <= k < 28 ==> buf[k] == 0
    modifies buf
    ensures buf[20..] == [0, 0, 0, 4, 105, 75, 86, 77]
    ensures forall k :: 0 <= k < 20 ==> buf[k] == old(buf[k])
  {
    buf[23] := 4;
    buf[24] := 105;
    buf[25] := 75;
    buf[26] := 86;
    buf[27] := 77;
  }

  method BuildServerInit(w: nat, h: nat) returns (out: seq<Byte>)
    requires w < 65536 && h < 65536
    ensures out == ServerInit(w, h)
  {
    hide ServerInit;
    var buf := new Byte[28](_ => 0);
    PutGeometry(buf, w, h);
    PutPixelFormat(buf);
    ghost var format := buf[4..20];
    PutName(buf);
    assert buf[4..20] == format;
    out := buf[..];
    assert out[..4] == [w / 256, w % 256, h / 256, h % 256];
    assert out == out[..4] + buf[4..20] + buf[20..];
    ServerInitParts(w, h);
  }

  /** One rectangle in raw encoding. */
  function FramebufferUpdate(x: nat, y: nat, w: nat, h: nat, pixels: seq<Byte>): (b: seq<Byte>)
    requires x < 65536 && y < 65536 && w < 65536 && h < 65536
    ensures |b| == 16 + |pixels|
  {
    [0, 0] + Be16(1) + Be16(x) + Be16(y) + Be16(w) + Be16(h) + Be32(0) + pixels
  }

  /** BGRA to RGBA. */
  function Swapped(fb: seq<Byte>): (p: seq<Byte>)
    requires |fb| % 4 == 0
    ensures |p| == |fb|
  {
    seq(|fb|, i requires 0 <= i < |fb| => if i % 4 == 0 then fb[i + 2] else if i % 4 == 2 then fb[i - 2] else fb[i])
  }

  method SwapChannels(fb: seq<Byte>) returns (out: seq<Byte>)
    requires |fb| % 4 == 0
    ensures out == Swapped(fb)
  {
    var size := |fb|;
    var pixelData := new Byte[size](_ => 0);
    var i := 0;
    while i < size
      invariant 0 <= i <= size && i % 4 == 0
      invariant forall k :: 0 <= k < i ==> pixelData[k] == Swapped(fb)[k]
    {
      pixelData[i] := fb[i + 2];
      pixelData[i + 1] := fb[i + 1];
      pixelData[i + 2] := fb[i];
      pixelData[i + 3] := fb[i + 3];
      i := i + 4;
    }
    out := pixelData[..];
  }

  /* A client, by sections 7.3.2, 7.4, 7.6.1 and 7.7.1 of RFC 6143. */

  function U16(b: seq<Byte>, i: nat): nat
    requires i + 2 <= |b|
  {
    256 * (b[i] as int) + b[i + 1]
  }

  function U32(b: seq<Byte>, i: nat): nat
    requires i + 4 <= |b|
  {
    65536 * U16(b, i) + U16(b, i + 2)
  }

  datatype PixelFormat = PixelFormat(bits: nat, bigEndian: bool, trueColour: bool,
                                     redMax: nat, greenMax: nat, blueMax: nat, redShift: nat, greenShift: nat,
                                       blueShift: nat)

  datatype Screen = Screen(width: nat, height: nat, format: PixelFormat)

  /** The fixed part of a ServerInit message. */
  function ReadServerInit(b: seq<Byte>): Screen
    requires |b| >= 24
  {
    Screen(U16(b, 0), U16(b, 2),
           PixelFormat(b[4], b[6] != 0, b[7] != 0, U16(b, 8), U16(b, 10), U16(b, 12), b[14], b[15], b[16]))
  }

  /** The number a raw pixel denotes. */
  function PixelValue(f: PixelFormat, b: seq<Byte>, i: nat): nat
    requires f.bits == 32 && i + 4 <= |b|
  {
    if f.bigEndian then U32(b, i)
    else (b[i] as int) + 256 * (b[i + 1] as int) + 65536 * (b[i + 2] as int) + 16777216 * (b[i + 3] as int)
  }

  /** One colour: shift right, then keep the bits of the maximum. */
  function Intensity(value: nat, shift: nat, max: nat): nat { value / Pow2(shift) % (max + 1) }

  datatype Rgb8 = Rgb8(r: nat, g: nat, b: nat)

  function DecodePixel(f: PixelFormat, b: seq<Byte>, i: nat): Rgb8
    requires f.bits == 32 && i + 4 <= |b|
  {
    var v := PixelValue(f, b, i);
    Rgb8(Intensity(v, f.redShift, f.redMax), Intensity(v, f.greenShift, f.greenMax),
      Intensity(v, f.blueShift, f.blueMax))
  }

  datatype Rectangle = Rectangle(x: nat, y: nat, w: nat, h: nat, encoding: nat)

  datatype Update = Malformed | Update(rect: Rectangle, pixels: seq<Byte>)

  /** A message of type 0 with one rectangle; raw data must fill it exactly. */
  function ReadUpdate(f: PixelFormat, b: seq<Byte>): Update {
    if |b| < 16 || b[0] != 0 || U16(b, 2) != 1 then Malformed
    else
      var r := Rectangle(U16(b, 4), U16(b, 6), U16(b, 8), U16(b, 10), U32(b, 12));
      if r.encoding != 0 || 8 * |b[16..]| != f.bits * (r.w * r.h) then Malformed else Update(r, b[16..])
  }

  const FORMAT := PixelFormat(32, false, true, 255, 255, 255, 0, 8, 16)

  lemma InitAdvertises(w: nat, h: nat)
    requires w < 65536 && h < 65536
    ensures ReadServerInit(ServerInit(w, h)) == Screen(w, h, FORMAT)
    ensures ServerInit(w, h)[5] == 24 && U32(ServerInit(w, h), 20) == 4 && ServerInit(w, h)[24..] == [105, 75, 86, 77]
  {
    var b := ServerInit(w, h);
    assert b[5] == 24 && b[20] == 0 && b[21] == 0 && b[22] == 0 && b[23] == 4 && b[24..] == [105, 75, 86, 77];
    assert b[0] == w / 256 && b[1] == w % 256 && b[2] == h / 256 && b[3] == h % 256;
    assert b[4] == 32 && b[6] == 0 && b[7] == 1 && b[14] == 0 && b[15] == 8 && b[16] == 16;
    assert b[8] == 0 && b[9] == 255 && b[10] == 0 && b[11] == 255 && b[12] == 0 && b[13] == 255;
  }

  lemma UpdateReads(x: nat, y: nat, w: nat, h: nat, pixels: seq<Byte>)
    requires x < 65536 && y < 65536 && w < 65536 && h < 65536 && |pixels| == 4 * (w * h)
    ensures ReadUpdate(FORMAT, FramebufferUpdate(x, y, w, h, pixels)) == Update(Rectangle(x, y, w, h, 0), pixels)
  {
    var head := [0, 0] + Be16(1) + Be16(x) + Be16(y) + Be16(w) + Be16(h) + Be32(0);
    var b := FramebufferUpdate(x, y, w, h, pixels);
    assert b == head + pixels;
    assert b[0] == 0 && b[2] == 0 && b[3] == 1;
    assert b[4] == x / 256 && b[5] == x % 256 && b[6] == y / 256 && b[7] == y % 256;
    assert b[8] == w / 256 && b[9] == w % 256 && b[10] == h / 256 && b[11] == h % 256;
    assert b[12] == 0 && b[13] == 0 && b[14] == 0 && b[15] == 0;
    assert b[16..] == pixels;
  }

  lemma SplitValue(r: Byte, g: Byte, b: Byte, a: Byte, v: nat)
    requires v == (r as int) + 256 * (g as int) + 65536 * (b as int) + 16777216 * (a as int)
    ensures Intensity(v, 0, 255) == r && Intensity(v, 8, 255) == g && Intensity(v, 16, 255) == b
  {
    assert Pow2(8) == 256 && Pow2(16) == 65536 by { assert Pow2(4) == 16; Pow2Add(4, 4); Pow2Add(8, 8); }
    assert Pow2(0) == 1;
    hide Pow2;
    var ab := (b as int) + 256 * (a as int);
    assert v % 256 == r;
    assert v / 256 == g as int + 256 * ab;
    assert (g as int + 256 * ab) % 256 == g;
    assert v / 65536 == ab;
    assert ab % 256 == b;
  }

  /** What a client knows once it has read ServerInit and a full update: the format, and the pixels sent. */
  function ReadBack(fb: seq<Byte>, w: nat, h: nat): (r: (PixelFormat, seq<Byte>))
    requires w < 65536 && h < 65536 && |fb| == 4 * (w * h)
    ensures r == (FORMAT, Swapped(fb))
  {
    hide ServerInit, FramebufferUpdate, ReadServerInit, ReadUpdate, Swapped;
    InitAdvertises(w, h);
    UpdateReads(0, 0, w, h, Swapped(fb));
    var format := ReadServerInit(ServerInit(w, h)).format;
    (format, ReadUpdate(format, FramebufferUpdate(0, 0, w, h, Swapped(fb))).pixels)
  }

  /** The colour it makes of pixel q, counting row by row. */
  function ViewerReads(fb: seq<Byte>, w: nat, h: nat, q: nat): Rgb8
    requires w < 65536 && h < 65536 && |fb| == 4 * (w * h) && 4 * q + 3 < |fb|
  {
    var (format, pixels) := ReadBack(fb, w, h);
    DecodePixel(format, pixels, 4 * q)
  }

  /** Colour end to end: whatever pixel the decoder stored, a client that follows the advertised format reads back
      its red, green and blue from the update message, whose length fits. */
  lemma ClientSeesPixel(fb: seq<Byte>, w: nat, h: nat, q: nat)
    requires w < 65536 && h < 65536 && |fb| == 4 * (w * h) && 4 * q + 3 < |fb|
    ensures |FramebufferUpdate(0, 0, w, h, Swapped(fb))| == 16 + |fb|
    ensures ReadServerInit(ServerInit(w, h)) == Screen(w, h, FORMAT)
    ensures ViewerReads(fb, w, h, q) == Rgb8(PixelAt(fb, q).r, PixelAt(fb, q).g, PixelAt(fb, q).b)
  {
    hide ServerInit, FramebufferUpdate, ReadServerInit, ReadBack, DecodePixel, Swapped;
    InitAdvertises(w, h);
    PixelReads(fb, q);
  }

  lemma PixelReads(fb: seq<Byte>, q: nat)
    requires |fb| % 4 == 0 && 4 * q + 3 < |fb|
    ensures var p := PixelAt(fb, q); DecodePixel(FORMAT, Swapped(fb), 4 * q) == Rgb8(p.r, p.g, p.b)
  {
    hide Intensity, Pow2;
    var s, i := Swapped(fb), 4 * q;
    assert s[i] == fb[i + 2] && s[i + 1] == fb[i + 1] && s[i + 2] == fb[i] && s[i + 3] == fb[i + 3];
    SplitValue(fb[i + 2], fb[i + 1], fb[i], fb[i + 3], PixelValue(FORMAT, s, i));
  }

  /** The colour of a sample, as three clamped integer sums. */
  function Converted(s: Sample): Rgb8 {
    Rgb8(Clamp(Luma(s.y) + RedOf(s.cr)), Clamp(Luma(s.y) + GreenOfCb(s.cb) + GreenOfCr(s.cr)),
         Clamp(Luma(s.y) + BlueOf(s.cb)))
  }

  /** In particular for a pixel drawn from a sample: the client reads the clamped integer conversion of it. */
  lemma ClientSeesSample(fb: seq<Byte>, w: nat, h: nat, q: nat, s: Sample)
    requires w < 65536 && h < 65536 && |fb| == 4 * (w * h) && 4 * q + 3 < |fb| && Eight(s) && PixelAt(fb, q) == Rgb(s)
    ensures ViewerReads(fb, w, h, q) == Converted(s)
  {
    hide ViewerReads, Luma, RedOf, GreenOfCb, GreenOfCr, BlueOf;
    ClientSeesPixel(fb, w, h, q);
  }
}
