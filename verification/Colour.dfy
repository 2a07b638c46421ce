/** Integer YCbCr to RGB conversion through lookup tables. */
module Colour {
  import opened Bits
  import opened Idct

  datatype Sample = Sample(y: int, cb: int, cr: int)
  datatype Pixel = Pixel(b: Byte, g: Byte, r: Byte, a: Byte)

  /* The fixed-point coefficients: 1.164, 1.597656, 2.015625, -0.8125 and -0.390625, times 65536. */
  function Luma(y: int): int { (76284 * (y - 16) + 32768) / 65536 }
  function RedOf(cr: int): int { (104704 * (cr - 128) + 32768) / 65536 }
  function BlueOf(cb: int): int { (132096 * (cb - 128) + 32768) / 65536 }
  function GreenOfCr(cr: int): int { (-53248 * (cr - 128) + 32768) / 65536 }
  function GreenOfCb(cb: int): int { (-25600 * (cb - 128) + 32768) / 65536 }

  datatype ColourTables = ColourTables(y: seq<int>, crToR: seq<int>, cbToB: seq<int>, crToG: seq<int>,
                                       cbToG: seq<int>, limit: seq<int>)

  ghost predicate Initialised(t: ColourTables) {
    && |t.y| == |t.crToR| == |t.cbToB| == |t.crToG| == |t.cbToG| == 256 && |t.limit| == 1408
    && (forall i :: 0 <= i < 256 ==> t.y[i] == Luma(i))
    && (forall i :: 0 <= i < 256 ==> t.crToR[i] == RedOf(i) && t.cbToB[i] == BlueOf(i))
    && (forall i :: 0 <= i < 256 ==> t.crToG[i] == GreenOfCr(i) && t.cbToG[i] == GreenOfCb(i))
    && (forall i :: 0 <= i < 1408 ==> t.limit[i] == RangeAt(i))
  }

  method InitTables() returns (t: ColourTables)
    ensures Initialised(t)
  {
    var limit := InitRangeLimitTable();
    var crToR, cbToB, crToG, cbToG, yTable: seq<int> := [], [], [], [], [];
    var x := -128;
    for i := 0 to 256
      invariant x == i - 128 && |crToR| == |cbToB| == |crToG| == |cbToG| == i
      invariant forall k :: 0 <= k < i ==> crToR[k] == RedOf(k) && cbToB[k] == BlueOf(k)
      invariant forall k :: 0 <= k < i ==> crToG[k] == GreenOfCr(k) && cbToG[k] == GreenOfCb(k)
    {
      crToR := crToR + [(104704 * x + 32768) / 65536];
      cbToB := cbToB + [(132096 * x + 32768) / 65536];
      crToG := crToG + [(-53248 * x + 32768) / 65536];
      cbToG := cbToG + [(-25600 * x + 32768) / 65536];
      x := x + 1;
    }
    x := -16;
    for i := 0 to 256
      invariant x == i - 16 && |yTable| == i
      invariant forall k :: 0 <= k < i ==> yTable[k] == Luma(k)
    {
      yTable := yTable + [(76284 * x + 32768) / 65536];
      x := x + 1;
    }
    t := ColourTables(yTable, crToR, cbToB, crToG, cbToG, limit);
  }

  /** The colour of a sample: samples are clamped to 0..255, then each channel of the integer sum is. */
  function Rgb(s: Sample): Pixel {
    var y, cb, cr := Clamp(s.y), Clamp(s.cb), Clamp(s.cr);
    Pixel(Clamp(Luma(y) + BlueOf(cb)), Clamp(Luma(y) + GreenOfCb(cb) + GreenOfCr(cr)), Clamp(Luma(y) + RedOf(cr)), 255)
  }

  /** The offset lookup that stands for the channel clamp. */
  function Channel(limit: seq<int>, v: int): (r: Byte)
    requires |limit| == 1408 && -600 <= v <= 600 && forall i :: 0 <= i < 1408 ==> limit[i] == RangeAt(i)
    ensures r == Clamp(v)
  {
    var i := if v >= 0 then v + 256 else 0;
    assert limit[i] == RangeAt(i);
    limit[i]
  }

  lemma TableBounds(i: int)
    requires 0 <= i < 256
    ensures -19 <= Luma(i) <= 278 && -205 <= RedOf(i) <= 203 && -258 <= BlueOf(i) <= 256
    ensures -103 <= GreenOfCr(i) <= 104 && -50 <= GreenOfCb(i) <= 50
  {
  }

  method ConvertSample(t: ColourTables, s: Sample) returns (p: Pixel)
    requires Initialised(t)
    ensures p == Rgb(s)
  {
    hide Luma, RedOf, BlueOf, GreenOfCr, GreenOfCb;
    var y, cb, cr := Clamp(s.y), Clamp(s.cb), Clamp(s.cr);
    TableBounds(y); TableBounds(cb); TableBounds(cr);
    var b := t.y[y] + t.cbToB[cb];
    var g := t.y[y] + t.cbToG[cb] + t.crToG[cr];
    var r := t.y[y] + t.crToR[cr];
    p := Pixel(Channel(t.limit, b), Channel(t.limit, g), Channel(t.limit, r), 255);
  }

  /** The sample a second-pass block shows: the reference plus a difference centred on 128. */
  function Combine(ref: Sample, diff: Sample): Sample {
    Sample(ref.y + (diff.y - 128), ref.cb + (diff.cb - 128), ref.cr + (diff.cr - 128))
  }

  const NEUTRAL: Sample := Sample(128, 128, 128)

  predicate Eight(s: Sample) { 0 <= s.y < 256 && 0 <= s.cb < 256 && 0 <= s.cr < 256 }

  /** No difference hides its reference: some reference shows another colour than the neutral one. */
  lemma ReferenceMatters(d: Sample) returns (ref: Sample)
    requires Eight(d)
    ensures Eight(ref) && Rgb(Combine(ref, d)) != Rgb(Combine(NEUTRAL, d))
  {
    hide Luma, RedOf, BlueOf, GreenOfCr, GreenOfCb;
    var high, low := Sample(255, 128, 128), Sample(0, 128, 128);
    if Rgb(Combine(high, d)) != Rgb(Combine(NEUTRAL, d)) {
      ref := high;
    } else {
      ref := low;
      assert Rgb(Combine(low, d)) != Rgb(Combine(high, d)) by {
        LumaMatters(Clamp(d.y - 128), Clamp(d.y + 127), d.cb, d.cr);
      }
    }
  }

  /** Two brightnesses far apart never show the same colour, whatever the chroma. */
  lemma LumaMatters(y0: int, y1: int, cb: int, cr: int)
    requires 0 <= y0 < 256 && 0 <= y1 < 256 && y1 - y0 >= 127 && 0 <= cb < 256 && 0 <= cr < 256
    ensures Rgb(Sample(y0, cb, cr)) != Rgb(Sample(y1, cb, cr))
  {
  }

  /** The tables hold the decimal coefficients of the conversion, each product rounded to the nearest integer (up to
      a thousandth): 1.164, 1.597656, 2.015625, 0.8125 and 0.390625. */
  lemma CoefficientsRounded(i: int)
    requires 0 <= i < 256
    ensures -501000 <= 1000000 * Luma(i) - 1164000 * (i - 16) <= 501000
    ensures -501000 <= 1000000 * RedOf(i) - 1597656 * (i - 128) <= 501000
    ensures -501000 <= 1000000 * BlueOf(i) - 2015625 * (i - 128) <= 501000
    ensures -501000 <= 1000000 * GreenOfCr(i) + 812500 * (i - 128) <= 501000
    ensures -501000 <= 1000000 * GreenOfCb(i) + 390625 * (i - 128) <= 501000
  {
  }

  /** A neutral difference shows the reference; any other adds to each channel of it. */
  lemma DifferenceAdds(ref: Sample, d: Sample)
    ensures Combine(ref, NEUTRAL) == ref
    ensures var s := Combine(ref, d);
            s.y - ref.y == d.y - 128 && s.cb - ref.cb == d.cb - 128 && s.cr - ref.cr == d.cr - 128
  {
  }
}
