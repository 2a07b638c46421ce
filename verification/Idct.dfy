/** The fixed-point AAN inverse DCT, its range-limit table, and what they approximate. */
module Idct {

  datatype Vec = Vec(x0: int, x1: int, x2: int, x3: int, x4: int, x5: int, x6: int, x7: int)

  function Component(v: Vec, i: nat): int
    requires i < 8
  {
    if i == 0 then v.x0 else if i == 1 then v.x1 else if i == 2 then v.x2 else if i == 3 then v.x3
    else if i == 4 then v.x4 else if i == 5 then v.x5 else if i == 6 then v.x6 else v.x7
  }

  /** (a * b) >> 8 */
  function Multiply(a: int, b: int): int { a * b / 256 }

  /** One 8-point pass: both the column and the row loop of inverseDCT perform it. */
  function Butterfly(v: Vec): Vec {
    var tmp10, tmp11, tmp12 := v.x0 + v.x4, v.x0 - v.x4, v.x2 + v.x6;
    var tmp13 := Multiply(v.x2 - v.x6, 362) - tmp12;
    var tmp0, tmp3, tmp1, tmp2 := tmp10 + tmp12, tmp10 - tmp12, tmp11 + tmp13, tmp11 - tmp13;
    var z13, z10, z11, z12 := v.x5 + v.x3, v.x5 - v.x3, v.x1 + v.x7, v.x1 - v.x7;
    var tmp7 := z11 + z13;
    var odd11 := Multiply(z11 - z13, 362);
    var z5 := Multiply(z10 + z12, 473);
    var odd10 := Multiply(z12, 277) - z5;
    var odd12 := Multiply(z10, -669) + z5;
    var tmp6 := odd12 - tmp7;
    var tmp5 := odd11 - tmp6;
    var tmp4 := odd10 + tmp5;
    Vec(tmp0 + tmp7, tmp1 + tmp6, tmp2 + tmp5, tmp3 - tmp4, tmp3 + tmp4, tmp2 - tmp5, tmp1 - tmp6, tmp0 - tmp7)
  }

  /* The transform the butterfly stands for. */

  function Abs(x: int): nat { if x < 0 then -x else x }

  function Norm(v: Vec): nat {
    Abs(v.x0) + Abs(v.x1) + Abs(v.x2) + Abs(v.x3) + Abs(v.x4) + Abs(v.x5) + Abs(v.x6) + Abs(v.x7)
  }

  function Dot(k: Vec, v: Vec): int {
    k.x0 * v.x0 + k.x1 * v.x1 + k.x2 * v.x2 + k.x3 * v.x3 + k.x4 * v.x4 + k.x5 * v.x5 + k.x6 * v.x6 + k.x7 * v.x7
  }

  /** Row i of the inverse DCT for inputs scaled as AAN scales them, times 65536: the entry for input j
      is cos((2i+1)j * pi/16) / cos(j * pi/16), rounded. */
  function CosineRow(i: nat): Vec
    requires i < 8
  {
    if i == 0 then Vec(65536, 65536, 65536, 65536, 65536, 65536, 65536, 65536)
    else if i == 1 then Vec(65536, 55559, 27146, -15377, -65536, -115695, -158218, -186631)
    else if i == 2 then Vec(65536, 37123, -27146, -77305, -65536, 23013, 158218, 279313)
    else if i == 3 then Vec(65536, 13036, -65536, -43790, 65536, 98082, -65536, -329472)
    else if i == 4 then Vec(65536, -13036, -65536, 43790, 65536, -98082, -65536, 329472)
    else if i == 5 then Vec(65536, -37123, -27146, 77305, -65536, -23013, 158218, -279313)
    else if i == 6 then Vec(65536, -55559, 27146, 15377, -65536, 115695, -158218, 186631)
    else Vec(65536, -65536, 65536, -65536, 65536, -65536, 65536, -65536)
  }

  /** Row i of the matrix the integer constants encode, times 256. */
  function FixedRow(i: nat): Vec
    requires i < 8
  {
    if i == 0 then Vec(256, 256, 256, 256, 256, 256, 256, 256)
    else if i == 1 then Vec(256, 217, 106, -60, -256, -452, -618, -729)
    else if i == 2 then Vec(256, 145, -106, -302, -256, 90, 618, 1091)
    else if i == 3 then Vec(256, 51, -256, -171, 256, 383, -256, -1287)
    else if i == 4 then Vec(256, -51, -256, 171, 256, -383, -256, 1287)
    else if i == 5 then Vec(256, -145, -106, 302, -256, -90, 618, -1091)
    else if i == 6 then Vec(256, -217, 106, 60, -256, 452, -618, 729)
    else Vec(256, -256, 256, -256, 256, -256, 256, -256)
  }

  /** Every output is the product with the rounded AAN matrix CosineRow, up to three units and 34/65536 of the
      input's size. */
  lemma ButterflyApproximatesIdct(v: Vec, i: nat)
    requires i < 8
    ensures Abs(65536 * Component(Butterfly(v), i) - Dot(CosineRow(i), v)) <= 3 * 65536 + 34 * Norm(v)
  {
    hide Butterfly, Dot, Norm;
    ButterflyIsFixedMatrix(v, i);
    FixedNearCosine(v, i);
  }

  /** Up to the rounding of its few multiplications the butterfly is a matrix product. */
  lemma ButterflyIsFixedMatrix(v: Vec, i: nat)
    requires i < 8
    ensures Abs(256 * Component(Butterfly(v), i) - Dot(FixedRow(i), v)) < 3 * 256
  {
    var z10, z11, z12, z13 := v.x5 - v.x3, v.x1 + v.x7, v.x1 - v.x7, v.x5 + v.x3;
    Floor(v.x2 - v.x6, 362); Floor(z11 - z13, 362); Floor(z10 + z12, 473); Floor(z12, 277); Floor(z10, -669);
  }

  /** The part of a product that a shift by eight drops. */
  lemma Floor(x: int, k: int)
    ensures x * k - 256 < 256 * Multiply(x, k) <= x * k
  {
  }

  lemma FixedNearCosine(v: Vec, i: nat)
    requires i < 8
    ensures Abs(256 * Dot(FixedRow(i), v) - Dot(CosineRow(i), v)) <= 34 * Norm(v)
  {
    hide FixedRow, CosineRow, Dot, Norm;
    DotDifference(v, i);
    DotSmall(Differences(i), v);
  }

  ghost predicate Small(d: Vec) { forall i :: 0 <= i < 8 ==> -34 <= Component(d, i) <= 34 }

  lemma DotSmall(d: Vec, v: Vec)
    requires Small(d)
    ensures Abs(Dot(d, v)) <= 34 * Norm(v)
  {
    assert Component(d, 0) == d.x0 && Component(d, 1) == d.x1 && Component(d, 2) == d.x2 && Component(d, 3) == d.x3;
    assert Component(d, 4) == d.x4 && Component(d, 5) == d.x5 && Component(d, 6) == d.x6 && Component(d, 7) == d.x7;
    Scaled(d.x0, v.x0); Scaled(d.x1, v.x1); Scaled(d.x2, v.x2); Scaled(d.x3, v.x3);
    Scaled(d.x4, v.x4); Scaled(d.x5, v.x5); Scaled(d.x6, v.x6); Scaled(d.x7, v.x7);
  }

  function Differences(i: nat): Vec
    requires i < 8
  {
    if i == 0 then Vec(0, 0, 0, 0, 0, 0, 0, 0)
    else if i == 1 then Vec(0, -7, -10, 17, 0, -17, 10, 7)
    else if i == 2 then Vec(0, -3, 10, -7, 0, 27, -10, -17)
    else if i == 3 then Vec(0, 20, 0, 14, 0, -34, 0, 0)
    else if i == 4 then Vec(0, -20, 0, -14, 0, 34, 0, 0)
    else if i == 5 then Vec(0, 3, 10, 7, 0, -27, -10, 17)
    else if i == 6 then Vec(0, 7, -10, -17, 0, 17, 10, -7)
    else Vec(0, 0, 0, 0, 0, 0, 0, 0)
  }

  lemma DotDifference(v: Vec, i: nat)
    requires i < 8
    ensures 256 * Dot(FixedRow(i), v) - Dot(CosineRow(i), v) == Dot(Differences(i), v)
  {
  }

  lemma Scaled(d: int, x: int)
    requires -34 <= d <= 34
    ensures -34 * Abs(x) <= d * x <= 34 * Abs(x)
  {
  }

  function Constant(x: int): Vec { Vec(x, x, x, x, x, x, x, x) }

  /** The zero-column shortcut computes what the butterfly computes. */
  lemma ShortcutIsButterfly(x: int)
    ensures Butterfly(Vec(x, 0, 0, 0, 0, 0, 0, 0)) == Constant(x)
  {
  }

  /* Dequantisation and the range limit. */

  /** (c * q) >> 16 */
  function Dequantize(c: int, q: int): int { c * q / 65536 }

  /** The 16 fraction bits of a table entry never round. */
  lemma DequantizeExact(c: int, v: int)
    ensures Dequantize(c, 65536 * v) == c * v
  {
    assert c * (65536 * v) == (c * v) * 65536;
  }

  /** The range-limit table of 1408 entries. */
  function RangeAt(i: nat): int {
    if i < 256 then 0 else if i < 512 then i - 256 else if i < 895 then 255 else if i < 1280 then 0 else i % 256
  }

  method InitRangeLimitTable() returns (out: seq<int>)
    ensures |out| == 1408 && forall i :: 0 <= i < 1408 ==> out[i] == RangeAt(i)
  {
    var t := new int[1408](_ => 0);
    for i := 0 to 256
      invariant forall k :: 0 <= k < 256 + i ==> t[k] == RangeAt(k)
      invariant forall k :: 256 + i <= k < 1408 ==> t[k] == 0
    {
      t[256 + i] := i;
    }
    for i := 512 to 895
      invariant forall k :: 0 <= k < i ==> t[k] == RangeAt(k)
      invariant forall k :: i <= k < 1408 ==> t[k] == 0
    {
      t[i] := 255;
    }
    for i := 1280 to 1408
      invariant forall k :: 0 <= k < i ==> t[k] == RangeAt(k)
    {
      t[i] := i % 256;
    }
    out := t[..];
  }

  function Clamp(v: int): (r: int)
    ensures 0 <= r <= 255
  {
    if v < 0 then 0 else if v > 255 then 255 else v
  }

  /** 128 + ((s >> 3) & 0x3FF), looked up 256 entries into the table. */
  function Limit(s: int): (r: int)
    ensures 0 <= r <= 255
  {
    RangeAt(384 + s / 8 % 1024)
  }

  /** The masked lookup is the clamp exactly on these sums; 511 is the first it gets wrong. */
  lemma LimitIsClampExactly(s: int)
    ensures var m := s / 8;
            Limit(s) == Clamp(128 + m) <==>
            || -512 <= m <= 510
            || (m > 510 && 127 <= m % 1024 <= 510)
            || (m < -512 && 511 <= m % 1024 <= 896)
  {
  }

  /* The transform of a block. */

  function InColumn(c: seq<int>, q: seq<int>, col: nat): Vec
    requires |c| == |q| == 64 && col < 8
  {
    Vec(Dequantize(c[col], q[col]), Dequantize(c[col + 8], q[col + 8]), Dequantize(c[col + 16], q[col + 16]),
        Dequantize(c[col + 24], q[col + 24]), Dequantize(c[col + 32], q[col + 32]),
          Dequantize(c[col + 40], q[col + 40]),
        Dequantize(c[col + 48], q[col + 48]), Dequantize(c[col + 56], q[col + 56]))
  }

  function Workspace(c: seq<int>, q: seq<int>): (w: seq<int>)
    requires |c| == |q| == 64
    ensures |w| == 64
  {
    seq(64, i requires 0 <= i < 64 => Component(Butterfly(InColumn(c, q, i % 8)), i / 8))
  }

  function InRow(w: seq<int>, row: nat): Vec
    requires |w| == 64 && row < 8
  {
    Vec(AtOffset(w, row, 0), AtOffset(w, row, 1), AtOffset(w, row, 2), AtOffset(w, row, 3),
        AtOffset(w, row, 4), AtOffset(w, row, 5), AtOffset(w, row, 6), AtOffset(w, row, 7))
  }

  /** The 64 samples of a block of coefficients. */
  function Samples(c: seq<int>, q: seq<int>): (t: seq<int>)
    requires |c| == |q| == 64
    ensures |t| == 64
  {
    seq(64, i requires 0 <= i < 64 => Limit(Component(Butterfly(InRow(Workspace(c, q), i / 8)), i % 8)))
  }

  lemma SamplesInRange(c: seq<int>, q: seq<int>)
    requires |c| == |q| == 64
    ensures forall i :: 0 <= i < 64 ==> 0 <= Samples(c, q)[i] <= 255
  {
    hide Butterfly, Component, Workspace, InRow;
  }

  /** A block with only a DC coefficient decodes to one constant, the limited DC term. */
  lemma DcOnlyIsConstant(c: seq<int>, q: seq<int>)
    requires |c| == |q| == 64 && forall i :: 1 <= i < 64 ==> c[i] == 0
    ensures forall i :: 0 <= i < 64 ==> Samples(c, q)[i] == Limit(Dequantize(c[0], q[0]))
  {
    hide Limit, Butterfly, Workspace, Component, Dequantize;
    var dc := Dequantize(c[0], q[0]);
    forall i | 0 <= i < 64 ensures Samples(c, q)[i] == Limit(dc) {
      ShortcutIsButterfly(dc);
      DcOnlyRow(c, q, i / 8);
      ConstantComponent(dc, i % 8);
    }
  }

  lemma ConstantComponent(x: int, i: nat)
    requires i < 8
    ensures Component(Constant(x), i) == x
  {
  }

  lemma DcOnlyColumn(c: seq<int>, q: seq<int>, i: nat)
    requires |c| == |q| == 64 && i < 64 && forall i :: 1 <= i < 64 ==> c[i] == 0
    ensures Workspace(c, q)[i] == if i % 8 == 0 then Dequantize(c[0], q[0]) else 0
  {
    hide Butterfly, Component;
    var x := if i % 8 == 0 then Dequantize(c[0], q[0]) else 0;
    assert InColumn(c, q, i % 8) == Vec(x, 0, 0, 0, 0, 0, 0, 0);
    ShortcutIsButterfly(x);
    ConstantComponent(x, i / 8);
  }

  function AtOffset(w: seq<int>, row: nat, k: nat): int
    requires |w| == 64 && row < 8 && k < 8
  {
    w[8 * row + k]
  }

  lemma DcOnlyRow(c: seq<int>, q: seq<int>, row: nat)
    requires |c| == |q| == 64 && row < 8 && forall i :: 1 <= i < 64 ==> c[i] == 0
    ensures InRow(Workspace(c, q), row) == Vec(Dequantize(c[0], q[0]), 0, 0, 0, 0, 0, 0, 0)
  {
    hide Workspace;
    forall k | 0 <= k < 8 ensures AtOffset(Workspace(c, q), row, k) == if k == 0 then Dequantize(c[0], q[0]) else 0 {
      DcOnlyColumn(c, q, 8 * row + k);
    }
  }

  /** Blank coefficients decode to the neutral value 128, which the decoder does not draw. */
  lemma BlankIsNeutral(c: seq<int>, q: seq<int>)
    requires |c| == |q| == 64 && forall i :: 0 <= i < 64 ==> c[i] == 0
    ensures forall i :: 0 <= i < 64 ==> Samples(c, q)[i] == 128
  {
    DcOnlyIsConstant(c, q);
    assert Dequantize(0, q[0]) == 0;
    assert Limit(0) == 128;
  }

  /* The in-place passes. */

  method ColumnPass(coeff: array<int>, offset: nat, col: nat, q: seq<int>, ws: array<int>)
    requires offset + 64 <= coeff.Length && ws.Length == 64 && coeff != ws && col < 8 && |q| == 64
    modifies ws
    ensures var v := Butterfly(InColumn(coeff[offset..offset + 64], q, col));
            forall i :: 0 <= i < 64 ==> ws[i] == if i % 8 == col then Component(v, i / 8) else old(ws[i])
  {
    hide Butterfly, InColumn;
    var out := Column(coeff, offset, col, q);
    ws[col], ws[col + 8], ws[col + 16], ws[col + 24] := out.x0, out.x1, out.x2, out.x3;
    ws[col + 32], ws[col + 40], ws[col + 48], ws[col + 56] := out.x4, out.x5, out.x6, out.x7;
  }

  /** One column, with the shortcut for columns that hold only their first coefficient. */
  method Column(coeff: array<int>, offset: nat, col: nat, q: seq<int>) returns (out: Vec)
    requires offset + 64 <= coeff.Length && col < 8 && |q| == 64
    ensures out == Butterfly(InColumn(coeff[offset..offset + 64], q, col))
  {
    hide Butterfly;
    var src := offset + col;
    var dc := Dequantize(coeff[src], q[col]);
    if coeff[src + 8] == 0 && coeff[src + 16] == 0 && coeff[src + 24] == 0 && coeff[src + 32] == 0
       && coeff[src + 40] == 0 && coeff[src + 48] == 0 && coeff[src + 56] == 0 {
      ShortcutIsButterfly(dc);
      out := Constant(dc);
    } else {
      out := Butterfly(Vec(
        dc, Dequantize(coeff[src + 8], q[col + 8]),
        Dequantize(coeff[src + 16], q[col + 16]), Dequantize(coeff[src + 24], q[col + 24]),
        Dequantize(coeff[src + 32], q[col + 32]), Dequantize(coeff[src + 40], q[col + 40]),
        Dequantize(coeff[src + 48], q[col + 48]), Dequantize(coeff[src + 56], q[col + 56])));
    }
  }

  /** The limited value through the loaded table. */
  method Lookup(limit: seq<int>, s: int) returns (r: int)
    requires |limit| == 1408 && forall i :: 0 <= i < 1408 ==> limit[i] == RangeAt(i)
    ensures r == Limit(s)
  {
    var val := 128 + s / 8 % 1024;
    r := limit[val + 256];
  }

  method RowPass(ws: array<int>, row: nat, limit: seq<int>, tile: array<int>, outBase: nat)
    requires ws.Length == 64 && row < 8 && outBase + 8 <= tile.Length && ws != tile
    requires |limit| == 1408 && forall i :: 0 <= i < 1408 ==> limit[i] == RangeAt(i)
    modifies tile
    ensures var v := Butterfly(InRow(ws[..], row));
            forall i :: 0 <= i < tile.Length ==>
              tile[i] == if outBase <= i < outBase + 8 then Limit(Component(v, i - outBase)) else old(tile[i])
  {
    hide Butterfly, Limit, RangeAt;
    var b := 8 * row;
    var v := Butterfly(Vec(ws[b], ws[b + 1], ws[b + 2], ws[b + 3], ws[b + 4], ws[b + 5], ws[b + 6], ws[b + 7]));
    for i := 0 to 8
      invariant forall k :: 0 <= k < tile.Length ==>
                  tile[k] == if outBase <= k < outBase + i then Limit(Component(v, k - outBase)) else old(tile[k])
    {
      tile[outBase + i] := Lookup(limit, Component(v, i));
    }
  }

  /** The transform in place: one block of the coefficient buffer to one block of the tile. */
  method InverseDct(coeff: array<int>, offset: nat, q: seq<int>, ws: array<int>, limit: seq<int>, tile: array<int>)
    requires offset + 64 <= coeff.Length && offset + 64 <= tile.Length && ws.Length == 64 && |q| == 64
    requires coeff != ws && coeff != tile && ws != tile
    requires |limit| == 1408 && forall i :: 0 <= i < 1408 ==> limit[i] == RangeAt(i)
    modifies ws, tile
    ensures var s := Samples(coeff[offset..offset + 64], q);
            forall i :: 0 <= i < tile.Length ==>
              tile[i] == if offset <= i < offset + 64 then s[i - offset] else old(tile[i])
  {
    hide Butterfly, Limit, RangeAt, InColumn, InRow, Component, Workspace;
    ghost var w := Workspace(coeff[offset..offset + 64], q);
    ColumnPasses(coeff, offset, q, ws);
    assert ws[..] == w;
    for row := 0 to 8
      invariant ws[..] == w
      invariant forall i :: 0 <= i < tile.Length ==>
                  tile[i] == if offset <= i < offset + 8 * row
                             then Samples(coeff[offset..offset + 64], q)[i - offset] else old(tile[i])
    {
      RowPass(ws, row, limit, tile, offset + 8 * row);
    }
  }

  method ColumnPasses(coeff: array<int>, offset: nat, q: seq<int>, ws: array<int>)
    requires offset + 64 <= coeff.Length && ws.Length == 64 && |q| == 64 && coeff != ws
    modifies ws
    ensures ws[..] == Workspace(coeff[offset..offset + 64], q)
  {
    hide Butterfly, InColumn, Component;
    for col := 0 to 8
      invariant forall i :: 0 <= i < 64 && i % 8 < col ==> ws[i] == Workspace(coeff[offset..offset + 64], q)[i]
    {
      ColumnPass(coeff, offset, col, q, ws);
    }
  }
}
