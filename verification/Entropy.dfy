/** Entropy coding of one 8x8 data unit: the table-driven decoder against a reference T.81 encoder. */
module Entropy {
  import opened Bits
  import opened Tables
  import opened Huffman
  import opened BitReading

  /* The decoder, as a function of the bit stream. */

  datatype Scan = Scan(coeff: seq<int>, pos: nat)

  datatype Unit = Unit(coeff: seq<int>, dc: int, pos: nat)

  /** The AC loop from index k on, with the coefficients placed so far. */
  function DecodeAc(ac: Table, buf: seq<Word>, p: nat, k: nat, coeff: seq<int>): (r: Scan)
    requires Usable(ac, 255) && buf != [] && |coeff| == 64 && k >= 1
    ensures |r.coeff| == 64 && r.pos >= p
    decreases 64 - k
  {
    if k >= 64 then Scan(coeff, p)
    else
      var s := DecodeSymbol(ac, 255, buf, p);
      var size, run, q := s.value % 16, s.value / 16, p + s.size;
      if size == 0 then
        if run != 15 then Scan(coeff, q) else DecodeAc(ac, buf, q, k + 16, coeff)
      else if k + run < 64 then
        var v := Extend(Val(Window(buf, q, size)), size);
        DecodeAc(ac, buf, q + size, k + run + 1, coeff[Dezigzag(k + run) := v])
      else DecodeAc(ac, buf, q, k + run + 1, coeff)
  }

  /** A cleared block with its DC coefficient set. */
  function FirstCoefficient(dc: int): (c: seq<int>)
    ensures |c| == 64 && c[0] == dc && forall i :: 1 <= i < 64 ==> c[i] == 0
  {
    seq(64, i => if i == 0 then dc else 0)
  }

  /** The DC step: the coefficient, the new predictor and the position after it. */
  function DecodeDc(dc: Table, buf: seq<Word>, p: nat, pred: int): (r: (int, int, nat))
    requires Usable(dc, 11) && buf != []
    ensures r.2 > p
  {
    var s := DecodeSymbol(dc, 11, buf, p);
    var q := p + s.size;
    if s.value == 0 then (pred, pred, q)
    else
      var sum := pred + Extend(Val(Window(buf, q, s.value)), s.value);
      (sum, Wrap16(sum), q + s.value)
  }

  function DecodeUnit(dc: Table, ac: Table, buf: seq<Word>, p: nat, pred: int): (u: Unit)
    requires Usable(dc, 11) && Usable(ac, 255) && buf != []
    ensures |u.coeff| == 64 && u.pos > p
  {
    var d := DecodeDc(dc, buf, p, pred);
    var s := DecodeAc(ac, buf, d.2, 1, FirstCoefficient(d.0));
    Unit(s.coeff, d.1, s.pos)
  }

  /* The reference encoder: sections F.1.2.1 and F.1.2.2 of ITU-T T.81. */

  datatype Component = Luma | Chroma

  function DcCode(x: Component): Code { if x == Luma then DC_LUMA else DC_CHROMA }
  function AcCode(x: Component): Code { if x == Luma then AC_LUMA else AC_CHROMA }

  ghost predicate AcSymbol(run: nat, size: nat) {
    (run < 16 && 1 <= size <= 10) || (size == 0 && (run == 0 || run == 15))
  }

  function Position(x: Component, run: nat, size: nat): nat
    requires run < 16 && size < 11
  {
    if x == Luma then AC_LUMA_POSITION[run][size] else AC_CHROMA_POSITION[run][size]
  }

  /** SSSS: the number of bits of the magnitude of v. */
  function Category(v: int): (k: nat)
    ensures k == 0 <==> v == 0
    decreases if v < 0 then -v else v
  {
    if v == 0 then 0 else Category((if v < 0 then -v else v) / 2) + 1
  }

  function Magnitude(v: int): (b: seq<bool>)
    ensures |b| == Category(v)
  {
    CategoryBound(v);
    BitsOf(Category(v), if v >= 0 then v else v + Pow2(Category(v)) - 1)
  }

  lemma {:induction false} CategoryBound(v: int)
    ensures v > 0 ==> Pow2(Category(v) - 1) <= v < Pow2(Category(v))
    ensures v < 0 ==> Pow2(Category(v) - 1) <= -v < Pow2(Category(v))
    decreases if v < 0 then -v else v
  {
    if v != 0 { CategoryBound((if v < 0 then -v else v) / 2); }
  }

  lemma MagnitudeExtends(v: int)
    requires v != 0
    ensures Extend(Val(Magnitude(v)), Category(v)) == v
  {
    CategoryBound(v);
    var k := Category(v);
    ValBitsOf(k, if v >= 0 then v else v + Pow2(k) - 1);
  }

  ghost predicate AllZero(zz: seq<int>, k: nat)
    requires |zz| == 64
  {
    forall i :: k <= i < 64 ==> zz[i] == 0
  }

  /** The length of the run of zeros at k. */
  ghost function ZeroRun(zz: seq<int>, k: nat): (r: nat)
    requires |zz| == 64 && k < 64 && !AllZero(zz, k)
    ensures k + r < 64 && zz[k + r] != 0 && forall i :: k <= i < k + r ==> zz[i] == 0
    decreases 64 - k
  {
    if zz[k] != 0 then 0 else 1 + ZeroRun(zz, k + 1)
  }

  ghost predicate Encodable(zz: seq<int>) {
    |zz| == 64 && forall i :: 1 <= i < 64 ==> Category(zz[i]) <= 10
  }

  ghost function SymbolBits(x: Component, run: nat, size: nat): seq<bool>
    requires AcSymbol(run, size)
  {
    PositionRight(x, run, size);
    TablesReady(x);
    CodeBits(AcCode(x).counts, Position(x, run, size))
  }

  ghost function EncodeAc(x: Component, zz: seq<int>, k: nat): seq<bool>
    requires Encodable(zz) && 1 <= k <= 64
    decreases 64 - k
  {
    if k == 64 then []
    else if AllZero(zz, k) then SymbolBits(x, 0, 0)
    else
      var r := ZeroRun(zz, k);
      if r >= 16 then SymbolBits(x, 15, 0) + EncodeAc(x, zz, k + 16)
      else
        var v := zz[k + r];
        SymbolBits(x, r, Category(v)) + (Magnitude(v) + EncodeAc(x, zz, k + r + 1))
  }

  ghost function DcSymbolBits(x: Component, n: nat): seq<bool>
    requires n < 12
  {
    TablesReady(x);
    CodeBits(DcCode(x).counts, n)
  }

  ghost function EncodeDc(x: Component, diff: int): seq<bool>
    requires Category(diff) <= 11
  {
    DcSymbolBits(x, Category(diff)) + Magnitude(diff)
  }

  /** A block in natural order, scanned along the diagonals. */
  ghost function Scanned(block: seq<int>): (zz: seq<int>)
    requires |block| == 64
    ensures |zz| == 64 && forall i :: 0 <= i < 64 ==> zz[i] == block[Dezigzag(i)]
  {
    hide Dezigzag, ScanStep;
    assert forall i :: 0 <= i < 64 ==> ScanCell(i) == Dezigzag(i) by {
      forall i | 0 <= i < 64 ensures ScanCell(i) == Dezigzag(i) { DezigzagIsScan(i); }
    }
    seq(64, i requires 0 <= i < 64 => block[ScanCell(i)])
  }

  ghost function EncodeUnit(x: Component, block: seq<int>, pred: int): seq<bool>
    requires |block| == 64 && Encodable(Scanned(block)) && Category(block[0] - pred) <= 11
  {
    EncodeDc(x, block[0] - pred) + EncodeAc(x, Scanned(block), 1)
  }

  /* The tables hold every symbol the encoder uses. */

  lemma TablesReady(x: Component)
    ensures WellFormed(DcCode(x).counts) && Sum(DcCode(x).counts, 16) == |DcCode(x).values| == 12
    ensures WellFormed(AcCode(x).counts) && Sum(AcCode(x).counts, 16) == |AcCode(x).values| == 162
  {
    hide SumsRight, FillRight, RangesRight, Increasing, Sum;
    if x == Luma { DcLumaReady(); AcLumaReady(); } else { DcChromaReady(); AcChromaReady(); }
  }

  lemma DcLumaReady()
    ensures WellFormed(DC_LUMA.counts) && Sum(DC_LUMA.counts, 16) == 12
  {
    hide FillRight, RangesRight, Increasing, Sum;
    DcLumaCertified();
    CertifiedSums(DC_LUMA, DC_LUMA_SUMS, DC_LUMA_FILL, 16);
  }

  lemma DcChromaReady()
    ensures WellFormed(DC_CHROMA.counts) && Sum(DC_CHROMA.counts, 16) == 12
  {
    hide FillRight, RangesRight, Increasing, Sum;
    DcChromaCertified();
    CertifiedSums(DC_CHROMA, DC_CHROMA_SUMS, DC_CHROMA_FILL, 16);
  }

  lemma AcLumaReady()
    ensures WellFormed(AC_LUMA.counts) && Sum(AC_LUMA.counts, 16) == 162
  {
    hide FillRight, RangesRight, Increasing, Sum;
    AcLumaCertified();
    CertifiedSums(AC_LUMA, AC_LUMA_SUMS, AC_LUMA_FILL, 16);
  }

  lemma AcChromaReady()
    ensures WellFormed(AC_CHROMA.counts) && Sum(AC_CHROMA.counts, 16) == 162
  {
    hide FillRight, RangesRight, Increasing, Sum;
    AcChromaCertified();
    CertifiedSums(AC_CHROMA, AC_CHROMA_SUMS, AC_CHROMA_FILL, 16);
  }

  lemma DcPosition(x: Component, n: nat)
    requires n < 12
    ensures DcCode(x).values[n] == n
  {
  }

  lemma PositionRight(x: Component, run: nat, size: nat)
    requires AcSymbol(run, size)
    ensures Position(x, run, size) < 162 && AcCode(x).values[Position(x, run, size)] == 16 * run + size
  {
    if x == Luma {
      if run < 4 { LumaRuns0(run, size); } else if run < 8 { LumaRuns4(run, size); }
      else if run < 12 { LumaRuns8(run, size); } else { LumaRuns12(run, size); }
    } else {
      if run < 4 { ChromaRuns0(run, size); } else if run < 8 { ChromaRuns4(run, size); }
      else if run < 12 { ChromaRuns8(run, size); } else { ChromaRuns12(run, size); }
    }
  }

  lemma LumaRuns0(run: nat, size: nat)
    requires AcSymbol(run, size) && 0 <= run < 4
    ensures 0 <= AC_LUMA_POSITION[run][size] < 162 && AC_LUMA.values[AC_LUMA_POSITION[run][size]] == 16 * run + size
  {
  }

  lemma LumaRuns4(run: nat, size: nat)
    requires AcSymbol(run, size) && 4 <= run < 8
    ensures 0 <= AC_LUMA_POSITION[run][size] < 162 && AC_LUMA.values[AC_LUMA_POSITION[run][size]] == 16 * run + size
  {
  }

  lemma LumaRuns8(run: nat, size: nat)
    requires AcSymbol(run, size) && 8 <= run < 12
    ensures 0 <= AC_LUMA_POSITION[run][size] < 162 && AC_LUMA.values[AC_LUMA_POSITION[run][size]] == 16 * run + size
  {
  }

  lemma LumaRuns12(run: nat, size: nat)
    requires AcSymbol(run, size) && 12 <= run < 16
    ensures 0 <= AC_LUMA_POSITION[run][size] < 162 && AC_LUMA.values[AC_LUMA_POSITION[run][size]] == 16 * run + size
  {
  }

  lemma ChromaRuns0(run: nat, size: nat)
    requires AcSymbol(run, size) && 0 <= run < 4
    ensures 0 <= AC_CHROMA_POSITION[run][size] < 162
    ensures AC_CHROMA.values[AC_CHROMA_POSITION[run][size]] == 16 * run + size
  {
  }

  lemma ChromaRuns4(run: nat, size: nat)
    requires AcSymbol(run, size) && 4 <= run < 8
    ensures 0 <= AC_CHROMA_POSITION[run][size] < 162
    ensures AC_CHROMA.values[AC_CHROMA_POSITION[run][size]] == 16 * run + size
  {
  }

  lemma ChromaRuns8(run: nat, size: nat)
    requires AcSymbol(run, size) && 8 <= run < 12
    ensures 0 <= AC_CHROMA_POSITION[run][size] < 162
    ensures AC_CHROMA.values[AC_CHROMA_POSITION[run][size]] == 16 * run + size
  {
  }

  lemma ChromaRuns12(run: nat, size: nat)
    requires AcSymbol(run, size) && 12 <= run < 16
    ensures 0 <= AC_CHROMA_POSITION[run][size] < 162
    ensures AC_CHROMA.values[AC_CHROMA_POSITION[run][size]] == 16 * run + size
  {
  }

  /* Round trip. */

  /** The four tables as initHuffmanTables loads them. */
  ghost predicate Standard(x: Component, dc: Table, ac: Table) {
    Loaded(dc, DcCode(x)) && Loaded(ac, AcCode(x)) && Usable(dc, 11) && Usable(ac, 255)
  }

  lemma AcSymbolDecodes(x: Component, dc: Table, ac: Table, buf: seq<Word>, p: nat, run: nat, size: nat)
    requires Standard(x, dc, ac) && buf != [] && AcSymbol(run, size)
    requires Window(buf, p, |SymbolBits(x, run, size)|) == SymbolBits(x, run, size)
    ensures DecodeSymbol(ac, 255, buf, p) == Symbol(16 * run + size, |SymbolBits(x, run, size)|)
  {
    hide Loaded, Usable, Certified, HuffSize, HuffCode, Window, DecodeSymbol, Sum, Position;
    TablesReady(x);
    PositionRight(x, run, size);
    var n := Position(x, run, size);
    if x == Luma {
      AcLumaCertified();
      DecodesCode(AC_LUMA, AC_LUMA_SUMS, AC_LUMA_FILL, ac, 255, buf, p, n);
    } else {
      AcChromaCertified();
      DecodesCode(AC_CHROMA, AC_CHROMA_SUMS, AC_CHROMA_FILL, ac, 255, buf, p, n);
    }
  }

  lemma DcSymbolDecodes(x: Component, dc: Table, ac: Table, buf: seq<Word>, p: nat, n: nat)
    requires Standard(x, dc, ac) && buf != [] && n < 12
    requires Window(buf, p, |DcSymbolBits(x, n)|) == DcSymbolBits(x, n)
    ensures DecodeSymbol(dc, 11, buf, p) == Symbol(n, |DcSymbolBits(x, n)|)
  {
    hide Loaded, Usable, Certified, HuffSize, HuffCode, Window, DecodeSymbol, Sum;
    TablesReady(x);
    DcPosition(x, n);
    if x == Luma {
      DcLumaCertified();
      DecodesCode(DC_LUMA, DC_LUMA_SUMS, DC_LUMA_FILL, dc, 11, buf, p, n);
    } else {
      DcChromaCertified();
      DecodesCode(DC_CHROMA, DC_CHROMA_SUMS, DC_CHROMA_FILL, dc, 11, buf, p, n);
    }
  }

  /** The coefficients of index 1 .. k - 1 are in place and the later ones are still zero. */
  ghost predicate Placed(coeff: seq<int>, zz: seq<int>, k: nat) {
    |coeff| == |zz| == 64 && forall i :: 1 <= i < 64 ==> coeff[Dezigzag(i)] == if i < k then zz[i] else 0
  }

  lemma PlaceNext(coeff: seq<int>, zz: seq<int>, k: nat, r: nat)
    requires Placed(coeff, zz, k) && 1 <= k && k + r < 64 && forall i :: k <= i < k + r ==> zz[i] == 0
    ensures Placed(coeff[Dezigzag(k + r) := zz[k + r]], zz, k + r + 1)
    ensures coeff[Dezigzag(k + r) := zz[k + r]][0] == coeff[0]
  {
    hide Dezigzag;
    var j := k + r;
    ScanOrdersInvert(j);
    ZeroFirst();
    forall i | 1 <= i < 64 && i != j ensures Dezigzag(i) != Dezigzag(j) {
      ScanOrdersInvert(i);
    }
  }

  lemma ZeroFirst()
    ensures Zigzag(0) == 0 && Dezigzag(0) == 0
  {
  }

  lemma PlacedSkip(coeff: seq<int>, zz: seq<int>, k: nat, n: nat)
    requires Placed(coeff, zz, k) && k <= n && forall i :: k <= i < n && i < 64 ==> zz[i] == 0
    ensures Placed(coeff, zz, n)
  {
  }

  lemma StepZero(ac: Table, buf: seq<Word>, p: nat, k: nat, coeff: seq<int>, run: nat, n: nat)
    requires Usable(ac, 255) && buf != [] && |coeff| == 64 && 1 <= k < 64
    requires DecodeSymbol(ac, 255, buf, p) == Symbol(16 * run, n)
    ensures run != 15 ==> DecodeAc(ac, buf, p, k, coeff) == Scan(coeff, p + n)
    ensures run == 15 ==> DecodeAc(ac, buf, p, k, coeff) == DecodeAc(ac, buf, p + n, k + 16, coeff)
  {
    hide DecodeSymbol, Usable, Window, Extend, Val, Dezigzag;
    SplitSymbol(run, 0);
  }

  lemma StepValue(ac: Table, buf: seq<Word>, p: nat, k: nat, coeff: seq<int>, run: nat, size: nat, n: nat)
    requires Usable(ac, 255) && buf != [] && |coeff| == 64 && 1 <= k && k + run < 64 && 1 <= size < 16
    requires DecodeSymbol(ac, 255, buf, p) == Symbol(16 * run + size, n)
    ensures var v := Extend(Val(Window(buf, p + n, size)), size);
            DecodeAc(ac, buf, p, k, coeff) ==
              DecodeAc(ac, buf, p + n + size, k + run + 1, coeff[Dezigzag(k + run) := v])
  {
    hide DecodeSymbol, Usable, Window, Extend, Val, Dezigzag;
    SplitSymbol(run, size);
  }

  /** The AC loop, started on an encoded tail, places exactly that tail and consumes exactly its bits. */
  lemma {:induction false} AcRoundTrip(x: Component, dc: Table, ac: Table, buf: seq<Word>, p: nat, zz: seq<int>,
                                       k: nat, coeff: seq<int>)
    requires Standard(x, dc, ac) && buf != [] && Encodable(zz) && 1 <= k <= 64 && Placed(coeff, zz, k)
    requires Window(buf, p, |EncodeAc(x, zz, k)|) == EncodeAc(x, zz, k)
    ensures var r := DecodeAc(ac, buf, p, k, coeff);
            Placed(r.coeff, zz, 64) && r.coeff[0] == coeff[0] && r.pos == p + |EncodeAc(x, zz, k)|
    decreases 64 - k
  {
    hide Loaded, Usable, Window, DecodeSymbol, SymbolBits, Magnitude, Extend, Category, Dezigzag, ZeroRun;
    if k < 64 {
      if AllZero(zz, k) {
        AcEnd(x, dc, ac, buf, p, zz, k, coeff);
      } else if ZeroRun(zz, k) >= 16 {
        AcZeroRun(x, dc, ac, buf, p, zz, k, coeff);
      } else {
        AcCoefficient(x, dc, ac, buf, p, zz, k, coeff, ZeroRun(zz, k));
      }
    }
  }

  lemma AcEnd(x: Component, dc: Table, ac: Table, buf: seq<Word>, p: nat, zz: seq<int>, k: nat, coeff: seq<int>)
    requires Standard(x, dc, ac) && buf != [] && Encodable(zz) && 1 <= k < 64 && Placed(coeff, zz, k)
    requires Window(buf, p, |EncodeAc(x, zz, k)|) == EncodeAc(x, zz, k)
    requires AllZero(zz, k)
    ensures DecodeAc(ac, buf, p, k, coeff) == Scan(coeff, p + |EncodeAc(x, zz, k)|) && Placed(coeff, zz, 64)
  {
    hide Loaded, Usable, Window, DecodeSymbol, SymbolBits, DecodeAc;
    AcSymbolDecodes(x, dc, ac, buf, p, 0, 0);
    StepZero(ac, buf, p, k, coeff, 0, |SymbolBits(x, 0, 0)|);
    PlacedSkip(coeff, zz, k, 64);
  }

  lemma EncodeZeroRun(x: Component, zz: seq<int>, k: nat)
    requires Encodable(zz) && 1 <= k < 64 && !AllZero(zz, k) && ZeroRun(zz, k) >= 16
    ensures EncodeAc(x, zz, k) == SymbolBits(x, 15, 0) + EncodeAc(x, zz, k + 16)
  {
    hide SymbolBits, ZeroRun, Category;
  }

  lemma AcZeroRun(x: Component, dc: Table, ac: Table, buf: seq<Word>, p: nat, zz: seq<int>, k: nat, coeff: seq<int>)
    requires Standard(x, dc, ac) && buf != [] && Encodable(zz) && 1 <= k < 64 && Placed(coeff, zz, k)
    requires Window(buf, p, |EncodeAc(x, zz, k)|) == EncodeAc(x, zz, k)
    requires |coeff| == |zz| == 64 && Usable(ac, 255) && !AllZero(zz, k) && ZeroRun(zz, k) >= 16
    ensures var r := DecodeAc(ac, buf, p, k, coeff);
            Placed(r.coeff, zz, 64) && r.coeff[0] == coeff[0] && r.pos == p + |EncodeAc(x, zz, k)|
    decreases 64 - k, 0
  {
    hide Standard, Window, DecodeSymbol, SymbolBits, EncodeAc, DecodeAc, ZeroRun, Placed, Encodable;
    var sym, rest := SymbolBits(x, 15, 0), EncodeAc(x, zz, k + 16);
    EncodeZeroRun(x, zz, k);
    WindowTail(buf, p, sym, rest);
    AcSymbolDecodes(x, dc, ac, buf, p, 15, 0);
    StepZero(ac, buf, p, k, coeff, 15, |sym|);
    PlacedSkip(coeff, zz, k, k + 16);
    AcRoundTrip(x, dc, ac, buf, p + |sym|, zz, k + 16, coeff);
  }

  lemma AcCoefficient(x: Component, dc: Table, ac: Table, buf: seq<Word>, p: nat, zz: seq<int>, k: nat,
                      coeff: seq<int>, r: nat)
    requires Standard(x, dc, ac) && buf != [] && Encodable(zz) && 1 <= k < 64 && Placed(coeff, zz, k)
    requires Window(buf, p, |EncodeAc(x, zz, k)|) == EncodeAc(x, zz, k)
    requires |coeff| == |zz| == 64 && Usable(ac, 255) && !AllZero(zz, k) && r == ZeroRun(zz, k) < 16
    ensures var r := DecodeAc(ac, buf, p, k, coeff);
            Placed(r.coeff, zz, 64) && r.coeff[0] == coeff[0] && r.pos == p + |EncodeAc(x, zz, k)|
    decreases 64 - k, 0
  {
    hide Standard, Window, DecodeSymbol, SymbolBits, Magnitude, Extend, Category, Dezigzag, Val, DecodeAc, EncodeAc,
      ZeroRun, Placed;
    var v := zz[k + r];
    var size := Category(v);
    var sym, mag, rest := SymbolBits(x, r, size), Magnitude(v), EncodeAc(x, zz, k + r + 1);
    EncodeValue(x, zz, k);
    WindowTail(buf, p, sym, mag + rest);
    WindowTail(buf, p + |sym|, mag, rest);
    AcSymbolDecodes(x, dc, ac, buf, p, r, size);
    MagnitudeExtends(v);
    StepValue(ac, buf, p, k, coeff, r, size, |sym|);
    PlaceNext(coeff, zz, k, r);
    AcRoundTrip(x, dc, ac, buf, p + |sym| + size, zz, k + r + 1, coeff[Dezigzag(k + r) := v]);
  }

  lemma EncodeValue(x: Component, zz: seq<int>, k: nat)
    requires Encodable(zz) && 1 <= k < 64 && !AllZero(zz, k) && ZeroRun(zz, k) < 16
    ensures var r := ZeroRun(zz, k);
            var v := zz[k + r];
            EncodeAc(x, zz, k) == SymbolBits(x, r, Category(v)) + (Magnitude(v) + EncodeAc(x, zz, k + r + 1))
  {
    hide SymbolBits, ZeroRun, Category, Magnitude;
  }

  lemma SplitSymbol(run: nat, size: nat)
    requires size < 16
    ensures (16 * run + size) % 16 == size && (16 * run + size) / 16 == run
  {
  }

  lemma DcRoundTrip(x: Component, dc: Table, ac: Table, buf: seq<Word>, p: nat, value: int, pred: int, diff: int)
    requires Standard(x, dc, ac) && buf != [] && diff == value - pred && Category(diff) <= 11 && -32768 <= value < 32768
    requires Window(buf, p, |EncodeDc(x, diff)|) == EncodeDc(x, diff)
    ensures DecodeDc(dc, buf, p, pred) == (value, value, p + |EncodeDc(x, diff)|)
  {
    hide Loaded, Usable, Window, DecodeSymbol, DcSymbolBits, Magnitude, Extend, Category, Val;
    var n := Category(diff);
    WindowTail(buf, p, DcSymbolBits(x, n), Magnitude(diff));
    DcSymbolDecodes(x, dc, ac, buf, p, n);
    if diff != 0 { MagnitudeExtends(diff); }
  }

  /** Entropy round trip: on any stream that goes on with the encoding of a block, the decoder returns
      exactly that block, the block's DC value as the next predictor, and consumes exactly its bits. */
  lemma UnitRoundTrip(x: Component, dc: Table, ac: Table, buf: seq<Word>, p: nat, block: seq<int>, pred: int)
    requires Standard(x, dc, ac) && buf != []
    requires |block| == 64 && Encodable(Scanned(block)) && Category(block[0] - pred) <= 11
    requires -32768 <= block[0] < 32768
    requires Window(buf, p, |EncodeUnit(x, block, pred)|) == EncodeUnit(x, block, pred)
    ensures DecodeUnit(dc, ac, buf, p, pred) == Unit(block, block[0], p + |EncodeUnit(x, block, pred)|)
  {
    hide Loaded, Usable, Window, EncodeDc, EncodeAc, DecodeDc, DecodeAc, Category, Encodable, Dezigzag;
    var zz := Scanned(block);
    var a, b := EncodeDc(x, block[0] - pred), EncodeAc(x, zz, 1);
    WindowTail(buf, p, a, b);
    DcRoundTrip(x, dc, ac, buf, p, block[0], pred, block[0] - pred);
    var start := FirstCoefficient(block[0]);
    StartPlaced(block[0], zz);
    AcRoundTrip(x, dc, ac, buf, p + |a|, zz, 1, start);
    var c := DecodeAc(ac, buf, p + |a|, 1, start).coeff;
    PlacedIsBlock(c, block);
  }

  lemma StartPlaced(dc: int, zz: seq<int>)
    requires |zz| == 64
    ensures Placed(FirstCoefficient(dc), zz, 1)
  {
    hide Dezigzag;
    ZeroFirst();
    forall i | 1 <= i < 64 ensures Dezigzag(i) != 0 { ScanOrdersInvert(i); }
  }

  lemma PlacedIsBlock(c: seq<int>, block: seq<int>)
    requires |block| == 64 && Placed(c, Scanned(block), 64) && c[0] == block[0]
    ensures c == block
  {
    hide Dezigzag, Zigzag;
    ZeroFirst();
    forall j | 0 <= j < 64 ensures c[j] == block[j] {
      ScanOrdersInvert(j);
      if j > 0 {
        assert Zigzag(j) != 0;
        assert c[Dezigzag(Zigzag(j))] == block[Dezigzag(Zigzag(j))];
      }
    }
  }

  /* The decoder in place. */

  /** Look up, peek and skip one symbol. */
  method ReadSymbol(br: BitReader, h: Table, ghost top: int) returns (value: int)
    requires br.Valid() && Usable(h, top) && top < 256
    modifies br
    ensures br.Valid() && br.buf == old(br.buf)
    ensures var s := DecodeSymbol(h, top, br.buf, old(br.pos));
            value == s.value && br.pos == old(br.pos) + s.size
  {
    hide At, Window, Val;
    ghost var p := br.pos;
    assert br.reg0 == Window(br.buf, p, 32) by { RegisterIsWindow(br.buf, p); }
    WindowPrefix(br.buf, p, 16, 32);
    var codeLen := h.len[Lookup16(br.reg0)];
    if codeLen == 0 { codeLen := 1; }
    var code := br.LookKbits(codeLen);
    br.SkipKbits(codeLen);
    value := h.v[Slot(codeLen, Wrap16(code - h.minor[codeLen]) % 256)];
  }

  lemma RegisterIsWindow(buf: seq<Word>, p: nat)
    requires |buf| >= 2
    ensures At(buf, p).reg0 == Window(buf, p, 32)
  {
  }

  /** reg0 >> 16 */
  function Lookup16(reg0: Word): (w: nat)
    ensures w == Val(reg0[..16]) < 65536
  {
    TopBits(reg0, 16);
    ValBound(reg0[..16]);
    PowersRight(16);
    Val(Shr(reg0, 16))
  }

  method DecodeHuffmanDataUnit(br: BitReader, dc: Table, ac: Table, pred: int, coeff: array<int>,
                               offset: nat) returns (next: int)
    requires br.Valid() && Usable(dc, 11) && Usable(ac, 255) && offset + 64 <= coeff.Length
    modifies br, coeff
    ensures br.Valid() && br.buf == old(br.buf)
    ensures DecodeUnit(dc, ac, br.buf, old(br.pos), pred) == Unit(coeff[offset..offset + 64], next, br.pos)
    ensures forall i :: 0 <= i < coeff.Length && !(offset <= i < offset + 64) ==> coeff[i] == old(coeff[i])
  {
    hide Usable, DecodeSymbol, Extend, Window, Val, At, DecodeAc;
    for i := offset to offset + 64
      modifies coeff
      invariant forall k :: offset <= k < i ==> coeff[k] == 0
      invariant forall i :: 0 <= i < coeff.Length && !(offset <= i < offset + 64) ==> coeff[i] == old(coeff[i])
    {
      coeff[i] := 0;
    }
    var value;
    value, next := DecodeDcValue(br, dc, pred);
    coeff[offset] := value;
    assert coeff[offset..offset + 64] == FirstCoefficient(value);
    DecodeAcValues(br, ac, coeff, offset);
  }

  method DecodeDcValue(br: BitReader, dc: Table, pred: int) returns (value: int, next: int)
    requires br.Valid() && Usable(dc, 11)
    modifies br
    ensures br.Valid() && br.buf == old(br.buf)
    ensures DecodeDc(dc, br.buf, old(br.pos), pred) == (value, next, br.pos)
  {
    hide Usable, DecodeSymbol, Extend, Window, Val, At;
    var category := ReadSymbol(br, dc, 11);
    if category == 0 {
      value, next := pred, pred;
    } else {
      var diff := br.GetKbits(category);
      value := pred + diff;
      next := Wrap16(value);
    }
  }

  method DecodeAcValues(br: BitReader, ac: Table, coeff: array<int>, offset: nat)
    requires br.Valid() && Usable(ac, 255) && offset + 64 <= coeff.Length
    modifies br, coeff
    ensures br.Valid() && br.buf == old(br.buf)
    ensures DecodeAc(ac, br.buf, old(br.pos), 1, old(coeff[offset..offset + 64])) ==
            Scan(coeff[offset..offset + 64], br.pos)
    ensures forall i :: 0 <= i < coeff.Length && !(offset <= i < offset + 64) ==> coeff[i] == old(coeff[i])
  {
    hide Usable, DecodeSymbol, Extend, Window, Val, At, Dezigzag;
    ghost var target := DecodeAc(ac, br.buf, br.pos, 1, coeff[offset..offset + 64]);
    var k := 1;
    while k < 64
      invariant k >= 1 && br.Valid() && br.buf == old(br.buf)
      invariant DecodeAc(ac, br.buf, br.pos, k, coeff[offset..offset + 64]) == target
      invariant forall i :: 0 <= i < coeff.Length && !(offset <= i < offset + 64) ==> coeff[i] == old(coeff[i])
    {
      var sym := ReadSymbol(br, ac, 255);
      var size, run := sym % 16, sym / 16;
      if size == 0 {
        if run != 15 { break; }
        k := k + 16;
      } else {
        k := k + run;
        if k < 64 {
          var v := br.GetKbits(size);
          ghost var before := coeff[offset..offset + 64];
          coeff[offset + Dezigzag(k)] := v;
          assert coeff[offset..offset + 64] == before[Dezigzag(k) := v];
        }
        k := k + 1;
      }
    }
  }

  /* On every stream. */

  /** The DC step on any stream: a difference of at most 11 bits is added, without bound for the coefficient and
      modulo 2^16 for the next predictor. */
  lemma PredictorWraps(dc: Table, buf: seq<Word>, p: nat, pred: int)
    requires Usable(dc, 11) && buf != [] && -32768 <= pred < 32768
    ensures var (value, next, q) := DecodeDc(dc, buf, p, pred);
            && -2047 <= value - pred <= 2047 && -32768 <= next < 32768 && (value - next) % 65536 == 0
  {
    hide DecodeSymbol, Window, Val, Pow2;
    var s := DecodeSymbol(dc, 11, buf, p);
    if s.value > 0 {
      var w := Window(buf, p + s.size, s.value);
      ValBound(w);
      ElevenBits(s.value);
    }
  }

  lemma ElevenBits(n: nat)
    requires 1 <= n <= 11
    ensures Pow2(n) <= 2048 && Pow2(n - 1) + Pow2(n - 1) == Pow2(n)
  {
    PowersRight(n);
  }

  /** The AC loop never touches the DC coefficient. */
  lemma {:induction false} AcKeepsDc(ac: Table, buf: seq<Word>, p: nat, k: nat, coeff: seq<int>)
    requires Usable(ac, 255) && buf != [] && |coeff| == 64 && k >= 1
    ensures DecodeAc(ac, buf, p, k, coeff).coeff[0] == coeff[0]
    decreases 64 - k
  {
    hide Usable, DecodeSymbol, Window, Val, Extend, Dezigzag;
    if k < 64 {
      var s := DecodeSymbol(ac, 255, buf, p);
      var size, run, q := s.value % 16, s.value / 16, p + s.size;
      if size == 0 {
        if run == 15 { AcKeepsDc(ac, buf, q, k + 16, coeff); }
      } else if k + run < 64 {
        NotFirst(k + run);
        var v := Extend(Val(Window(buf, q, size)), size);
        AcKeepsDc(ac, buf, q + size, k + run + 1, coeff[Dezigzag(k + run) := v]);
      } else {
        AcKeepsDc(ac, buf, q, k + run + 1, coeff);
      }
    }
  }

  lemma NotFirst(i: nat)
    requires 1 <= i < 64
    ensures Dezigzag(i) != 0
  {
    ScanOrdersInvert(i);
    ScanOrdersInvert(0);
  }

  /** The loop stops at any symbol of size zero other than a run of 15; and a run that leaves the block stops it with
      the symbol alone consumed, not the coefficient. */
  lemma AcStops(ac: Table, buf: seq<Word>, p: nat, k: nat, coeff: seq<int>)
    requires Usable(ac, 255) && buf != [] && |coeff| == 64 && 1 <= k < 64
    ensures var s := DecodeSymbol(ac, 255, buf, p);
            (s.value % 16 == 0 && s.value / 16 != 15) || (s.value % 16 != 0 && k + s.value / 16 >= 64) ==>
              DecodeAc(ac, buf, p, k, coeff) == Scan(coeff, p + s.size)
  {
    hide Usable, DecodeSymbol, Window, Val, Extend, Dezigzag;
  }
}
