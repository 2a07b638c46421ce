/** Huffman tables: canonical codes of Annex C of ITU-T T.81, and the 64K length table that stands for them. */
module Huffman {
  import opened Bits
  import opened Tables

  /* Annex C: code sizes and codes, in order of the symbol list. */

  ghost predicate WellFormed(counts: seq<nat>) { |counts| == 17 }

  /** How many codes have at most l bits. */
  ghost function Sum(counts: seq<nat>, l: nat): nat
    requires WellFormed(counts) && l <= 16
  {
    if l == 0 then 0 else Sum(counts, l - 1) + counts[l]
  }

  ghost function SizeFrom(counts: seq<nat>, n: nat, l: nat): (size: nat)
    requires WellFormed(counts) && 1 <= l <= 16 && Sum(counts, l - 1) <= n < Sum(counts, 16)
    ensures l <= size <= 16 && Sum(counts, size - 1) <= n < Sum(counts, size)
    decreases 16 - l
  {
    if n < Sum(counts, l) then l else SizeFrom(counts, n, l + 1)
  }

  /** HUFFSIZE(n). */
  ghost function HuffSize(counts: seq<nat>, n: nat): (size: nat)
    requires WellFormed(counts) && n < Sum(counts, 16)
    ensures 1 <= size <= 16 && Sum(counts, size - 1) <= n < Sum(counts, size)
  {
    SizeFrom(counts, n, 1)
  }

  lemma {:induction false} SumMonotone(counts: seq<nat>, a: nat, b: nat)
    requires WellFormed(counts) && a <= b <= 16
    ensures Sum(counts, a) <= Sum(counts, b)
  {
    if a < b { SumMonotone(counts, a, b - 1); }
  }

  lemma SizeUnique(counts: seq<nat>, n: nat, a: nat, b: nat)
    requires WellFormed(counts) && 1 <= a <= 16 && 1 <= b <= 16
    requires Sum(counts, a - 1) <= n < Sum(counts, a) && Sum(counts, b - 1) <= n < Sum(counts, b)
    ensures a == b
  {
    if a < b { SumMonotone(counts, a, b - 1); }
    if b < a { SumMonotone(counts, b, a - 1); }
  }

  lemma SizeMonotone(counts: seq<nat>, n: nat)
    requires WellFormed(counts) && 0 < n < Sum(counts, 16)
    ensures HuffSize(counts, n - 1) <= HuffSize(counts, n)
  {
    var a, b := HuffSize(counts, n - 1), HuffSize(counts, n);
    if b < a { SumMonotone(counts, b, a - 1); }
  }

  /** HUFFCODE(n), by the flow chart of figure C.2: add one, then append zeros until the size fits. */
  ghost function HuffCode(counts: seq<nat>, n: nat): nat
    requires WellFormed(counts) && n < Sum(counts, 16)
  {
    if n == 0 then 0
    else SizeMonotone(counts, n);
         AppendZeros(HuffCode(counts, n - 1) + 1, HuffSize(counts, n) - HuffSize(counts, n - 1))
  }

  ghost function AppendZeros(x: nat, k: nat): nat { x * Pow2(k) }

  ghost function CodeBits(counts: seq<nat>, n: nat): seq<bool>
    requires WellFormed(counts) && n < Sum(counts, 16)
  {
    BitsOf(HuffSize(counts, n), HuffCode(counts, n))
  }

  /* What loadHuffmanTable computes. */

  /** The first code of length l. */
  function MinCode(counts: seq<nat>, l: nat): nat
    requires |counts| == 17 && 1 <= l <= 17
  {
    if l == 1 then 0 else 2 * (MinCode(counts, l - 1) + counts[l - 1])
  }

  lemma {:induction false} MinCodeJump(counts: seq<nat>, a: nat, b: nat)
    requires WellFormed(counts) && 1 <= a < b <= 16 && Sum(counts, a) == Sum(counts, b - 1)
    ensures MinCode(counts, b) == AppendZeros(MinCode(counts, a) + counts[a], b - a)
    decreases b
  {
    if b == a + 1 {
      assert Pow2(b - a) == 2 * Pow2(0);
    } else {
      SumMonotone(counts, a, b - 2);
      MinCodeJump(counts, a, b - 1);
      assert Pow2(b - a) == 2 * Pow2(b - 1 - a);
      Double(MinCode(counts, a) + counts[a], Pow2(b - 1 - a));
    }
  }

  lemma Double(x: nat, y: nat)
    ensures 2 * (x * y) == x * (2 * y)
  {
  }

  lemma {:induction false} MinCodeStart(counts: seq<nat>, l: nat)
    requires WellFormed(counts) && 1 <= l <= 16 && Sum(counts, l - 1) == 0
    ensures MinCode(counts, l) == 0
  {
    if l > 1 {
      SumMonotone(counts, 0, l - 2);
      MinCodeStart(counts, l - 1);
    }
  }

  lemma LastOfSize(counts: seq<nat>, n: nat)
    requires WellFormed(counts) && n < Sum(counts, 16)
    ensures var l := HuffSize(counts, n); Sum(counts, l) == Sum(counts, l - 1) + counts[l]
  {
    hide HuffSize;
  }

  /** The codes of one length are consecutive numbers from MinCode on: the table and Annex C agree. */
  lemma {:induction false} CodesAreConsecutive(counts: seq<nat>, n: nat)
    requires WellFormed(counts) && n < Sum(counts, 16)
    ensures HuffCode(counts, n) == MinCode(counts, HuffSize(counts, n)) + n - Sum(counts, HuffSize(counts, n) - 1)
  {
    hide HuffSize, Sum, MinCode, AppendZeros;
    var l := HuffSize(counts, n);
    if n == 0 {
      MinCodeStart(counts, l);
    } else {
      CodesAreConsecutive(counts, n - 1);
      SizeMonotone(counts, n);
      var k := HuffSize(counts, n - 1);
      LastOfSize(counts, n - 1);
      if k < l {
        SumMonotone(counts, k, l - 1);
        MinCodeJump(counts, k, l);
      } else {
        AppendNothing(HuffCode(counts, n - 1) + 1);
        SizeUnique(counts, n, k, l);
      }
    }
  }

  lemma AppendNothing(x: nat)
    ensures AppendZeros(x, 0) == x
  {
  }

  /** The length the (bound, length) pairs assign to a 16-bit window: that of the first bound above it. */
  function IntervalLen(t: seq<(int, int)>, m: nat, i: int): int
    requires 1 <= m < |t|
    decreases |t| - m
  {
    if i < t[m].0 || m + 1 == |t| then t[m].1 else IntervalLen(t, m + 1, i)
  }

  ghost predicate Increasing(t: seq<(int, int)>) {
    && |t| >= 2 && t[0].0 == 0 && t[|t| - 1].0 == 65535
    && (forall m :: 1 <= m < |t| ==> t[m - 1].0 < t[m].0)
    && (forall m :: 0 <= m < |t| ==> 0 <= t[m].1 <= 16)
  }

  /** A window in the m-th interval gets the m-th length. */
  lemma {:induction false} IntervalAt(t: seq<(int, int)>, k: nat, m: nat, i: int)
    requires Increasing(t) && 1 <= k <= m < |t| && t[m - 1].0 <= i < t[m].0
    ensures IntervalLen(t, k, i) == t[m].1
    decreases m - k
  {
    if k < m {
      BoundsIncrease(t, k, m - 1);
      IntervalAt(t, k + 1, m, i);
    }
  }

  lemma {:induction false} BoundsIncrease(t: seq<(int, int)>, a: nat, b: nat)
    requires Increasing(t) && a <= b < |t|
    ensures t[a].0 <= t[b].0
  {
    if a < b { BoundsIncrease(t, a, b - 1); }
  }

  lemma {:induction false} IntervalExists(t: seq<(int, int)>, k: nat, i: int) returns (m: nat)
    requires Increasing(t) && 1 <= k < |t| && t[k - 1].0 <= i < 65535
    ensures k <= m < |t| && t[m - 1].0 <= i < t[m].0
    decreases |t| - k
  {
    if i < t[k].0 { m := k; } else { m := IntervalExists(t, k + 1, i); }
  }

  /** The entry of the symbol table for the j-th code of length l: l << 8 | j. */
  function Slot(l: nat, j: nat): nat { 256 * l + j }

  /** The length entry of a window; the first is fixed and the last is left empty. */
  function WindowLen(t: seq<(int, int)>, i: nat): int
    requires |t| >= 2
  {
    if i == 0 then 2 else if i < 65535 then IntervalLen(t, 1, i) else 0
  }

  datatype Table = Table(len: seq<int>, v: seq<int>, minor: seq<int>)

  /** The contents loadHuffmanTable gives a table. */
  ghost predicate Loaded(h: Table, c: Code) {
    && WellFormed(c.counts) && Increasing(c.thresholds)
    && |h.len| == 65536 && |h.v| == 65536 && |h.minor| == 17
    && (forall i :: 0 <= i < 65536 ==> h.len[i] == WindowLen(c.thresholds, i))
    && (forall l, j :: 1 <= l <= 16 && 0 <= j < 256 ==> h.v[Slot(l, j)] == SymbolAt(c, l, j))
    && (forall l :: 1 <= l <= 16 ==>
          h.minor[l] == if c.counts[l] == 0 then -1 else Wrap16(MinCode(c.counts, l)))
  }

  ghost function SymbolAt(c: Code, l: nat, j: nat): int
    requires WellFormed(c.counts) && 1 <= l <= 16
  {
    var n := Sum(c.counts, l - 1) + j;
    if j < c.counts[l] && n < |c.values| then c.values[n] else 0
  }

  ghost predicate Loadable(c: Code) {
    && WellFormed(c.counts) && (forall l :: 0 <= l < 17 ==> c.counts[l] < 256)
    && Sum(c.counts, 16) == |c.values| && Increasing(c.thresholds)
  }

  method LoadHuffmanTable(c: Code) returns (h: Table)
    requires Loadable(c)
    ensures Loaded(h, c)
  {
    var v := LoadSymbols(c);
    var minor := LoadMinCodes(c);
    var len := SweepLengths(c.thresholds);
    h := Table(len, v, minor);
  }

  method LoadSymbols(c: Code) returns (out: seq<int>)
    requires Loadable(c)
    ensures |out| == 65536
    ensures forall l, j :: 1 <= l <= 16 && 0 <= j < 256 ==> out[Slot(l, j)] == SymbolAt(c, l, j)
  {
    var v := new int[65536](_ => 0);
    var n := 0;
    for i := 1 to 17
      invariant n == Sum(c.counts, i - 1)
      invariant forall l, j :: 1 <= l < i && 0 <= j < 256 ==> v[Slot(l, j)] == SymbolAt(c, l, j)
      invariant forall l, j :: i <= l <= 16 && 0 <= j < 256 ==> v[Slot(l, j)] == 0
    {
      SumMonotone(c.counts, i, 16);
      for j := 0 to c.counts[i]
        invariant n == Sum(c.counts, i - 1) + j
        invariant forall l, k :: 1 <= l < i && 0 <= k < 256 ==> v[Slot(l, k)] == SymbolAt(c, l, k)
        invariant forall k :: 0 <= k < j ==> v[Slot(i, k)] == SymbolAt(c, i, k)
        invariant forall k :: j <= k < 256 ==> v[Slot(i, k)] == 0
        invariant forall l, k :: i < l <= 16 && 0 <= k < 256 ==> v[Slot(l, k)] == 0
      {
        v[Slot(i, j)] := c.values[n];
        n := n + 1;
      }
    }
    out := v[..];
  }

  method LoadMinCodes(c: Code) returns (minor: seq<int>)
    requires Loadable(c)
    ensures |minor| == 17
    ensures forall l :: 1 <= l <= 16 ==>
              minor[l] == if c.counts[l] == 0 then -1 else Wrap16(MinCode(c.counts, l))
  {
    hide Wrap16, Sum, Increasing;
    minor := [0];
    var code := 0;
    for i := 1 to 17
      invariant |minor| == i && code == MinCode(c.counts, i)
      invariant forall l :: 1 <= l < i ==>
                  minor[l] == if c.counts[l] == 0 then -1 else Wrap16(MinCode(c.counts, l))
    {
      minor := minor + [if c.counts[i] == 0 then -1 else Wrap16(code)];
      code := (code + c.counts[i]) * 2;
    }
  }

  /** The single-advance sweep: one pass over all windows, moving to the next pair at most once a step. */
  method SweepLengths(t: seq<(int, int)>) returns (out: seq<int>)
    requires Increasing(t)
    ensures |out| == 65536
    ensures forall i :: 0 <= i < 65536 ==> out[i] == WindowLen(t, i)
  {
    var len := new int[65536](_ => 0);
    len[0] := 2;
    var ci := 1;
    for i := 1 to 65535
      invariant 1 <= ci < |t| && t[ci - 1].0 <= i - 1 < t[ci].0
      invariant len[65535] == 0
      invariant forall k :: 0 <= k < i ==> len[k] == WindowLen(t, k)
    {
      if i < t[ci].0 {
        len[i] := t[ci].1;
      } else {
        ci := ci + 1;
        if ci < |t| { len[i] := t[ci].1; }
      }
      IntervalAt(t, 1, ci, i);
    }
    out := len[..];
  }

  /* The four standard tables: every window that starts with a code gets that code's length. */

  ghost const POWERS: seq<nat> := [1, 2, 4, 8, 16, 32, 64, 128, 256, 512, 1024, 2048, 4096, 8192, 16384, 32768, 65536]

  lemma {:induction false} PowersRight(k: nat)
    requires k <= 16
    ensures Pow2(k) == POWERS[k]
  {
    if k > 0 { PowersRight(k - 1); }
  }

  /** The 16-bit window value at which the codes of length l start. */
  ghost function Fill(counts: seq<nat>, l: nat): nat
    requires WellFormed(counts) && 1 <= l <= 17
  {
    if l == 1 then 0 else Fill(counts, l - 1) + AppendZeros(counts[l - 1], 17 - l)
  }

  lemma {:induction false} FillIsMinCode(counts: seq<nat>, l: nat)
    requires WellFormed(counts) && 1 <= l <= 16
    ensures Fill(counts, l) == AppendZeros(MinCode(counts, l), 16 - l)
    ensures Fill(counts, l + 1) == AppendZeros(MinCode(counts, l) + counts[l], 16 - l)
  {
    hide AppendZeros;
    if l > 1 {
      FillIsMinCode(counts, l - 1);
      AppendTwice(MinCode(counts, l - 1) + counts[l - 1], 16 - l);
    } else {
      AppendToZero(15);
    }
    AppendSum(MinCode(counts, l), counts[l], 16 - l);
  }

  lemma AppendTwice(x: nat, k: nat)
    ensures AppendZeros(x, k + 1) == AppendZeros(2 * x, k)
  {
    assert x * (2 * Pow2(k)) == 2 * x * Pow2(k);
  }

  lemma AppendSum(x: nat, y: nat, k: nat)
    ensures AppendZeros(x + y, k) == AppendZeros(x, k) + AppendZeros(y, k)
  {
  }

  lemma AppendToZero(k: nat)
    ensures AppendZeros(0, k) == 0
  {
  }

  /** Checked facts about one table: its sums and fill, and that every interval lies in its length's range. */
  ghost predicate Certified(c: Code, sums: seq<nat>, fill: seq<nat>) {
    && Increasing(c.thresholds) && c.thresholds[1].1 == 2
    && SumsRight(c, sums) && FillRight(c.counts, fill) && RangesRight(c.thresholds, fill)
    && (forall n :: 0 <= n < |c.values| ==> 0 <= c.values[n] < 256)
  }

  ghost predicate SumsRight(c: Code, sums: seq<nat>) {
    && |c.counts| == |sums| == 17 && sums[0] == 0 && sums[16] == |c.values| && c.counts[0] == 0
    && (forall l :: 1 <= l <= 16 ==> c.counts[l] < 256 && sums[l] == sums[l - 1] + c.counts[l])
  }

  ghost predicate FillRight(counts: seq<nat>, fill: seq<nat>) {
    && |counts| == 17 && |fill| == 18 && fill[1] == 0 && fill[17] <= 65535
    && (forall l :: 1 <= l <= 16 ==> fill[l + 1] == fill[l] + counts[l] * POWERS[16 - l])
  }

  ghost predicate RangesRight(t: seq<(int, int)>, fill: seq<nat>) {
    |fill| == 18 && forall m :: 1 <= m < |t| ==> InRange(t, fill, m)
  }

  ghost predicate InRange(t: seq<(int, int)>, fill: seq<nat>, m: nat)
    requires 1 <= m < |t| && |fill| == 18
  {
    var l := t[m].1;
    1 <= l <= 16 && fill[l] <= t[m - 1].0 && (t[m].0 <= fill[l + 1] || fill[17] == fill[l + 1])
  }

  lemma {:induction false} CertifiedSums(c: Code, sums: seq<nat>, fill: seq<nat>, l: nat)
    requires Certified(c, sums, fill) && l <= 16
    ensures Sum(c.counts, l) == sums[l]
  {
    if l > 0 { CertifiedSums(c, sums, fill, l - 1); }
  }

  lemma {:induction false} CertifiedFill(c: Code, sums: seq<nat>, fill: seq<nat>, l: nat)
    requires Certified(c, sums, fill) && 1 <= l <= 17
    ensures Fill(c.counts, l) == fill[l]
  {
    if l > 1 {
      CertifiedFill(c, sums, fill, l - 1);
      PowersRight(17 - l);
    }
  }

  lemma {:induction false} FillMonotone(c: Code, sums: seq<nat>, fill: seq<nat>, a: nat, b: nat)
    requires Certified(c, sums, fill) && 1 <= a <= b <= 17
    ensures fill[a] <= fill[b]
  {
    if a < b {
      FillMonotone(c, sums, fill, a, b - 1);
      NonNegative(c.counts[b - 1], POWERS[17 - b]);
    }
  }

  lemma NonNegative(a: nat, b: nat)
    ensures a * b >= 0
  {
  }

  /** A window in the range of length l has length l in the table. */
  lemma RangeHasLength(c: Code, sums: seq<nat>, fill: seq<nat>, l: nat, i: nat)
    requires Certified(c, sums, fill) && 1 <= l <= 16 && fill[l] <= i < fill[l + 1]
    ensures WindowLen(c.thresholds, i) == l && i < 65535
  {
    hide IntervalLen, Increasing;
    var t := c.thresholds;
    FillMonotone(c, sums, fill, l + 1, 17);
    var m := IntervalOf(t, i);
    var k := t[m].1;
    assert InRange(t, fill, m);
    if k < l { FillMonotone(c, sums, fill, k + 1, l); }
    if k > l { FillMonotone(c, sums, fill, l + 1, k); }
  }

  lemma IntervalOf(t: seq<(int, int)>, i: nat) returns (m: nat)
    requires Increasing(t) && t[1].1 == 2 && i < 65535
    ensures 1 <= m < |t| && t[m - 1].0 <= i < t[m].0 && WindowLen(t, i) == t[m].1
  {
    m := IntervalExists(t, 1, i);
    IntervalAt(t, 1, m, i);
    if i == 0 && m > 1 { BoundsIncrease(t, 1, m - 1); }
  }

  lemma DcLumaCertified()
    ensures Certified(DC_LUMA, DC_LUMA_SUMS, DC_LUMA_FILL)
  {
    hide SumsRight, InRange;
    var t := DC_LUMA.thresholds;
    forall m | 1 <= m < |t| ensures t[m - 1].0 < t[m].0 && InRange(t, DC_LUMA_FILL, m) {
      DcLumaInterval(m);
    }
    forall n | 0 <= n < 12 ensures 0 <= DC_LUMA.values[n] < 12 { DcLumaValue(n); }
    forall l | 1 <= l <= 16 ensures DC_LUMA_FILL[l + 1] == DC_LUMA_FILL[l] + DC_LUMA_COUNTS[l] * POWERS[16 - l] {
      DcLumaFill(l);
    }
    DcLumaSums();
  }

  lemma DcLumaSums()
    ensures SumsRight(DC_LUMA, DC_LUMA_SUMS)
  {
  }

  lemma DcLumaFill(l: nat)
    requires 1 <= l <= 16
    ensures DC_LUMA_FILL[l + 1] == DC_LUMA_FILL[l] + DC_LUMA_COUNTS[l] * POWERS[16 - l]
  {
  }

  lemma DcLumaInterval(m: nat)
    requires 1 <= m < 13
    ensures DC_LUMA.thresholds[m - 1].0 < DC_LUMA.thresholds[m].0 && InRange(DC_LUMA.thresholds, DC_LUMA_FILL, m)
  {
  }

  lemma DcLumaValue(n: nat)
    requires n < 12
    ensures 0 <= DC_LUMA.values[n] < 12
  {
  }

  lemma DcChromaCertified()
    ensures Certified(DC_CHROMA, DC_CHROMA_SUMS, DC_CHROMA_FILL)
  {
    hide SumsRight, InRange;
    var t := DC_CHROMA.thresholds;
    forall m | 1 <= m < |t| ensures t[m - 1].0 < t[m].0 && InRange(t, DC_CHROMA_FILL, m) {
      DcChromaInterval(m);
    }
    forall n | 0 <= n < 12 ensures 0 <= DC_CHROMA.values[n] < 12 { DcChromaValue(n); }
    forall l | 1 <= l <= 16 ensures DC_CHROMA_FILL[l + 1] == DC_CHROMA_FILL[l] + DC_CHROMA_COUNTS[l] * POWERS[16 - l] {
      DcChromaFill(l);
    }
    DcChromaSums();
  }

  lemma DcChromaSums()
    ensures SumsRight(DC_CHROMA, DC_CHROMA_SUMS)
  {
  }

  lemma DcChromaFill(l: nat)
    requires 1 <= l <= 16
    ensures DC_CHROMA_FILL[l + 1] == DC_CHROMA_FILL[l] + DC_CHROMA_COUNTS[l] * POWERS[16 - l]
  {
  }

  lemma DcChromaInterval(m: nat)
    requires 1 <= m < 13
    ensures DC_CHROMA.thresholds[m - 1].0 < DC_CHROMA.thresholds[m].0 &&
            InRange(DC_CHROMA.thresholds, DC_CHROMA_FILL, m)
  {
  }

  lemma DcChromaValue(n: nat)
    requires n < 12
    ensures 0 <= DC_CHROMA.values[n] < 12
  {
  }

  lemma LengthInRange(t: seq<(int, int)>, fill: seq<nat>, m: nat)
    requires 1 <= m < |t| && |fill| == 18 && InRange(t, fill, m)
    ensures 1 <= t[m].1 <= 16
  {
  }

  lemma AcLumaCertified()
    ensures Certified(AC_LUMA, AC_LUMA_SUMS, AC_LUMA_FILL)
  {
    hide SumsRight, FillRight, RangesRight, Increasing;
    forall n | 0 <= n < 162 ensures 0 <= AC_LUMA.values[n] < 256 { AcLumaValue(n); }
    AcLumaRanges();
    AcLumaFillRight();
    AcLumaSums();
  }

  lemma AcLumaRanges()
    ensures Increasing(AC_LUMA.thresholds) && RangesRight(AC_LUMA.thresholds, AC_LUMA_FILL)
  {
    hide InRange;
    var t := AC_LUMA.thresholds;
    forall m | 1 <= m < |t| ensures t[m - 1].0 < t[m].0 && InRange(t, AC_LUMA_FILL, m) { AcLumaInterval(m); }
    forall m | 1 <= m < |t| ensures 1 <= t[m].1 <= 16 { LengthInRange(t, AC_LUMA_FILL, m); }
  }

  lemma AcLumaFillRight()
    ensures FillRight(AC_LUMA.counts, AC_LUMA_FILL)
  {
    forall l | 1 <= l <= 16 ensures AC_LUMA_FILL[l + 1] == AC_LUMA_FILL[l] + AC_LUMA_COUNTS[l] * POWERS[16 - l] {
      AcLumaFill(l);
    }
  }

  lemma AcLumaSums()
    ensures SumsRight(AC_LUMA, AC_LUMA_SUMS)
  {
  }

  lemma AcLumaFill(l: nat)
    requires 1 <= l <= 16
    ensures AC_LUMA_FILL[l + 1] == AC_LUMA_FILL[l] + AC_LUMA_COUNTS[l] * POWERS[16 - l]
  {
  }

  lemma AcLumaInterval(m: nat)
    requires 1 <= m < 39
    ensures AC_LUMA.thresholds[m - 1].0 < AC_LUMA.thresholds[m].0 && InRange(AC_LUMA.thresholds, AC_LUMA_FILL, m)
  {
    hide InRange;
    if m < 13 { AcLumaLow(m); } else if m < 26 { AcLumaMiddle(m); } else { AcLumaHigh(m); }
  }

  lemma AcLumaLow(m: nat)
    requires 1 <= m < 13
    ensures AC_LUMA.thresholds[m - 1].0 < AC_LUMA.thresholds[m].0 && InRange(AC_LUMA.thresholds, AC_LUMA_FILL, m)
  {
  }

  lemma AcLumaMiddle(m: nat)
    requires 13 <= m < 26
    ensures AC_LUMA.thresholds[m - 1].0 < AC_LUMA.thresholds[m].0 && InRange(AC_LUMA.thresholds, AC_LUMA_FILL, m)
  {
  }

  lemma AcLumaHigh(m: nat)
    requires 26 <= m < 39
    ensures AC_LUMA.thresholds[m - 1].0 < AC_LUMA.thresholds[m].0 && InRange(AC_LUMA.thresholds, AC_LUMA_FILL, m)
  {
  }

  lemma AcLumaValue(n: nat)
    requires n < 162
    ensures 0 <= AC_LUMA.values[n] < 256
  {
    assert n / 8 < 21;
    assert AC_LUMA.values[n] == AC_LUMA_VALUES[n / 8][n % 8];
    AcLumaEntry(n / 8, n % 8);
  }

  lemma AcLumaEntry(row: nat, k: nat)
    requires row < 21 && k < |AC_LUMA_VALUES[row]|
    ensures 0 <= AC_LUMA_VALUES[row][k] < 256
  {
  }

  lemma AcChromaCertified()
    ensures Certified(AC_CHROMA, AC_CHROMA_SUMS, AC_CHROMA_FILL)
  {
    hide SumsRight, FillRight, RangesRight, Increasing;
    forall n | 0 <= n < 162 ensures 0 <= AC_CHROMA.values[n] < 256 { AcChromaValue(n); }
    AcChromaRanges();
    AcChromaFillRight();
    AcChromaSums();
  }

  lemma AcChromaRanges()
    ensures Increasing(AC_CHROMA.thresholds) && RangesRight(AC_CHROMA.thresholds, AC_CHROMA_FILL)
  {
    hide InRange;
    var t := AC_CHROMA.thresholds;
    forall m | 1 <= m < |t| ensures t[m - 1].0 < t[m].0 && InRange(t, AC_CHROMA_FILL, m) { AcChromaInterval(m); }
    forall m | 1 <= m < |t| ensures 1 <= t[m].1 <= 16 { LengthInRange(t, AC_CHROMA_FILL, m); }
  }

  lemma AcChromaFillRight()
    ensures FillRight(AC_CHROMA.counts, AC_CHROMA_FILL)
  {
    forall l | 1 <= l <= 16 ensures AC_CHROMA_FILL[l + 1] == AC_CHROMA_FILL[l] + AC_CHROMA_COUNTS[l] * POWERS[16 - l] {
      AcChromaFill(l);
    }
  }

  lemma AcChromaSums()
    ensures SumsRight(AC_CHROMA, AC_CHROMA_SUMS)
  {
  }

  lemma AcChromaFill(l: nat)
    requires 1 <= l <= 16
    ensures AC_CHROMA_FILL[l + 1] == AC_CHROMA_FILL[l] + AC_CHROMA_COUNTS[l] * POWERS[16 - l]
  {
  }

  lemma AcChromaInterval(m: nat)
    requires 1 <= m < 45
    ensures AC_CHROMA.thresholds[m - 1].0 < AC_CHROMA.thresholds[m].0 &&
            InRange(AC_CHROMA.thresholds, AC_CHROMA_FILL, m)
  {
    hide InRange;
    if m < 15 { AcChromaLow(m); } else if m < 30 { AcChromaMiddle(m); } else { AcChromaHigh(m); }
  }

  lemma AcChromaLow(m: nat)
    requires 1 <= m < 15
    ensures AC_CHROMA.thresholds[m - 1].0 < AC_CHROMA.thresholds[m].0 &&
            InRange(AC_CHROMA.thresholds, AC_CHROMA_FILL, m)
  {
  }

  lemma AcChromaMiddle(m: nat)
    requires 15 <= m < 30
    ensures AC_CHROMA.thresholds[m - 1].0 < AC_CHROMA.thresholds[m].0 &&
            InRange(AC_CHROMA.thresholds, AC_CHROMA_FILL, m)
  {
  }

  lemma AcChromaHigh(m: nat)
    requires 30 <= m < 45
    ensures AC_CHROMA.thresholds[m - 1].0 < AC_CHROMA.thresholds[m].0 &&
            InRange(AC_CHROMA.thresholds, AC_CHROMA_FILL, m)
  {
  }

  lemma AcChromaValue(n: nat)
    requires n < 162
    ensures 0 <= AC_CHROMA.values[n] < 256
  {
    assert n / 8 < 21;
    assert AC_CHROMA.values[n] == AC_CHROMA_VALUES[n / 8][n % 8];
    AcChromaEntry(n / 8, n % 8);
  }

  lemma AcChromaEntry(row: nat, k: nat)
    requires row < 21 && k < |AC_CHROMA_VALUES[row]|
    ensures 0 <= AC_CHROMA_VALUES[row][k] < 256
  {
  }

  /* Reading one symbol through the table. */

  /** What the decoder needs of a table: lengths of at most 16 bits and symbols of at most top. */
  ghost predicate Usable(h: Table, top: int) {
    && |h.len| == 65536 && |h.v| == 65536 && |h.minor| == 17
    && (forall i :: 0 <= i < 65536 ==> 0 <= h.len[i] <= 16)
    && (forall l, j :: 1 <= l <= 16 && 0 <= j < 256 ==> 0 <= h.v[Slot(l, j)] <= top)
  }

  lemma {:induction false} IntervalLenBound(t: seq<(int, int)>, m: nat, i: int)
    requires Increasing(t) && 1 <= m < |t|
    ensures 0 <= IntervalLen(t, m, i) <= 16
    decreases |t| - m
  {
    if i >= t[m].0 && m + 1 < |t| { IntervalLenBound(t, m + 1, i); }
  }

  lemma LoadedUsable(h: Table, c: Code, top: nat)
    requires Loaded(h, c) && forall n :: 0 <= n < |c.values| ==> 0 <= c.values[n] <= top
    ensures Usable(h, top)
  {
    forall i | 0 <= i < 65536 ensures 0 <= h.len[i] <= 16 {
      IntervalLenBound(c.thresholds, 1, i);
    }
  }

  lemma CertifiedLoadable(c: Code, sums: seq<nat>, fill: seq<nat>)
    requires Certified(c, sums, fill)
    ensures Loadable(c)
  {
    CertifiedSums(c, sums, fill, 16);
  }

  datatype Symbol = Symbol(value: int, size: nat)

  function Window16(buf: seq<Word>, p: nat): (w: nat)
    requires buf != []
    ensures w < 65536
  {
    ValBound(Window(buf, p, 16));
    PowersRight(16);
    Val(Window(buf, p, 16))
  }

  /** One table-driven step: window to length, code to symbol; an empty length entry counts as one bit. */
  function DecodeSymbol(h: Table, top: int, buf: seq<Word>, p: nat): (s: Symbol)
    requires Usable(h, top) && top < 256 && buf != []
    ensures 1 <= s.size <= 16 && 0 <= s.value <= top
  {
    var w := h.len[Window16(buf, p)];
    var l := if w == 0 then 1 else w;
    var code := Wrap16(Val(Window(buf, p, l)));
    var j := Wrap16(code - h.minor[l]) % 256;
    Symbol(h.v[Slot(l, j)], l)
  }

  /** Truncating to 8 bits undoes the int16 wrap-around of code and first code. */
  lemma WrappedOffset(code: nat, first: nat)
    requires first <= code < first + 256
    ensures Wrap16(Wrap16(code) - Wrap16(first)) % 256 == code - first
  {
    hide Wrap16;
    var d := Wrap16(code) - Wrap16(first);
    var a := Wraps(code);
    var b := Wraps(first);
    var c := Wraps(d);
    assert Wrap16(d) == code - first + 256 * (256 * (a - b + c));
    ModPlusMultiple(code - first, 256 * (a - b + c));
  }

  lemma Wraps(v: int) returns (k: int)
    ensures Wrap16(v) == v + 65536 * k
  {
    k := (Wrap16(v) - v) / 65536;
  }

  lemma ModPlusMultiple(r: nat, q: int)
    requires r < 256
    ensures (r + 256 * q) % 256 == r
  {
  }

  lemma CodeInRange(counts: seq<nat>, n: nat)
    requires WellFormed(counts) && n < Sum(counts, 16)
    ensures var l, c := HuffSize(counts, n), HuffCode(counts, n);
            Fill(counts, l) <= AppendZeros(c, 16 - l) && AppendZeros(c + 1, 16 - l) <= Fill(counts, l + 1)
  {
    hide HuffSize, HuffCode, Fill, MinCode, Sum, AppendZeros, Pow2;
    var l, c := HuffSize(counts, n), HuffCode(counts, n);
    LastOfSize(counts, n);
    CodesAreConsecutive(counts, n);
    FillIsMinCode(counts, l);
    var first := MinCode(counts, l);
    AppendMonotone(first, c, 16 - l);
    AppendMonotone(c + 1, first + counts[l], 16 - l);
  }

  /** A window that starts with a code lies in the range of its length. */
  lemma WindowInRange(counts: seq<nat>, n: nat, buf: seq<Word>, p: nat)
    requires WellFormed(counts) && n < Sum(counts, 16) && buf != []
    requires HuffCode(counts, n) < Pow2(HuffSize(counts, n))
    requires Window(buf, p, HuffSize(counts, n)) == CodeBits(counts, n)
    ensures var l := HuffSize(counts, n);
            Fill(counts, l) <= Window16(buf, p) < Fill(counts, l + 1) && Val(Window(buf, p, l)) == HuffCode(counts, n)
  {
    hide HuffSize, HuffCode, Window, Fill, MinCode, BitsOf, Sum, Val, Pow2, AppendZeros;
    var l, c := HuffSize(counts, n), HuffCode(counts, n);
    var rest := Window(buf, p + l, 16 - l);
    WindowSplit(buf, p, l, 16 - l);
    ValConcat(Window(buf, p, l), rest);
    ValBound(rest);
    ValBitsOf(l, c);
    CodeInRange(counts, n);
    AppendSum(c, 1, 16 - l);
    AppendIsProduct(c, 16 - l);
    AppendIsProduct(1, 16 - l);
  }

  lemma AppendIsProduct(x: nat, k: nat)
    ensures AppendZeros(x, k) == x * Pow2(k) && AppendZeros(1, k) == Pow2(k)
  {
  }

  lemma AppendMonotone(x: nat, y: nat, k: nat)
    requires x <= y
    ensures AppendZeros(x, k) <= AppendZeros(y, k)
  {
    AppendSum(x, y - x, k);
  }

  /** Every code fits its size. */
  lemma CodeFits(c: Code, sums: seq<nat>, fill: seq<nat>, n: nat)
    requires Certified(c, sums, fill) && n < Sum(c.counts, 16)
    ensures HuffCode(c.counts, n) < Pow2(HuffSize(c.counts, n))
  {
    hide HuffSize, HuffCode, MinCode, AppendZeros, Fill, Increasing, RangesRight;
    var l, k := HuffSize(c.counts, n), HuffCode(c.counts, n);
    CodesAreConsecutive(c.counts, n);
    FillIsMinCode(c.counts, l);
    AppendMonotone(k + 1, MinCode(c.counts, l) + c.counts[l], 16 - l);
    CertifiedFill(c, sums, fill, l + 1);
    FillMonotone(c, sums, fill, l + 1, 17);
    assert AppendZeros(k + 1, 16 - l) <= 65535;
    FitsBelow(k, l);
  }

  lemma FitsBelow(k: nat, l: nat)
    requires l <= 16 && AppendZeros(k + 1, 16 - l) <= 65535
    ensures k < Pow2(l)
  {
    PowersRight(16);
    Pow2Add(l, 16 - l);
    if k >= Pow2(l) {
      AppendMonotone(Pow2(l), k + 1, 16 - l);
    }
  }

  /** Main result: on any stream that goes on with the n-th code, the table yields the n-th symbol
      and the length of its code, whatever bits follow. */
  lemma DecodesCode(c: Code, sums: seq<nat>, fill: seq<nat>, h: Table, top: int, buf: seq<Word>, p: nat, n: nat)
    requires Certified(c, sums, fill) && Loaded(h, c) && Usable(h, top) && top < 256 && buf != []
    requires WellFormed(c.counts) && n < |c.values| && Sum(c.counts, 16) == |c.values|
    requires Window(buf, p, HuffSize(c.counts, n)) == CodeBits(c.counts, n)
    ensures DecodeSymbol(h, top, buf, p) == Symbol(c.values[n], HuffSize(c.counts, n))
  {
    hide HuffSize, HuffCode, MinCode, Certified, Loaded, Wrap16, Window, Val;
    CodeFits(c, sums, fill, n);
    WindowInRange(c.counts, n, buf, p);
    TableLength(c, sums, fill, h, buf, p, n);
    TableSymbol(c, sums, fill, h, n);
  }

  lemma TableLength(c: Code, sums: seq<nat>, fill: seq<nat>, h: Table, buf: seq<Word>, p: nat, n: nat)
    requires Certified(c, sums, fill) && Loaded(h, c) && buf != [] && n < Sum(c.counts, 16)
    requires var l := HuffSize(c.counts, n); Fill(c.counts, l) <= Window16(buf, p) < Fill(c.counts, l + 1)
    ensures h.len[Window16(buf, p)] == HuffSize(c.counts, n)
  {
    hide HuffSize, Fill, Increasing, RangesRight, IntervalLen, WindowLen, Window, Val;
    var l := HuffSize(c.counts, n);
    CertifiedFill(c, sums, fill, l);
    CertifiedFill(c, sums, fill, l + 1);
    RangeHasLength(c, sums, fill, l, Window16(buf, p));
  }

  lemma TableSymbol(c: Code, sums: seq<nat>, fill: seq<nat>, h: Table, n: nat)
    requires Certified(c, sums, fill) && Loaded(h, c) && n < |c.values| && n < Sum(c.counts, 16)
    ensures var l := HuffSize(c.counts, n);
            h.v[Slot(l, Wrap16(Wrap16(HuffCode(c.counts, n)) - h.minor[l]) % 256)] == c.values[n]
  {
    hide HuffSize, HuffCode, MinCode, Increasing, RangesRight, WindowLen, Wrap16, FillRight, Sum;
    var l := HuffSize(c.counts, n);
    CodesAreConsecutive(c.counts, n);
    LastOfSize(c.counts, n);
    WrappedOffset(HuffCode(c.counts, n), MinCode(c.counts, l));
    var j := n - Sum(c.counts, l - 1);
    assert h.v[Slot(l, j)] == SymbolAt(c, l, j);
  }

  /** Sixteen ones begin no codeword: they count as one bit with symbol zero. */
  lemma AllOnes(h: Table, c: Code, top: int, buf: seq<Word>, p: nat)
    requires Loaded(h, c) && Usable(h, top) && 0 <= top < 256 && c.counts[1] == 0 && buf != []
    requires Window16(buf, p) == 65535
    ensures DecodeSymbol(h, top, buf, p) == Symbol(0, 1)
  {
    hide Usable, Window, IntervalLen;
    FirstIsOne(buf, p);
    assert h.len[65535] == WindowLen(c.thresholds, 65535) == 0;
    assert h.minor[1] == -1;
    assert h.v[Slot(1, 2)] == SymbolAt(c, 1, 2) == 0;
    assert Wrap16(Wrap16(1) - -1) % 256 == 2;
  }

  lemma FirstIsOne(buf: seq<Word>, p: nat)
    requires buf != [] && Window16(buf, p) == 65535
    ensures Val(Window(buf, p, 1)) == 1
  {
    hide Window, Val, Pow2;
    WindowSplit(buf, p, 1, 15);
    var a, b := Window(buf, p, 1), Window(buf, p + 1, 15);
    ValConcat(a, b);
    ValBound(a);
    ValBound(b);
    PowersRight(15);
    PowersRight(1);
  }
}
