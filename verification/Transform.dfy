/** The inverse transform of a whole block, against the double sum it approximates. */
module Transform {
  import opened Idct

  /* The block by position: coefficient 8u + w has vertical frequency u and horizontal frequency w. */

  function Term(c: seq<int>, v: seq<int>, i: nat): int
    requires |c| == |v| == 64 && i < 64
  {
    c[i] * v[i]
  }

  function RowTerms(c: seq<int>, v: seq<int>, u: nat): Vec
    requires |c| == |v| == 64 && u < 8
  {
    Vec(Term(c, v, 8 * u), Term(c, v, 8 * u + 1), Term(c, v, 8 * u + 2), Term(c, v, 8 * u + 3),
        Term(c, v, 8 * u + 4), Term(c, v, 8 * u + 5), Term(c, v, 8 * u + 6), Term(c, v, 8 * u + 7))
  }

  function ColumnTerms(c: seq<int>, v: seq<int>, w: nat): Vec
    requires |c| == |v| == 64 && w < 8
  {
    Vec(Term(c, v, w), Term(c, v, w + 8), Term(c, v, w + 16), Term(c, v, w + 24),
        Term(c, v, w + 32), Term(c, v, w + 40), Term(c, v, w + 48), Term(c, v, w + 56))
  }

  /** The sum over all u and w of CosineRow(r)[u] * CosineRow(k)[w] * c[8u + w] * v[8u + w]. */
  function DoubleSum(c: seq<int>, v: seq<int>, r: nat, k: nat): int
    requires |c| == |v| == 64 && r < 8 && k < 8
  {
    Dot(CosineRow(r), Vec(RowSum(c, v, k, 0), RowSum(c, v, k, 1), RowSum(c, v, k, 2), RowSum(c, v, k, 3),
                          RowSum(c, v, k, 4), RowSum(c, v, k, 5), RowSum(c, v, k, 6), RowSum(c, v, k, 7)))
  }

  function RowSum(c: seq<int>, v: seq<int>, k: nat, u: nat): int
    requires |c| == |v| == 64 && k < 8 && u < 8
  {
    Dot(CosineRow(k), RowTerms(c, v, u))
  }

  /** The sum of all magnitudes. */
  function Total(c: seq<int>, v: seq<int>): nat
    requires |c| == |v| == 64
  {
    Size(c, v, 0) + Size(c, v, 1) + Size(c, v, 2) + Size(c, v, 3) + Size(c, v, 4) + Size(c, v, 5) + Size(c, v, 6)
    + Size(c, v, 7)
  }

  function Size(c: seq<int>, v: seq<int>, w: nat): nat
    requires |c| == |v| == 64 && w < 8
  {
    Norm(ColumnTerms(c, v, w))
  }

  /** What rounding in the two passes can add up to, in units of 2^-32: about 37 plus 0.52 percent of the block. */
  function Bound(total: nat): nat { 159710969856 + 22405252 * total }

  ghost predicate Scaled65536(q: seq<int>, v: seq<int>) {
    |q| == |v| == 64 && forall i :: 0 <= i < 64 ==> q[i] == 65536 * v[i]
  }

  /* Exchanging the sums. */

  function Scale(t: int, v: Vec): Vec {
    Vec(t * v.x0, t * v.x1, t * v.x2, t * v.x3, t * v.x4, t * v.x5, t * v.x6, t * v.x7)
  }

  function Add(a: Vec, b: Vec): Vec {
    Vec(a.x0 + b.x0, a.x1 + b.x1, a.x2 + b.x2, a.x3 + b.x3, a.x4 + b.x4, a.x5 + b.x5, a.x6 + b.x6, a.x7 + b.x7)
  }

  lemma Regroup(b: int, t: int, x: int)
    ensures t * (b * x) == b * (t * x)
  {
  }

  lemma ScaleDot(t: int, b: Vec, v: Vec)
    ensures t * Dot(b, v) == Dot(b, Scale(t, v))
  {
    Regroup(b.x0, t, v.x0); Regroup(b.x1, t, v.x1); Regroup(b.x2, t, v.x2); Regroup(b.x3, t, v.x3);
    Regroup(b.x4, t, v.x4); Regroup(b.x5, t, v.x5); Regroup(b.x6, t, v.x6); Regroup(b.x7, t, v.x7);
    var p0, p1, p2, p3 := b.x0 * v.x0, b.x1 * v.x1, b.x2 * v.x2, b.x3 * v.x3;
    var p4, p5, p6, p7 := b.x4 * v.x4, b.x5 * v.x5, b.x6 * v.x6, b.x7 * v.x7;
    Distribute8(t, p0, p1, p2, p3, p4, p5, p6, p7);
  }

  lemma Distribute8(t: int, a: int, b: int, c: int, d: int, e: int, f: int, g: int, h: int)
    ensures t * (a + b + c + d + e + f + g + h) == t * a + t * b + t * c + t * d + t * e + t * f + t * g + t * h
  {
    assert t * (a + b + c + d + e + f + g + h) == t * (a + b + c + d) + t * (e + f + g + h);
  }

  lemma AddDot(b: Vec, v: Vec, w: Vec)
    ensures Dot(b, Add(v, w)) == Dot(b, v) + Dot(b, w)
  {
    Distribute2(b.x0, v.x0, w.x0); Distribute2(b.x1, v.x1, w.x1); Distribute2(b.x2, v.x2, w.x2);
    Distribute2(b.x3, v.x3, w.x3); Distribute2(b.x4, v.x4, w.x4); Distribute2(b.x5, v.x5, w.x5);
    Distribute2(b.x6, v.x6, w.x6); Distribute2(b.x7, v.x7, w.x7);
  }

  lemma Distribute2(t: int, a: int, b: int)
    ensures t * (a + b) == t * a + t * b
  {
  }

  /** The weighted rows, added up. */
  function Weighted(a: Vec, r0: Vec, r1: Vec, r2: Vec, r3: Vec, r4: Vec, r5: Vec, r6: Vec, r7: Vec): Vec {
    Add(Add(Add(Scale(a.x0, r0), Scale(a.x1, r1)), Add(Scale(a.x2, r2), Scale(a.x3, r3))),
        Add(Add(Scale(a.x4, r4), Scale(a.x5, r5)), Add(Scale(a.x6, r6), Scale(a.x7, r7))))
  }

  lemma WeightedDot(a: Vec, b: Vec, r0: Vec, r1: Vec, r2: Vec, r3: Vec, r4: Vec, r5: Vec, r6: Vec, r7: Vec)
    ensures Dot(b, Weighted(a, r0, r1, r2, r3, r4, r5, r6, r7)) ==
            Dot(a, Vec(Dot(b, r0), Dot(b, r1), Dot(b, r2), Dot(b, r3), Dot(b, r4), Dot(b, r5), Dot(b, r6), Dot(b, r7)))
  {
    hide Scale, Add;
    var p, q := Add(Scale(a.x0, r0), Scale(a.x1, r1)), Add(Scale(a.x2, r2), Scale(a.x3, r3));
    var s, t := Add(Scale(a.x4, r4), Scale(a.x5, r5)), Add(Scale(a.x6, r6), Scale(a.x7, r7));
    FourDots(b, p, q, s, t);
    TwoDots(a.x0, a.x1, b, r0, r1);
    TwoDots(a.x2, a.x3, b, r2, r3);
    TwoDots(a.x4, a.x5, b, r4, r5);
    TwoDots(a.x6, a.x7, b, r6, r7);
    var d := Vec(Dot(b, r0), Dot(b, r1), Dot(b, r2), Dot(b, r3), Dot(b, r4), Dot(b, r5), Dot(b, r6), Dot(b, r7));
    DotMeans(a, d);
  }

  lemma DotMeans(a: Vec, d: Vec)
    ensures Dot(a, d) == a.x0 * d.x0 + a.x1 * d.x1 + a.x2 * d.x2 + a.x3 * d.x3
                         + a.x4 * d.x4 + a.x5 * d.x5 + a.x6 * d.x6 + a.x7 * d.x7
  {
  }

  lemma FourDots(b: Vec, p: Vec, q: Vec, s: Vec, t: Vec)
    ensures Dot(b, Add(Add(p, q), Add(s, t))) == Dot(b, p) + Dot(b, q) + Dot(b, s) + Dot(b, t)
  {
    hide Dot, Add;
    AddDot(b, Add(p, q), Add(s, t));
    AddDot(b, p, q);
    AddDot(b, s, t);
  }

  lemma TwoDots(x: int, y: int, b: Vec, r: Vec, s: Vec)
    ensures Dot(b, Add(Scale(x, r), Scale(y, s))) == x * Dot(b, r) + y * Dot(b, s)
  {
    hide Dot, Add, Scale;
    AddDot(b, Scale(x, r), Scale(y, s));
    ScaleDot(x, b, r);
    ScaleDot(y, b, s);
  }

  function ColumnSum(c: seq<int>, v: seq<int>, r: nat, w: nat): int
    requires |c| == |v| == 64 && r < 8 && w < 8
  {
    Dot(CosineRow(r), ColumnTerms(c, v, w))
  }

  function ColumnSums(c: seq<int>, v: seq<int>, r: nat): Vec
    requires |c| == |v| == 64 && r < 8
  {
    Vec(ColumnSum(c, v, r, 0), ColumnSum(c, v, r, 1), ColumnSum(c, v, r, 2), ColumnSum(c, v, r, 3),
        ColumnSum(c, v, r, 4), ColumnSum(c, v, r, 5), ColumnSum(c, v, r, 6), ColumnSum(c, v, r, 7))
  }

  lemma SumsExchange(c: seq<int>, v: seq<int>, r: nat, k: nat)
    requires |c| == |v| == 64 && r < 8 && k < 8
    ensures Dot(CosineRow(k), ColumnSums(c, v, r)) == DoubleSum(c, v, r, k)
  {
    hide CosineRow;
    var a, b := CosineRow(r), CosineRow(k);
    ColumnSumsWeighted(c, v, r);
    hide Dot, Weighted, RowTerms, ColumnSums;
    WeightedDot(a, b, RowTerms(c, v, 0), RowTerms(c, v, 1), RowTerms(c, v, 2), RowTerms(c, v, 3),
                RowTerms(c, v, 4), RowTerms(c, v, 5), RowTerms(c, v, 6), RowTerms(c, v, 7));
  }

  lemma ColumnSumsWeighted(c: seq<int>, v: seq<int>, r: nat)
    requires |c| == |v| == 64 && r < 8
    ensures ColumnSums(c, v, r) ==
            Weighted(CosineRow(r), RowTerms(c, v, 0), RowTerms(c, v, 1), RowTerms(c, v, 2), RowTerms(c, v, 3),
                     RowTerms(c, v, 4), RowTerms(c, v, 5), RowTerms(c, v, 6), RowTerms(c, v, 7))
  {
    hide CosineRow, Term;
  }

  /* How far the two passes are from it. */

  /** The column pass stays within its rounding of each column's sum. */
  lemma ColumnClose(c: seq<int>, q: seq<int>, v: seq<int>, r: nat, w: nat)
    requires |c| == 64 && Scaled65536(q, v) && r < 8 && w < 8
    ensures Abs(65536 * Workspace(c, q)[8 * r + w] - ColumnSum(c, v, r, w)) <= 196608 + 34 * Size(c, v, w)
  {
    hide Dot, Norm, Butterfly, InColumn, ColumnTerms, Component, CosineRow, Workspace, Abs;
    ColumnIsTerms(c, q, v, w);
    WorkspaceAt(c, q, r, w);
    ButterflyApproximatesIdct(ColumnTerms(c, v, w), r);
  }

  lemma WorkspaceAt(c: seq<int>, q: seq<int>, r: nat, w: nat)
    requires |c| == |q| == 64 && r < 8 && w < 8
    ensures Workspace(c, q)[8 * r + w] == Component(Butterfly(InColumn(c, q, w)), r)
  {
    hide Butterfly, InColumn, Component;
    assert (8 * r + w) % 8 == w && (8 * r + w) / 8 == r;
  }

  lemma ColumnIsTerms(c: seq<int>, q: seq<int>, v: seq<int>, w: nat)
    requires |c| == 64 && Scaled65536(q, v) && w < 8
    ensures InColumn(c, q, w) == ColumnTerms(c, v, w)
  {
    hide Dequantize;
    TermExact(c, q, v, w); TermExact(c, q, v, w + 8); TermExact(c, q, v, w + 16); TermExact(c, q, v, w + 24);
    TermExact(c, q, v, w + 32); TermExact(c, q, v, w + 40); TermExact(c, q, v, w + 48); TermExact(c, q, v, w + 56);
  }

  lemma TermExact(c: seq<int>, q: seq<int>, v: seq<int>, i: nat)
    requires |c| == 64 && Scaled65536(q, v) && i < 64
    ensures Dequantize(c[i], q[i]) == Term(c, v, i)
  {
    DequantizeExact(c[i], v[i]);
  }

  /** The entries of row k of the matrix are bounded, each by itself and together. */
  predicate Bounded(a: Vec) {
    && Abs(a.x0) <= 329472 && Abs(a.x1) <= 329472 && Abs(a.x2) <= 329472 && Abs(a.x3) <= 329472
    && Abs(a.x4) <= 329472 && Abs(a.x5) <= 329472 && Abs(a.x6) <= 329472 && Abs(a.x7) <= 329472
  }

  lemma CosineBounds(k: nat)
    requires k < 8
    ensures Bounded(CosineRow(k)) && Norm(CosineRow(k)) <= 746524
  {
    hide Bounded, Norm, CosineRow;
    CosineEntries(k);
    if k < 4 { CosineNormLow(k); } else { CosineNormHigh(k); }
  }

  lemma CosineEntries(k: nat)
    requires k < 8
    ensures Bounded(CosineRow(k))
  {
  }

  lemma CosineNormLow(k: nat)
    requires k < 4
    ensures Norm(CosineRow(k)) <= 746524
  {
  }

  lemma CosineNormHigh(k: nat)
    requires 4 <= k < 8
    ensures Norm(CosineRow(k)) <= 746524
  {
  }

  lemma AbsProduct(a: int, d: int)
    ensures Abs(a * d) == Abs(a) * Abs(d)
  {
  }

  lemma LessProduct(a: nat, x: nat, y: nat)
    requires x <= y
    ensures a * x <= a * y
  {
  }

  lemma WithinAbs(x: int, e: int)
    ensures Abs(x) <= e <==> -e <= x <= e
  {
  }

  /** What a pass may add to a column of size n. */
  predicate Near(d: int, n: nat) { -(196608 + 34 * n) <= d <= 196608 + 34 * n }

  lemma NearProduct(a: int, d: int, n: nat)
    requires Abs(a) <= 329472 && Near(d, n)
    ensures -(196608 * Abs(a) + 11202048 * n) <= a * d <= 196608 * Abs(a) + 11202048 * n
  {
    WithinAbs(d, 196608 + 34 * n);
    AbsProduct(a, d);
    LessProduct(Abs(a), Abs(d), 196608 + 34 * n);
    Distribute2(Abs(a), 196608, 34 * n);
    LessProduct(n, Abs(a), 329472);
    Regroup(34, Abs(a), n);
    WithinAbs(a * d, 196608 * Abs(a) + 11202048 * n);
  }

  ghost predicate AllNear(d: Vec, n: Vec) {
    && 0 <= n.x0 && Near(d.x0, n.x0) && 0 <= n.x1 && Near(d.x1, n.x1) && 0 <= n.x2 && Near(d.x2, n.x2)
    && 0 <= n.x3 && Near(d.x3, n.x3) && 0 <= n.x4 && Near(d.x4, n.x4) && 0 <= n.x5 && Near(d.x5, n.x5)
    && 0 <= n.x6 && Near(d.x6, n.x6) && 0 <= n.x7 && Near(d.x7, n.x7)
  }

  function Sum(n: Vec): int { n.x0 + n.x1 + n.x2 + n.x3 + n.x4 + n.x5 + n.x6 + n.x7 }

  lemma NearDot(k: nat, d: Vec, n: Vec)
    requires k < 8 && AllNear(d, n)
    ensures var e := 196608 * 746524 + 11202048 * Sum(n); -e <= Dot(CosineRow(k), d) <= e
  {
    CosineBounds(k);
    hide CosineRow, Near, Abs;
    var a := CosineRow(k);
    NearProduct(a.x0, d.x0, n.x0); NearProduct(a.x1, d.x1, n.x1);
    NearProduct(a.x2, d.x2, n.x2); NearProduct(a.x3, d.x3, n.x3);
    NearProduct(a.x4, d.x4, n.x4); NearProduct(a.x5, d.x5, n.x5);
    NearProduct(a.x6, d.x6, n.x6); NearProduct(a.x7, d.x7, n.x7);
  }

  /** A column's sum is no larger than its size allows. */
  lemma ColumnSumBound(c: seq<int>, v: seq<int>, r: nat, w: nat)
    requires |c| == |v| == 64 && r < 8 && w < 8
    ensures Abs(ColumnSum(c, v, r, w)) <= 329472 * Size(c, v, w)
  {
    hide Term;
    DotBound(CosineRow(r), ColumnTerms(c, v, w)) by { CosineBounds(r); }
  }

  lemma EntryProduct(a: int, d: int)
    requires Abs(a) <= 329472
    ensures -(329472 * Abs(d)) <= a * d <= 329472 * Abs(d)
  {
    AbsProduct(a, d);
    LessProduct(Abs(d), Abs(a), 329472);
    WithinAbs(a * d, 329472 * Abs(d));
  }

  lemma DotBound(a: Vec, d: Vec)
    requires Bounded(a)
    ensures Abs(Dot(a, d)) <= 329472 * Norm(d)
  {
    WithinAbs(Dot(a, d), 329472 * Norm(d));
    hide Abs;
    EntryProduct(a.x0, d.x0); EntryProduct(a.x1, d.x1); EntryProduct(a.x2, d.x2); EntryProduct(a.x3, d.x3);
    EntryProduct(a.x4, d.x4); EntryProduct(a.x5, d.x5); EntryProduct(a.x6, d.x6); EntryProduct(a.x7, d.x7);
  }

  /* Both passes. */

  function Sizes(c: seq<int>, v: seq<int>): Vec
    requires |c| == |v| == 64
  {
    Vec(Size(c, v, 0), Size(c, v, 1), Size(c, v, 2), Size(c, v, 3),
        Size(c, v, 4), Size(c, v, 5), Size(c, v, 6), Size(c, v, 7))
  }

  /** 65536 times row r of the workspace, less the sums it stands for. */
  function RowError(c: seq<int>, q: seq<int>, v: seq<int>, r: nat): Vec
    requires |c| == |q| == |v| == 64 && r < 8
  {
    Add(Scale(65536, InRow(Workspace(c, q), r)), Scale(-1, ColumnSums(c, v, r)))
  }

  lemma RowNear(c: seq<int>, q: seq<int>, v: seq<int>, r: nat)
    requires |c| == 64 && Scaled65536(q, v) && r < 8
    ensures AllNear(RowError(c, q, v, r), Sizes(c, v))
  {
    hide Workspace, ColumnSum, Size, Abs, Near;
    EntryNear(c, q, v, r, 0); EntryNear(c, q, v, r, 1); EntryNear(c, q, v, r, 2); EntryNear(c, q, v, r, 3);
    EntryNear(c, q, v, r, 4); EntryNear(c, q, v, r, 5); EntryNear(c, q, v, r, 6); EntryNear(c, q, v, r, 7);
  }

  lemma EntryNear(c: seq<int>, q: seq<int>, v: seq<int>, r: nat, w: nat)
    requires |c| == 64 && Scaled65536(q, v) && r < 8 && w < 8
    ensures Near(65536 * AtOffset(Workspace(c, q), r, w) + -1 * ColumnSum(c, v, r, w), Size(c, v, w))
  {
    hide Workspace, ColumnSum, Size;
    ColumnClose(c, q, v, r, w);
  }

  /** An entry of the workspace is no larger than its column allows. */
  lemma EntryBound(c: seq<int>, q: seq<int>, v: seq<int>, r: nat, w: nat)
    requires |c| == 64 && Scaled65536(q, v) && r < 8 && w < 8
    ensures 65536 * Abs(AtOffset(Workspace(c, q), r, w)) <= 329506 * Size(c, v, w) + 196608
  {
    hide Workspace, ColumnSum, Size;
    ColumnClose(c, q, v, r, w);
    ColumnSumBound(c, v, r, w);
  }

  lemma RowNorm(c: seq<int>, q: seq<int>, v: seq<int>, r: nat)
    requires |c| == 64 && Scaled65536(q, v) && r < 8
    ensures 65536 * Norm(InRow(Workspace(c, q), r)) <= 329506 * Total(c, v) + 1572864
  {
    hide Workspace, Size, Abs;
    EntryBound(c, q, v, r, 0); EntryBound(c, q, v, r, 1); EntryBound(c, q, v, r, 2); EntryBound(c, q, v, r, 3);
    EntryBound(c, q, v, r, 4); EntryBound(c, q, v, r, 5); EntryBound(c, q, v, r, 6); EntryBound(c, q, v, r, 7);
  }

  /** The value that the row pass computes for row r and column k, before the shift by three and the limit. */
  function RowOutput(c: seq<int>, q: seq<int>, r: nat, k: nat): int
    requires |c| == |q| == 64 && r < 8 && k < 8
  {
    Component(Butterfly(InRow(Workspace(c, q), r)), k)
  }

  lemma OutputClose(c: seq<int>, q: seq<int>, v: seq<int>, r: nat, k: nat)
    requires |c| == 64 && Scaled65536(q, v) && r < 8 && k < 8
    ensures Abs(0x1_0000_0000 * RowOutput(c, q, r, k) - DoubleSum(c, v, r, k)) <= Bound(Total(c, v))
  {
    hide Dot, Norm, Butterfly, InRow, Workspace, Component, CosineRow, ColumnSums, DoubleSum, Abs, Size;
    var x, a := InRow(Workspace(c, q), r), CosineRow(k);
    var e := RowError(c, q, v, r);
    ButterflyApproximatesIdct(x, k);
    RowNorm(c, q, v, r);
    RowNear(c, q, v, r);
    NearDot(k, e, Sizes(c, v));
    SumsExchange(c, v, r, k);
    AddDot(a, Scale(65536, x), Scale(-1, ColumnSums(c, v, r)));
    ScaleDot(65536, a, x);
    ScaleDot(-1, a, ColumnSums(c, v, r));
    Combined(RowOutput(c, q, r, k), Dot(a, x), DoubleSum(c, v, r, k), Norm(x), Total(c, v));
  }

  lemma Combined(s: int, d: int, t: int, n: nat, total: nat)
    requires Abs(65536 * s - d) <= 196608 + 34 * n && 65536 * n <= 329506 * total + 1572864
    requires -(196608 * 746524 + 11202048 * total) <= 65536 * d - t <= 196608 * 746524 + 11202048 * total
    ensures Abs(0x1_0000_0000 * s - t) <= Bound(total)
  {
  }

  /** The transform of any block under tables of whole entries: the sample at row r, column k is the limited value
      of a sum that is within Bound of 2^-32 times the double sum; where the limit is a clamp, it is the clamp. */
  lemma BlockTransforms(c: seq<int>, q: seq<int>, v: seq<int>, r: nat, k: nat) returns (s: int)
    requires |c| == 64 && Scaled65536(q, v) && r < 8 && k < 8
    ensures Abs(0x1_0000_0000 * s - DoubleSum(c, v, r, k)) <= Bound(Total(c, v))
    ensures Samples(c, q)[8 * r + k] == Limit(s)
    ensures -512 <= s / 8 <= 510 ==> Samples(c, q)[8 * r + k] == Clamp(128 + s / 8)
  {
    hide Workspace, Butterfly, InRow, Component, DoubleSum, Limit, Clamp, Bound, Total;
    s := RowOutput(c, q, r, k);
    OutputClose(c, q, v, r, k);
    assert (8 * r + k) / 8 == r && (8 * r + k) % 8 == k;
    LimitIsClampExactly(s);
  }

  /** In samples: as far as the sum stays inside the range table, the sample differs from the clamped, shifted
      double sum by at most the bound in its units and one. */
  lemma SampleNear(c: seq<int>, q: seq<int>, v: seq<int>, r: nat, k: nat)
    requires |c| == 64 && Scaled65536(q, v) && r < 8 && k < 8
    requires var t, b := DoubleSum(c, v, r, k), Bound(Total(c, v));
             -4096 * 0x1_0000_0000 + b <= t <= 4087 * 0x1_0000_0000 - b
    ensures var t := DoubleSum(c, v, r, k);
            Abs(Samples(c, q)[8 * r + k] - Clamp(128 + t / 0x8_0000_0000)) <= Bound(Total(c, v)) / 0x8_0000_0000 + 1
  {
    hide Samples, DoubleSum, Bound, Total, Limit;
    var s := BlockTransforms(c, q, v, r, k);
    ShiftNear(s, DoubleSum(c, v, r, k), Bound(Total(c, v)));
  }

  lemma ShiftNear(s: int, t: int, b: nat)
    requires Abs(0x1_0000_0000 * s - t) <= b && -4096 * 0x1_0000_0000 + b <= t <= 4087 * 0x1_0000_0000 - b
    ensures -512 <= s / 8 <= 510 && Abs(s / 8 - t / 0x8_0000_0000) <= b / 0x8_0000_0000 + 1
  {
    var m, n, d := s / 8, t / 0x8_0000_0000, b / 0x8_0000_0000;
    assert 0x8_0000_0000 * m <= 0x1_0000_0000 * s < 0x8_0000_0000 * m + 0x8_0000_0000;
    assert 0x8_0000_0000 * n <= t < 0x8_0000_0000 * n + 0x8_0000_0000;
    assert b < 0x8_0000_0000 * d + 0x8_0000_0000;
  }
}
