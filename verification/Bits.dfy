/** Machine words as bit sequences, most significant bit first, with Go's shift semantics. */
module Bits {

  type Byte = x: int | 0 <= x < 256
  type Word = w: seq<bool> | |w| == 32 witness seq(32, _ => false)

  function Pow2(n: nat): (r: nat)
    ensures r > 0
  {
    if n == 0 then 1 else 2 * Pow2(n - 1)
  }

  function Bit(b: bool): nat { if b then 1 else 0 }

  /** The unsigned number a bit string denotes. */
  function Val(b: seq<bool>): nat {
    if b == [] then 0 else 2 * Val(b[..|b| - 1]) + Bit(b[|b| - 1])
  }

  /** The n-bit string that denotes v modulo 2^n. */
  function BitsOf(n: nat, v: nat): (b: seq<bool>)
    ensures |b| == n
  {
    if n == 0 then [] else BitsOf(n - 1, v / 2) + [v % 2 == 1]
  }

  /** Conversion to int16: reduction modulo 2^16 into -2^15 .. 2^15 - 1. */
  function Wrap16(v: int): (r: int)
    ensures -32768 <= r < 32768
  {
    (v + 32768) % 65536 - 32768
  }

  function Zeros(n: nat): (z: seq<bool>)
    ensures |z| == n && forall i :: 0 <= i < n ==> !z[i]
  {
    seq(n, _ => false)
  }

  function Shl(w: seq<bool>, n: nat): (r: seq<bool>)
    ensures |r| == |w|
  {
    if n >= |w| then Zeros(|w|) else w[n..] + Zeros(n)
  }

  function Shr(w: seq<bool>, n: nat): (r: seq<bool>)
    ensures |r| == |w|
  {
    if n >= |w| then Zeros(|w|) else Zeros(n) + w[..|w| - n]
  }

  function Or(a: seq<bool>, b: seq<bool>): (r: seq<bool>)
    requires |a| == |b|
    ensures |r| == |a|
  {
    seq(|a|, i requires 0 <= i < |a| => a[i] || b[i])
  }

  /** uint64(w) for a 32-bit w, and uint32(x) for a 64-bit x. */
  function Widen(w: Word): (r: seq<bool>) ensures |r| == 64 { Zeros(32) + w }

  function Narrow(x: seq<bool>): (r: Word) requires |x| == 64 { x[32..] }

  /** The field of bits lo .. hi (counted from the top), as (w >> k) & mask extracts it. */
  function Field(w: seq<bool>, lo: nat, hi: nat): nat
    requires lo <= hi <= |w|
  {
    Val(w[lo..hi])
  }

  lemma {:induction false} Pow2Add(a: nat, b: nat)
    ensures Pow2(a + b) == Pow2(a) * Pow2(b)
  {
    if a > 0 {
      Pow2Add(a - 1, b);
      assert Pow2(a + b) == 2 * Pow2(a - 1 + b);
    }
  }

  lemma {:induction false} ValBound(b: seq<bool>)
    ensures Val(b) < Pow2(|b|)
  {
    if b != [] { ValBound(b[..|b| - 1]); }
  }

  lemma {:induction false} ValConcat(a: seq<bool>, b: seq<bool>)
    ensures Val(a + b) == Val(a) * Pow2(|b|) + Val(b)
  {
    if b == [] {
      assert a + b == a;
    } else {
      var b' := b[..|b| - 1];
      assert (a + b)[..|a + b| - 1] == a + b';
      ValConcat(a, b');
      assert Val(a) * Pow2(|b|) == 2 * (Val(a) * Pow2(|b'|));
    }
  }

  lemma {:induction false} ValZeros(n: nat)
    ensures Val(Zeros(n)) == 0
  {
    if n > 0 {
      ValZeros(n - 1);
      assert Zeros(n)[..n - 1] == Zeros(n - 1);
    }
  }

  /** BitsOf and Val are inverse to each other. */
  lemma {:induction false} ValBitsOf(n: nat, v: nat)
    requires v < Pow2(n)
    ensures Val(BitsOf(n, v)) == v
  {
    if n > 0 {
      ValBitsOf(n - 1, v / 2);
      assert BitsOf(n, v)[..n - 1] == BitsOf(n - 1, v / 2);
    }
  }

  lemma {:induction false} BitsOfVal(b: seq<bool>)
    ensures BitsOf(|b|, Val(b)) == b
  {
    if b != [] {
      BitsOfVal(b[..|b| - 1]);
      assert Val(b) / 2 == Val(b[..|b| - 1]);
    }
  }

  lemma DivModUnique(q: nat, m: nat, r: nat)
    requires r < m
    ensures (q * m + r) / m == q && (q * m + r) % m == r
  {
    var x := q * m + r;
    var d := x / m - q;
    assert d * m == r - x % m;
    assert d == 0 by {
      assert d >= 1 ==> d * m >= m;
      assert d <= -1 ==> d * m <= (-1) * m;
    }
  }

  /** Shifting left is multiplication modulo the word size. */
  lemma ShlIsMultiplication(w: seq<bool>, n: nat)
    requires n <= |w|
    ensures Val(Shl(w, n)) == Val(w) * Pow2(n) % Pow2(|w|)
  {
    hide Shl, Val, Pow2, Zeros;
    var hi, lo, p := w[..n], w[n..], Pow2(|w| - n);
    ShlParts(w, n);
    ValConcat(hi, lo);
    ValConcat(lo, Zeros(n));
    ValZeros(n);
    ValBound(lo);
    Pow2Add(|w| - n, n);
    ScaleMod(Val(w), Val(hi), Val(lo), p, Pow2(n));
  }

  lemma ShlParts(w: seq<bool>, n: nat)
    requires n <= |w|
    ensures w == w[..n] + w[n..] && Shl(w, n) == w[n..] + Zeros(n)
  {
  }

  lemma ScaleMod(v: nat, q: nat, r: nat, p: nat, k: nat)
    requires v == q * p + r && r < p && k > 0
    ensures p * k > 0 && v * k % (p * k) == r * k
  {
    Distribute(v, q, r, p, k);
    MulLess(r, p, k);
    DivModUnique(q, p * k, r * k);
  }

  lemma Distribute(v: nat, q: nat, r: nat, p: nat, k: nat)
    requires v == q * p + r
    ensures v * k == q * (p * k) + r * k
  {
    assert (q * p) * k == q * (p * k);
    assert (q * p + r) * k == (q * p) * k + r * k;
  }

  lemma MulLess(r: nat, p: nat, k: nat)
    requires r < p && k > 0
    ensures 0 <= r * k < p * k
  {
    assert (p - r) * k > 0;
  }

  /** Shifting right is floor division. */
  lemma ShrIsDivision(w: seq<bool>, n: nat)
    requires n <= |w|
    ensures Val(Shr(w, n)) == Val(w) / Pow2(n)
  {
    var a, b := w[..|w| - n], w[|w| - n..];
    assert w == a + b;
    assert Shr(w, n) == Zeros(n) + a;
    ValConcat(a, b);
    ValConcat(Zeros(n), a);
    ValZeros(n);
    ValBound(b);
    DivModUnique(Val(a), Pow2(n), Val(b));
  }

  /** Field is what a right shift and a mask compute on the number. */
  lemma FieldIsShiftAndMask(w: seq<bool>, lo: nat, hi: nat)
    requires lo <= hi <= |w|
    ensures Field(w, lo, hi) == Val(w) / Pow2(|w| - hi) % Pow2(hi - lo)
  {
    var top, mid, low := w[..lo], w[lo..hi], w[hi..];
    assert w == (top + mid) + low;
    ValConcat(top + mid, low); ValConcat(top, mid);
    ValBound(low); ValBound(mid);
    DivModUnique(Val(top + mid), Pow2(|low|), Val(low));
    DivModUnique(Val(top), Pow2(|mid|), Val(mid));
  }

  /* The word stream: buf, continued forever by repeating its last word. */

  function WordAt(buf: seq<Word>, i: nat): Word
    requires buf != []
  {
    if i < |buf| then buf[i] else buf[|buf| - 1]
  }

  function StreamBit(buf: seq<Word>, p: nat): bool
    requires buf != []
  {
    WordAt(buf, p / 32)[p % 32]
  }

  /** Past its end the stream repeats the last word. */
  lemma PastTheEnd(buf: seq<Word>, p: nat)
    requires buf != [] && p >= 32 * |buf|
    ensures StreamBit(buf, p) == buf[|buf| - 1][p % 32]
  {
  }

  /** The n bits of the stream that start at bit position p. */
  function Window(buf: seq<Word>, p: nat, n: nat): (w: seq<bool>)
    requires buf != []
    ensures |w| == n && forall i :: 0 <= i < n ==> w[i] == StreamBit(buf, p + i)
  {
    seq(n, i requires 0 <= i < n => StreamBit(buf, p + i))
  }

  lemma WindowSplit(buf: seq<Word>, p: nat, a: nat, b: nat)
    requires buf != []
    ensures Window(buf, p, a + b) == Window(buf, p, a) + Window(buf, p + a, b)
  {
  }

  lemma WindowPrefix(buf: seq<Word>, p: nat, n: nat, m: nat)
    requires buf != [] && n <= m
    ensures Window(buf, p, m)[..n] == Window(buf, p, n)
  {
  }

  lemma WindowSlice(buf: seq<Word>, p: nat, n: nat, lo: nat, hi: nat)
    requires buf != [] && lo <= hi <= n
    ensures Window(buf, p, n)[lo..hi] == Window(buf, p + lo, hi - lo)
  {
  }

  /** Concatenated windows: what follows the first part starts where that part ends. */
  lemma WindowTail(buf: seq<Word>, p: nat, a: seq<bool>, b: seq<bool>)
    requires buf != [] && Window(buf, p, |a| + |b|) == a + b
    ensures Window(buf, p, |a|) == a && Window(buf, p + |a|, |b|) == b
  {
    WindowSplit(buf, p, |a|, |b|);
    assert Window(buf, p, |a|) == (a + b)[..|a|];
    assert Window(buf, p + |a|, |b|) == (a + b)[|a|..];
  }
}
