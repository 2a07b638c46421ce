/** The two-register bit reader of bitstream.go, refined to an absolute position in the bit stream. */
module BitReading {
  import opened Bits

  /** Bytes to 32-bit words, little-endian, padded with zero bytes to a multiple of four. */
  function Padded(data: seq<Byte>): (p: seq<Byte>)
    ensures |p| % 4 == 0 && |data| <= |p| < |data| + 4 && data <= p
  {
    if |data| % 4 == 0 then data else data + seq(4 - |data| % 4, _ => 0)
  }

  function LittleEndianWord(b: seq<Byte>): Word
    requires |b| == 4
  {
    BitsOf(8, b[3]) + BitsOf(8, b[2]) + BitsOf(8, b[1]) + BitsOf(8, b[0])
  }

  method MakeIntArray(data: seq<Byte>) returns (words: seq<Word>)
    ensures words == Words(data)
  {
    var padded := Padded(data);
    words := [];
    for i := 0 to |padded| / 4
      invariant |words| == i
      invariant forall j :: 0 <= j < i ==> words[j] == LittleEndianWord(padded[4 * j..4 * j + 4])
    {
      words := words + [LittleEndianWord(padded[4 * i..4 * i + 4])];
    }
  }

  function Words(data: seq<Byte>): (w: seq<Word>)
    ensures |w| == (|data| + 3) / 4
  {
    var p := Padded(data);
    seq(|p| / 4, i requires 0 <= i < |p| / 4 => LittleEndianWord(p[4 * i..4 * i + 4]))
  }

  function LittleEndian(a: int, b: int, c: int, d: int): int { a + 256 * b + 65536 * c + 16777216 * d }

  /** Each word of the stream denotes the number binary.LittleEndian.Uint32 reads. */
  lemma WordsAreLittleEndian(data: seq<Byte>, i: nat)
    requires 4 * i + 3 < |data|
    ensures Val(Words(data)[i]) ==
            LittleEndian(data[4 * i], data[4 * i + 1], data[4 * i + 2], data[4 * i + 3])
  {
    var p := Padded(data);
    assert p[4 * i..4 * i + 4] == data[4 * i..4 * i + 4];
    LittleEndianValue(data[4 * i], data[4 * i + 1], data[4 * i + 2], data[4 * i + 3]);
    assert data[4 * i..4 * i + 4] == [data[4 * i], data[4 * i + 1], data[4 * i + 2], data[4 * i + 3]];
  }

  lemma LittleEndianValue(a: Byte, b: Byte, c: Byte, d: Byte)
    ensures Val(LittleEndianWord([a, b, c, d])) == LittleEndian(a, b, c, d)
  {
    assert Pow2(8) == 256 by { assert Pow2(4) == 16; Pow2Add(4, 4); }
    var x, y, z, w := BitsOf(8, d), BitsOf(8, c), BitsOf(8, b), BitsOf(8, a);
    ValBitsOf(8, a); ValBitsOf(8, b); ValBitsOf(8, c); ValBitsOf(8, d);
    ValConcat(x, y);
    ValConcat(x + y, z);
    ValConcat(x + y + z, w);
  }

  /** What getKbits reads from k bits: EXTEND of section F.2.2.1 of ITU-T T.81. */
  function Extend(v: nat, k: nat): int
    requires 1 <= k
  {
    if v < Pow2(k - 1) then v - Pow2(k) + 1 else v
  }

  /** The registers as the source holds them. */
  datatype Registers = Registers(reg0: Word, reg1: Word, newbits: int, index: int)

  /** The registers after p bits were consumed: a function of the buffer and p alone. */
  function At(buf: seq<Word>, p: nat): (r: Registers)
    requires |buf| >= 2
    ensures 1 <= r.newbits <= 32 && 2 <= r.index <= |buf|
  {
    var left := 32 - p % 32;
    Registers(Window(buf, p, 32), Window(buf, p + 32, left) + Zeros(32 - left), left,
              if p / 32 + 2 <= |buf| then p / 32 + 2 else |buf|)
  }

  method InitNegPow2() returns (t: seq<int>)
    ensures |t| == 17 && t[0] == 0
    ensures forall i :: 1 <= i < 17 ==> t[i] == Wrap16(1 - Pow2(i))
  {
    t := [0];
    for i := 1 to 17
      invariant |t| == i && t[0] == 0
      invariant forall j :: 1 <= j < i ==> t[j] == Wrap16(1 - Pow2(j))
    {
      t := t + [Wrap16(1 - Pow2(i))];
    }
  }

  class BitReader {
    var buf: seq<Word>
    var reg0: Word
    var reg1: Word
    var newbits: int
    var index: int
    const negPow2: seq<int>
    /** Bits consumed so far. */
    ghost var pos: nat

    ghost predicate Valid()
      reads this
    {
      && |buf| >= 2
      && Registers(reg0, reg1, newbits, index) == At(buf, pos)
      && |negPow2| == 17 && forall i :: 1 <= i < 17 ==> negPow2[i] == Wrap16(1 - Pow2(i))
    }

    constructor ()
      ensures Valid() && pos == 0
    {
      var t := InitNegPow2();
      negPow2 := t;
      buf := [Zeros(32), Zeros(32)];
      reg0, reg1, newbits, index := Zeros(32), Zeros(32), 32, 2;
      pos := 0;
      new;
      SeedIsStart(buf);
    }

    /** Seed the two registers with the first two words. */
    method Seed(words: seq<Word>)
      requires Valid() && |words| >= 2
      modifies this
      ensures Valid() && buf == words && pos == 0
    {
      buf := words;
      reg0, reg1, index, newbits := words[0], words[1], 2, 32;
      pos := 0;
      SeedIsStart(words);
    }

    /** Peek at the top k bits, converted to int16. */
    function LookKbits(k: nat): (r: int)
      requires Valid() && k <= 32
      reads this
      ensures r == Wrap16(Val(Window(buf, pos, k)))
    {
      TopBits(reg0, k);
      WindowPrefix(buf, pos, k, 32);
      if k == 0 then 0 else Wrap16(Val(Shr(reg0, 32 - k)))
    }

    method SkipKbits(k: nat)
      requires Valid() && k <= 31
      modifies `reg0, `reg1, `newbits, `index, `pos
      ensures Valid() && pos == old(pos) + k
    {
      hide At, Or, Shl, Shr, Merge64, Shl64, Shr64, Window;
      ghost var r := Registers(reg0, reg1, newbits, index);
      if newbits - k <= 0 {
        if index >= |buf| { index := |buf| - 1; }
        var nextWord := buf[index];
        index := index + 1;
        RefillWindow(buf, pos, r, k, nextWord);
        reg0 := Or(Shl(reg0, k), Merge64(reg1, nextWord, newbits, k));
        reg1 := Shl(nextWord, k - newbits);
        newbits := 32 + newbits - k;
      } else {
        ShiftWindow(buf, pos, r, k);
        reg0 := Or(Shl(reg0, k), Shr(reg1, 32 - k));
        reg1 := Shl(reg1, k);
        newbits := newbits - k;
      }
      pos := pos + k;
    }

    /** The same transition computed through 64-bit shifts. */
    method UpdateReadBuf(n: nat)
      requires Valid() && n <= 31
      modifies `reg0, `reg1, `newbits, `index, `pos
      ensures Valid() && pos == old(pos) + n
    {
      hide At, Or, Shl, Shr, Merge64, Shl64, Shr64, Window;
      ghost var r := Registers(reg0, reg1, newbits, index);
      if newbits - n <= 0 {
        if index >= |buf| { index := |buf| - 1; }
        var nextWord := buf[index];
        index := index + 1;
        RefillWindow(buf, pos, r, n, nextWord);
        reg0 := Or(Shl64(reg0, n), Merge64(reg1, nextWord, newbits, n));
        reg1 := Shl64(nextWord, n - newbits);
        newbits := 32 + newbits - n;
      } else {
        ShiftWindow(buf, pos, r, n);
        reg0 := Or(Shl64(reg0, n), Shr64(reg1, 32 - n));
        reg1 := Shl64(reg1, n);
        newbits := newbits - n;
      }
      pos := pos + n;
    }

    /** Read k bits as a signed coefficient. */
    method GetKbits(k: nat) returns (v: int)
      requires Valid() && 1 <= k <= 15
      modifies `reg0, `reg1, `newbits, `index, `pos
      ensures Valid() && pos == old(pos) + k
      ensures v == Extend(Val(Window(buf, old(pos), k)), k)
    {
      hide At, Window, Val, Pow2, Wrap16, TopBitClear, Extend;
      v := LookKbits(k);
      ExtendStep(Window(buf, pos, k), negPow2[k]);
      if TopBitClear(v, k) {
        v := Wrap16(v + negPow2[k]);
      }
      SkipKbits(k);
    }
  }

  lemma SeedIsStart(buf: seq<Word>)
    requires |buf| >= 2
    ensures At(buf, 0) == Registers(buf[0], buf[1], 32, 2)
  {
    assert Window(buf, 0, 32) == buf[0];
    assert Window(buf, 32, 32) + Zeros(0) == buf[1];
  }

  lemma TopBits(w: Word, k: nat)
    requires k <= 32
    ensures Val(Shr(w, 32 - k)) == Val(w[..k])
  {
    if k == 0 {
      ValZeros(32);
    } else {
      assert Shr(w, 32 - k) == Zeros(32 - k) + w[..k];
      ValConcat(Zeros(32 - k), w[..k]);
      ValZeros(32 - k);
    }
  }

  /** 32-bit shifts carried out on the 64-bit extension and truncated again. */
  function Shl64(w: Word, n: nat): (r: Word)
    ensures r == Shl(w, n)
  {
    Narrow(Shl(Widen(w), n))
  }

  function Shr64(w: Word, n: nat): (r: Word)
    ensures r == Shr(w, n)
  {
    Narrow(Shr(Widen(w), n))
  }

  /** The n bits a refill moves up: the second register, then the new word. */
  function Merge64(reg1: Word, next: Word, newbits: nat, n: nat): Word
    requires n <= 32
  {
    Narrow(Shr(Or(Widen(reg1), Shr(Widen(next), newbits)), 32 - n))
  }

  /** The transition when the second register still holds more than n bits. */
  function Shifted(r: Registers, n: nat): Registers
    requires n <= 31
  {
    Registers(Or(Shl(r.reg0, n), Shr(r.reg1, 32 - n)), Shl(r.reg1, n), r.newbits - n, r.index)
  }

  lemma ShiftWindow(buf: seq<Word>, p: nat, r: Registers, n: nat)
    requires |buf| >= 2 && r == At(buf, p) && n < r.newbits
    ensures At(buf, p + n) == Shifted(r, n)
  {
    var s := At(buf, p + n);
    assert (p + n) / 32 == p / 32 && (p + n) % 32 == p % 32 + n;
    assert s.reg0 == Shifted(r, n).reg0;
    assert s.reg1 == Shl(r.reg1, n);
  }

  /** The transition when a new word is fetched; the index stays pinned at the end of the buffer. */
  function Refilled(r: Registers, n: nat, next: Word, size: nat): Registers
    requires 0 <= r.newbits <= n <= 31
  {
    Registers(Or(Shl(r.reg0, n), Merge64(r.reg1, next, r.newbits, n)),
              Shl(next, n - r.newbits), 32 + r.newbits - n, (if r.index >= size then size - 1 else r.index) + 1)
  }

  lemma RefillWindow(buf: seq<Word>, p: nat, r: Registers, n: nat, next: Word)
    requires |buf| >= 2 && r == At(buf, p) && r.newbits <= n <= 31
    requires next == buf[if r.index >= |buf| then |buf| - 1 else r.index]
    ensures At(buf, p + n) == Refilled(r, n, next, |buf|)
  {
    assert (p + n) / 32 == p / 32 + 1 && (p + n) % 32 == n - r.newbits;
    RefillLow(buf, p, n, next);
    RefillHigh(buf, p, n, next);
  }

  lemma RefillLow(buf: seq<Word>, p: nat, n: nat, next: Word)
    requires |buf| >= 2 && 32 - p % 32 <= n <= 31
    requires next == WordAt(buf, p / 32 + 2)
    ensures At(buf, p + n).reg1 == Shl(next, n - (32 - p % 32))
  {
    hide Shl, StreamBit, WordAt;
    var left, s := 32 - p % 32, At(buf, p + n).reg1;
    assert (p + n) % 32 == n - left;
    ShlBits(next, n - left);
    forall i | 0 <= i < 32 ensures s[i] == Shl(next, n - left)[i] {
      if i + n - left < 32 {
        NextWordBit(buf, p, next, i + n - left);
        assert s[i] == StreamBit(buf, p + n + 32 + i);
      }
    }
  }

  lemma ShlBits(w: Word, n: nat)
    ensures forall i :: 0 <= i < 32 ==> Shl(w, n)[i] == (i + n < 32 && w[i + n])
  {
  }

  lemma RefillHigh(buf: seq<Word>, p: nat, n: nat, next: Word)
    requires |buf| >= 2 && 32 - p % 32 <= n <= 31
    requires next == WordAt(buf, p / 32 + 2)
    ensures var r := At(buf, p);
            Window(buf, p + n, 32) == Or(Shl(r.reg0, n), Merge64(r.reg1, next, r.newbits, n))
  {
    hide Or, Shl, Merge64, StreamBit, WordAt;
    var r := At(buf, p);
    var left := r.newbits;
    Merged(r.reg0, r.reg1, next, left, n);
    var both := Or(Shl(r.reg0, n), Merge64(r.reg1, next, left, n));
    forall i | 0 <= i < 32 ensures both[i] == StreamBit(buf, p + n + i) {
      var j := i + n - 32;
      if j >= left { NextWordBit(buf, p, next, j - left); }
    }
  }

  /** Bit by bit, the refilled register is the old one followed by the second register and the new word. */
  lemma Merged(reg0: Word, reg1: Word, next: Word, left: nat, n: nat)
    requires left <= n <= 31 && forall j :: left <= j < 32 ==> !reg1[j]
    ensures var both := Or(Shl(reg0, n), Merge64(reg1, next, left, n));
            forall i :: 0 <= i < 32 ==>
              both[i] == if i < 32 - n then reg0[i + n]
                         else if i + n - 32 < left then reg1[i + n - 32] else next[i + n - 32 - left]
  {
    var x := Or(Widen(reg1), Shr(Widen(next), left));
    assert forall j :: 32 <= j < 64 ==> x[j] == (reg1[j - 32] || (j - 32 >= left && next[j - 32 - left]));
    var y := Narrow(Shr(x, 32 - n));
    assert forall i :: 32 - n <= i < 32 ==> y[i] == x[i + n];
    assert forall j :: 0 <= j < 32 ==> !x[j];
    assert forall i :: 0 <= i < 32 - n ==> !y[i];
  }

  /** The word fetched on a refill holds the bits that follow the second register. */
  lemma NextWordBit(buf: seq<Word>, p: nat, next: Word, j: nat)
    requires |buf| >= 2 && next == WordAt(buf, p / 32 + 2) && j < 32
    ensures StreamBit(buf, p + 64 - p % 32 + j) == next[j]
  {
    hide WordAt;
    var q := p + 64 - p % 32 + j;
    assert q == 32 * (p / 32 + 2) + j;
  }

  /** (1 << (k-1)) & v == 0 for a non-negative v. */
  predicate TopBitClear(v: int, k: nat)
    requires 1 <= k
  {
    v / Pow2(k - 1) % 2 == 0
  }

  lemma ExtendStep(w: seq<bool>, neg: int)
    requires 1 <= |w| <= 15 && neg == Wrap16(1 - Pow2(|w|))
    ensures Wrap16(Val(w)) == Val(w)
    ensures TopBitClear(Val(w), |w|) ==> Wrap16(Val(w) + neg) == Extend(Val(w), |w|)
    ensures !TopBitClear(Val(w), |w|) ==> Val(w) == Extend(Val(w), |w|)
  {
    hide Wrap16, TopBitClear, Val, Pow2;
    SmallValue(w);
    WrapSmall(1 - Pow2(|w|));
    WrapSmall(Val(w));
    WrapSmall(Val(w) + neg);
  }

  lemma WrapSmall(v: int)
    requires -32768 <= v < 32768
    ensures Wrap16(v) == v
  {
  }

  lemma SmallValue(w: seq<bool>)
    requires 1 <= |w| <= 15
    ensures Val(w) < Pow2(|w|) <= 32768
    ensures TopBitClear(Val(w), |w|) <==> Val(w) < Pow2(|w| - 1)
  {
    ValBound(w);
    Pow2Monotone(|w|, 15);
    HalfTest(Val(w), Pow2(|w| - 1));
  }

  lemma HalfTest(v: nat, h: nat)
    requires 0 < h && v < 2 * h
    ensures v / h % 2 == 0 <==> v < h
  {
    if v < h { DivModUnique(0, h, v); } else { DivModUnique(1, h, v - h); }
  }

  lemma {:induction false} Pow2Monotone(a: nat, b: nat)
    requires a <= b
    ensures Pow2(a) <= Pow2(b)
    ensures b == 15 ==> Pow2(b) == 32768
  {
    if b == 15 { assert Pow2(5) == 32; Pow2Add(5, 5); Pow2Add(10, 5); }
    if a < b { Pow2Monotone(a, b - 1); }
  }
}
