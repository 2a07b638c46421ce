/** Laws of the block loop: when it ends, and what the decoded tiles depend on. */
module FrameLaws {
  import opened Bits
  import opened BitReading
  import opened Idct
  import opened History
  import opened Frames

  /* Termination. */

  lemma IndexBelow(buf: seq<Word>, p: nat, words: nat)
    requires |buf| >= 2 && words <= |buf| && At(buf, p).index < words
    ensures p + 64 < 32 * words
  {
  }

  /** Each block consumes at least four bits, and the index pins only at the end of the buffer. */
  lemma {:induction false} EnoughFuel(x: Context, c: Cursor, fuel: nat)
    requires Set(x) && Fit(c) && x.words <= |x.buf| && c.pos + 4 * fuel >= 32 * x.words
    ensures RunBlocks(x, c, fuel).outcome != OutOfFuel
    decreases fuel
  {
    hide Fit, Coding, StepBlock, At;
    var s := StepBlock(x, c);
    if s.Next? {
      NextMeansWords(x, c);
      IndexBelow(x.buf, c.pos, x.words);
      EnoughFuel(x, s.cursor, fuel - 1);
    }
  }

  /** A run that ends is the same for every larger bound, so the bound is no part of its meaning. */
  lemma {:induction false} FuelIrrelevant(x: Context, c: Cursor, a: nat, b: nat)
    requires Set(x) && Fit(c) && a <= b && RunBlocks(x, c, a).outcome != OutOfFuel
    ensures RunBlocks(x, c, b) == RunBlocks(x, c, a)
    decreases a
  {
    hide Fit, Coding, StepBlock;
    var s := StepBlock(x, c);
    if s.Next? { FuelIrrelevant(x, s.cursor, a - 1, b - 1); }
  }

  lemma NextMeansWords(x: Context, c: Cursor)
    requires Set(x) && Fit(c) && StepBlock(x, c).Next?
    ensures At(x.buf, c.pos).index < x.words && |x.buf| >= 3
  {
    hide Body, Positioned, EventOf;
  }

  ghost predicate Terminates(x: Context, tile: seq<int>)
    requires Set(x) && |tile| == 768
  {
    exists fuel: nat :: RunBlocks(x, Start(tile), fuel).outcome != OutOfFuel
  }

  lemma {:induction false} ZeroWindow(buf: seq<Word>, p: nat, n: nat)
    requires buf != [] && forall i :: 0 <= i < |buf| ==> buf[i] == Zeros(32)
    ensures Val(Window(buf, p, n)) == 0
  {
    ValZeros(n);
    assert Window(buf, p, n) == Zeros(n);
  }

  /** On all-zero data the loop reads JPEG blocks for ever. */
  lemma {:induction false} ZeroDataRunsOn(x: Context, c: Cursor, fuel: nat)
    requires Set(x) && Fit(c) && x.words > |x.buf| && forall i :: 0 <= i < |x.buf| ==> x.buf[i] == Zeros(32)
    ensures RunBlocks(x, c, fuel).outcome == OutOfFuel
    decreases fuel
  {
    hide Fit, Coding, Body, Positioned, EventOf, Window, Val;
    ZeroWindow(x.buf, c.pos, 4);
    var s := StepBlock(x, c);
    assert s.Next?;
    if fuel > 0 { ZeroDataRunsOn(x, s.cursor, fuel - 1); }
  }

  ghost predicate AllEnd(x: Context, n: nat, tile: seq<int>)
    requires Coding(x.coders) && Quants(x.quant) && n >= 3 && |tile| == 768
  {
    forall buf: seq<Word> :: |buf| == n ==> Terminates(x.(buf := buf), tile)
  }

  /** Termination, exactly: the loop ends on every buffer of n words if and only if the announced
      number of words is at most n. */
  lemma TerminationExactly(x: Context, n: nat, tile: seq<int>)
    requires Coding(x.coders) && Quants(x.quant) && n >= 3 && |tile| == 768
    ensures AllEnd(x, n, tile) <==> x.words <= n
  {
    hide Coding, RunBlocks;
    if x.words <= n {
      forall buf: seq<Word> | |buf| == n ensures Terminates(x.(buf := buf), tile) {
        EnoughFuel(x.(buf := buf), Start(tile), 8 * x.words);
      }
    } else {
      var buf: seq<Word> := seq(n, _ => Zeros(32));
      var y := x.(buf := buf);
      assert Set(y);
      forall fuel: nat ensures RunBlocks(y, Start(tile), fuel).outcome == OutOfFuel {
        ZeroDataRunsOn(y, Start(tile), fuel);
      }
      assert !Terminates(y, tile);
    }
  }

  /* In 4:4:4 the tiles are a function of header and data alone. */

  /** Cursors that differ at most in the contents of the tile buffer. */
  ghost predicate Alike(c: Cursor, d: Cursor) { Fit(c) && Fit(d) && d == c.(tile := d.tile) }

  ghost predicate SameTile(c: Cursor, d: Cursor, n: nat) {
    Alike(c, d) && n <= 768 && c.tile[..n] == d.tile[..n]
  }

  lemma PlaneAlike(x: Context, c: Cursor, d: Cursor, plane: Plane, offset: nat, q: nat)
    requires Set(x) && SameTile(c, d, offset) && offset + 64 <= 768 && q < 4
    ensures SameTile(DecodePlane(x, c, plane, offset, q), DecodePlane(x, d, plane, offset, q), offset + 64)
  {
    hide Samples, UnitOf, Set;
  }

  lemma ThreeAlike(x: Context, c: Cursor, d: Cursor, q: nat)
    requires Set(x) && Alike(c, d) && q < 3
    ensures SameTile(DecodeThree(x, c, q), DecodeThree(x, d, q), 192)
  {
    hide DecodePlane, Set;
    PlaneAlike(x, c, d, PlaneY, 0, q);
    var c1, d1 := DecodePlane(x, c, PlaneY, 0, q), DecodePlane(x, d, PlaneY, 0, q);
    PlaneAlike(x, c1, d1, PlaneCb, 64, q + 1);
    var c2, d2 := DecodePlane(x, c1, PlaneCb, 64, q + 1), DecodePlane(x, d1, PlaneCb, 64, q + 1);
    PlaneAlike(x, c2, d2, PlaneCr, 128, q + 1);
  }

  lemma {:induction false} VqHeaderAlike(x: Context, c: Cursor, d: Cursor, i: nat, n: nat)
    requires Set(x) && Alike(c, d) && i <= n <= 4
    ensures Alike(VqHeader(x, c, i, n), VqHeader(x, d, i, n))
    decreases n - i
  {
    hide Coding, VqOne;
    if i < n {
      VqOneAlike(x, c, d, i);
      VqHeaderAlike(x, VqOne(x, c, i), VqOne(x, d, i), i + 1, n);
    }
  }

  lemma VqOneAlike(x: Context, c: Cursor, d: Cursor, i: nat)
    requires Set(x) && Alike(c, d) && i < 4
    ensures Alike(VqOne(x, c, i), VqOne(x, d, i))
  {
    hide Coding, Window, Val, TwoBits;
  }

  lemma VqTileAlike(x: Context, c: Cursor, d: Cursor, bits: nat)
    requires Set(x) && Alike(c, d) && bits <= 2
    ensures SameTile(VqTile(x, c, bits), VqTile(x, d, bits), 192)
  {
    hide Set, Selected;
    assert forall n :: Selected(x, c, bits, n) == Selected(x, d, bits, n) by { SelectedAlike(x, c, d, bits); }
  }

  lemma SelectedAlike(x: Context, c: Cursor, d: Cursor, bits: nat)
    requires Set(x) && Alike(c, d) && bits <= 2
    ensures forall n: nat :: Selected(x, c, bits, n) == Selected(x, d, bits, n)
  {
    hide Set, Window, Val;
  }

  lemma BodyAlike(x: Context, c: Cursor, d: Cursor, t: nat)
    requires Set(x) && x.frame.mode != 1 && Alike(c, d) && t < 8 && t != 1 && t != 3
    ensures SameTile(Body(x, c, t), Body(x, d, t), 192)
  {
    hide Coding, DecodeThree, VqHeader, VqTile;
    if t == 0 { ThreeAlike(x, c, d, 0); }
    if t == 2 || t == 4 { ThreeAlike(x, c, d, 2); }
    if t >= 5 {
      var n, bits := (if t == 5 then 1 else if t == 6 then 2 else 4), t - 5;
      VqHeaderAlike(x, c, d, 0, n);
      VqTileAlike(x, VqHeader(x, c, 0, n), VqHeader(x, d, 0, n), bits);
    }
  }

  lemma StepAlike(x: Context, c: Cursor, d: Cursor)
    requires Set(x) && x.frame.mode == 0 && Alike(c, d)
    ensures var r, s := StepBlock(x, c), StepBlock(x, d);
            && (r.Done? ==> s == r)
            && (r.Next? ==> s.Next? && r.event == s.event && Alike(r.cursor, s.cursor))
  {
    hide Coding, Body, At, Window, Val, BlockType;
    var t := BlockType(x.buf, c.pos);
    if t != 1 && t != 3 && t != 9 && t != 11 {
      BodyAlike(x, Positioned(x, c), Positioned(x, d), t % 8);
    }
  }

  /** The decoded tiles do not depend on what the tile buffer held before the frame. */
  lemma {:induction false} TilesFromDataAlone(x: Context, c: Cursor, d: Cursor, fuel: nat)
    requires Set(x) && x.frame.mode == 0 && Alike(c, d)
    ensures var r, s := RunBlocks(x, c, fuel), RunBlocks(x, d, fuel); r.events == s.events && r.outcome == s.outcome
    decreases fuel
  {
    hide Coding, StepBlock;
    StepAlike(x, c, d);
    var r := StepBlock(x, c);
    if r.Next? && fuel > 0 { TilesFromDataAlone(x, r.cursor, StepBlock(x, d).cursor, fuel - 1); }
  }

  /* Samples are bytes. */

  ghost predicate Bytes(s: seq<int>, n: nat) { n <= |s| && forall i :: 0 <= i < n ==> 0 <= s[i] < 256 }

  lemma PlaneBytes(x: Context, c: Cursor, plane: Plane, offset: nat, q: nat)
    requires Set(x) && Fit(c) && Bytes(c.tile, offset) && offset + 64 <= 768 && q < 4
    ensures Bytes(DecodePlane(x, c, plane, offset, q).tile, offset + 64)
  {
    hide Samples, UnitOf, Coding;
    SamplesInRange(UnitOf(x, plane, c.pos, Predictor(c, plane)).coeff, x.quant[q]);
  }

  lemma ThreeBytes(x: Context, c: Cursor, q: nat)
    requires Set(x) && Fit(c) && q < 3
    ensures Bytes(DecodeThree(x, c, q).tile, 192)
  {
    hide DecodePlane, Coding;
    PlaneBytes(x, c, PlaneY, 0, q);
    var c1 := DecodePlane(x, c, PlaneY, 0, q);
    PlaneBytes(x, c1, PlaneCb, 64, q + 1);
    PlaneBytes(x, DecodePlane(x, c1, PlaneCb, 64, q + 1), PlaneCr, 128, q + 1);
  }

  lemma BodyBytes(x: Context, c: Cursor, t: nat)
    requires Set(x) && x.frame.mode != 1 && Fit(c) && t < 8 && t != 1 && t != 3
    ensures Bytes(Body(x, c, t).tile, 192)
  {
    hide Coding, DecodeThree, VqHeader, VqTile;
    if t == 0 { ThreeBytes(x, c, 0); }
    if t == 2 || t == 4 { ThreeBytes(x, c, 2); }
    if t == 5 { VqBytes(x, VqHeader(x, c, 0, 1), 0); }
    if t == 6 { VqBytes(x, VqHeader(x, c, 0, 2), 1); }
    if t == 7 { VqBytes(x, VqHeader(x, c, 0, 4), 2); }
  }

  lemma VqBytes(x: Context, c: Cursor, bits: nat)
    requires Set(x) && Fit(c) && bits <= 2
    ensures Bytes(VqTile(x, c, bits).tile, 192)
  {
    hide Coding, Selected;
  }

  lemma StepBytes(x: Context, c: Cursor)
    requires Set(x) && x.frame.mode == 0 && Fit(c)
    ensures var r := StepBlock(x, c); r.Next? ==> Bytes(r.event.tile, |r.event.tile|)
  {
    hide Coding, Body, At, Window, Val, BlockType, Positioned;
    var t := BlockType(x.buf, c.pos);
    if t != 1 && t != 3 && t != 9 && t != 11 { BodyBytes(x, Positioned(x, c), t % 8); }
  }

  /** Every sample of every decoded tile is in 0 .. 255. */
  lemma {:induction false} DecodedTilesAreBytes(x: Context, c: Cursor, fuel: nat)
    requires Set(x) && x.frame.mode == 0 && Fit(c)
    ensures Eights(RunBlocks(x, c, fuel).events)
    decreases fuel
  {
    hide Coding, StepBlock;
    StepBytes(x, c);
    var r := StepBlock(x, c);
    if r.Next? && fuel > 0 { DecodedTilesAreBytes(x, r.cursor, fuel - 1); }
  }
}
