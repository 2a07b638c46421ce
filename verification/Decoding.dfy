/** Decode as a function of the persistent state, the header and the data, and its laws over repeated frames. */
module Decoding {
  import opened Bits
  import opened BitReading
  import opened Colour
  import opened Drawing
  import opened History
  import opened Undo
  import opened Frames
  import opened FrameLaws

  /** What survives from one frame to the next. */
  datatype State = State(width: nat, height: nat, canvas: Canvas, tile: seq<int>)

  datatype Result = Ok | InvalidResolution | TooShort | AdvanceBlock(code: nat) | Unfinished

  ghost predicate Consistent(s: State) {
    |s.canvas.fb| == 4 * (s.width * s.height) && |s.canvas.prev| == 3 * (s.width * s.height) && |s.tile| == 768
  }

  ghost predicate Legal(h: Header, k: Coders) { Coding(k) && Quants(h.quant) }

  function Blank(w: nat, h: nat): Canvas { Canvas(seq(4 * (w * h), _ => 0), seq(3 * (w * h), _ => 0)) }

  /** A new size starts from a black picture and zero references. */
  function Prepared(s: State, h: Header): (p: State)
    requires Consistent(s)
    ensures Consistent(p) && p.width == h.dstX && p.height == h.dstY
  {
    if s.width != h.dstX || s.height != h.dstY then State(h.dstX, h.dstY, Blank(h.dstX, h.dstY), s.tile) else s
  }

  function Finish(f: Frame, s: State, r: Ran): (t: State)
    requires AllProper(f, r.events) && |r.cursor.tile| == 768 && Consistent(s)
    ensures Consistent(t)
  {
    var painted := PaintAll(f, s.canvas, r.events);
    var fb := if r.outcome.Advance? then Rolled(f, s.canvas, r.events) else painted.fb;
    State(s.width, s.height, Canvas(fb, painted.prev), r.cursor.tile)
  }

  function ResultOf(o: Outcome): Result {
    match o case Advance(code) => AdvanceBlock(code) case OutOfFuel => Unfinished case _ => Ok
  }

  /** One frame, for at most fuel blocks. */
  function Decode(s: State, h: Header, k: Coders, data: seq<Byte>, fuel: nat): (r: (State, Result))
    requires Consistent(s) && Legal(h, k)
    ensures Consistent(r.0)
  {
    hide Prepared, Finish, RunBlocks, Coding, FrameOf, GridTiles, Words;
    if h.dstX <= 0 || h.dstY <= 0 then (s, InvalidResolution)
    else
      var p := Prepared(s, h);
      if |Words(data)| < 3 then (p, TooShort)
      else
        var x := ContextOf(h, k, data);
        var run := RunBlocks(x, Start(p.tile), fuel);
        (Finish(x.frame, p, run), ResultOf(run.outcome))
  }

  /** When the header announces no more words than the data holds, decoding always finishes, and the bound on
      the number of blocks does not matter. Any mode, any size. */
  lemma DecodeFinishes(s: State, h: Header, k: Coders, data: seq<Byte>, fuel: nat, more: nat)
    requires Consistent(s) && Legal(h, k) && h.compressSize / 4 <= |Words(data)| &&
             8 * (h.compressSize / 4) <= fuel <= more
    ensures Decode(s, h, k, data, more) == Decode(s, h, k, data, fuel) && Decode(s, h, k, data, fuel).1 != Unfinished
  {
    hide RunBlocks, Coding, Words, Finish, FrameOf, GridTiles;
    if h.dstX > 0 && h.dstY > 0 && |Words(data)| >= 3 {
      var x, c := ContextOf(h, k, data), Start(Prepared(s, h).tile);
      EnoughFuel(x, c, fuel);
      FuelIrrelevant(x, c, fuel, more);
    }
  }

  /** When a frame is refused: without a size, or with at most eight bytes of data. */
  lemma RefusedExactly(s: State, h: Header, k: Coders, data: seq<Byte>, fuel: nat)
    requires Consistent(s) && Legal(h, k)
    ensures Decode(s, h, k, data, fuel).1 == InvalidResolution <==> h.dstX == 0 || h.dstY == 0
    ensures Decode(s, h, k, data, fuel).1 == TooShort <==> h.dstX > 0 && h.dstY > 0 && |data| <= 8
  {
    hide RunBlocks, Coding, Finish, FrameOf, GridTiles;
  }

  /** A frame that is refused before its blocks are read changes the state exactly when its data is too short and
      its size is new: then the old picture is already gone. */
  lemma RefusedChangesExactly(s: State, h: Header, k: Coders, data: seq<Byte>, fuel: nat)
    requires Consistent(s) && Legal(h, k) && Decode(s, h, k, data, fuel).1 in {InvalidResolution, TooShort}
    ensures Decode(s, h, k, data, fuel).0 == s <==>
            Decode(s, h, k, data, fuel).1 == InvalidResolution || (s.width == h.dstX && s.height == h.dstY)
  {
    hide RunBlocks, Coding, Words, Finish, FrameOf, GridTiles;
  }

  /* 4:4:4 frames of one size. */

  /** The frames the laws are about: a non-empty picture in 4:4:4 whose source has the same size. */
  ghost predicate Direct(h: Header, k: Coders, data: seq<Byte>) {
    && Legal(h, k) && h.dstX > 0 && h.dstY > 0 && h.mode == 0 && |Words(data)| >= 3
    && (h.srcX == 0 || h.srcX == h.dstX) && (h.srcY == 0 || h.srcY == h.dstY)
  }

  function FreshTile(): (t: seq<int>) ensures |t| == 768 { seq(768, _ => 0) }

  /** The tiles of a frame, read off header and data. */
  function Tiles(h: Header, k: Coders, data: seq<Byte>, fuel: nat): (r: Ran)
    requires Direct(h, k, data)
    ensures AllProper(FrameOf(h), r.events)
  {
    RunBlocks(ContextOf(h, k, data), Start(FreshTile()), fuel)
  }

  lemma DirectFrame(h: Header, k: Coders, data: seq<Byte>)
    requires Direct(h, k, data)
    ensures Plain(FrameOf(h)) && FrameOf(h).width == h.dstX && FrameOf(h).height == h.dstY
  {
  }

  /** Decoding such a frame draws those tiles on the prepared canvas, whatever was decoded before. */
  lemma DecodeDrawsTiles(s: State, h: Header, k: Coders, data: seq<Byte>, fuel: nat)
    requires Consistent(s) && Direct(h, k, data)
    ensures var (r, result) := Decode(s, h, k, data, fuel);
            var run := Tiles(h, k, data, fuel);
            var c := Prepared(s, h).canvas;
            && result == ResultOf(run.outcome) && r.width == h.dstX && r.height == h.dstY
            && r.canvas.prev == PaintAll(FrameOf(h), c, run.events).prev
            && r.canvas.fb == if run.outcome.Advance? then Rolled(FrameOf(h), c, run.events)
                              else PaintAll(FrameOf(h), c, run.events).fb
  {
    hide Coding, RunBlocks, PaintAll, Rolled, Words;
    var x := ContextOf(h, k, data);
    TilesFromDataAlone(x, Start(Prepared(s, h).tile), Start(FreshTile()), fuel);
  }

  ghost predicate Proper8(s: State) {
    Consistent(s) && forall i :: 0 <= i < |s.canvas.prev| ==> 0 <= s.canvas.prev[i] < 256
  }

  /** Decoding the frame a second time changes nothing. */
  ghost predicate Steady(s: State, h: Header, k: Coders, data: seq<Byte>, fuel: nat)
    requires Consistent(s) && Direct(h, k, data)
  {
    var once := Decode(s, h, k, data, fuel).0;
    Decode(once, h, k, data, fuel).0.canvas == once.canvas
  }

  lemma SteadyIsRepeat(s: State, h: Header, k: Coders, data: seq<Byte>, fuel: nat)
    requires Consistent(s) && Direct(h, k, data) && !Tiles(h, k, data, fuel).outcome.Advance?
    ensures Steady(s, h, k, data, fuel) <==> Repeats(FrameOf(h), Prepared(s, h).canvas, Tiles(h, k, data, fuel).events)
  {
    hide Decode, PaintAll, Tiles, FrameOf;
    var once := Decode(s, h, k, data, fuel).0;
    DecodeDrawsTiles(s, h, k, data, fuel);
    DecodeDrawsTiles(once, h, k, data, fuel);
    assert Prepared(once, h) == once;
  }

  lemma PreparedProper(s: State, h: Header)
    requires Proper8(s)
    ensures var c := Prepared(s, h).canvas;
            && |c.fb| == 4 * (h.dstX * h.dstY) && |c.prev| == 3 * (h.dstX * h.dstY)
            && forall i :: 0 <= i < |c.prev| ==> 0 <= c.prev[i] < 256
  {
  }

  /** No drift, exactly: decoding the same complete frame twice leaves picture and references as after
      the first time, from every earlier state, if and only if its tiles are drift-free. */
  lemma DecodeTwiceExactly(h: Header, k: Coders, data: seq<Byte>, fuel: nat)
    requires Direct(h, k, data) && !Tiles(h, k, data, fuel).outcome.Advance?
    ensures (forall s :: Proper8(s) ==> Steady(s, h, k, data, fuel)) <==>
            DriftFree(FrameOf(h), Tiles(h, k, data, fuel).events)
  {
    var f, es := FrameOf(h), Tiles(h, k, data, fuel).events;
    TilesFacts(h, k, data, fuel);
    hide Legal, Decode, PaintAll, Tiles, FrameOf, Steady, Repeats, DriftFree, Eights, Proper8, ProperCanvas;
    NoDriftExactly(f, es);
    if DriftFree(f, es) {
      forall s | Proper8(s) ensures Steady(s, h, k, data, fuel) { SteadyFromRepeat(s, h, k, data, fuel); }
    } else if forall s :: Proper8(s) ==> Steady(s, h, k, data, fuel) {
      forall c | ProperCanvas(f, c) ensures Repeats(f, c, es) { RepeatFromSteady(c, h, k, data, fuel); }
    }
  }

  /** In particular no frame without second-pass tiles drifts, and none that visits each tile at most once. */
  lemma DecodeTwice(s: State, h: Header, k: Coders, data: seq<Byte>, fuel: nat)
    requires Consistent(s) && Direct(h, k, data)
    requires var run := Tiles(h, k, data, fuel);
             !run.outcome.Advance? && (FirstPassOnly(run.events) || Once(run.events))
    ensures Steady(s, h, k, data, fuel)
  {
    var f, es := FrameOf(h), Tiles(h, k, data, fuel).events;
    DirectFrame(h, k, data);
    hide Legal, Decode, PaintAll, Tiles, Steady, Repeats, DriftFree;
    DriftFreeFrames(f, es);
    assert Sized(f, Prepared(s, h).canvas);
    SafeRepeats(f, Prepared(s, h).canvas, es);
    SteadyIsRepeat(s, h, k, data, fuel);
  }

  lemma TilesFacts(h: Header, k: Coders, data: seq<Byte>, fuel: nat)
    requires Direct(h, k, data)
    ensures Plain(FrameOf(h)) && Eights(Tiles(h, k, data, fuel).events)
  {
    DirectFrame(h, k, data);
    DecodedTilesAreBytes(ContextOf(h, k, data), Start(FreshTile()), fuel);
  }

  lemma SteadyFromRepeat(s: State, h: Header, k: Coders, data: seq<Byte>, fuel: nat)
    requires Direct(h, k, data) && !Tiles(h, k, data, fuel).outcome.Advance? && Proper8(s)
    requires forall c :: ProperCanvas(FrameOf(h), c) ==> Repeats(FrameOf(h), c, Tiles(h, k, data, fuel).events)
    ensures Steady(s, h, k, data, fuel)
  {
    hide Legal, Decode, PaintAll, Tiles, Steady, Repeats;
    PreparedProper(s, h);
    SteadyIsRepeat(s, h, k, data, fuel);
    assert ProperCanvas(FrameOf(h), Prepared(s, h).canvas);
  }

  lemma RepeatFromSteady(c: Canvas, h: Header, k: Coders, data: seq<Byte>, fuel: nat)
    requires Direct(h, k, data) && !Tiles(h, k, data, fuel).outcome.Advance? && ProperCanvas(FrameOf(h), c)
    requires forall s :: Proper8(s) ==> Steady(s, h, k, data, fuel)
    ensures Repeats(FrameOf(h), c, Tiles(h, k, data, fuel).events)
  {
    hide Legal, Decode, PaintAll, Tiles, Steady, Repeats;
    var s := State(h.dstX, h.dstY, c, FreshTile());
    assert Proper8(s);
    SteadyIsRepeat(s, h, k, data, fuel);
  }

  /** A state whose picture has the size of the frame. */
  ghost predicate Matching(s: State, h: Header) { Consistent(s) && s.width == h.dstX && s.height == h.dstY }

  /** An aborted frame leaves the picture as it was, from every earlier state of that size, if and only
      if its tiles can be rolled back. */
  lemma AbortRestoresExactly(h: Header, k: Coders, data: seq<Byte>, fuel: nat)
    requires Direct(h, k, data) && Tiles(h, k, data, fuel).outcome.Advance?
    ensures (forall s :: Matching(s, h) ==> Decode(s, h, k, data, fuel).0.canvas.fb == s.canvas.fb) <==>
            RollbackSafe(FrameOf(h), Tiles(h, k, data, fuel).events)
  {
    var f, es := FrameOf(h), Tiles(h, k, data, fuel).events;
    DirectFrame(h, k, data);
    RollbackExactly(f, es);
    hide Coding, Decode, PaintAll, Tiles, FrameOf, RollbackSafe, Rolled;
    forall s | Matching(s, h) ensures Decode(s, h, k, data, fuel).0.canvas.fb == Rolled(f, s.canvas, es) {
      DecodeDrawsTiles(s, h, k, data, fuel);
    }
    forall c | Sized(f, c) ensures Matching(State(h.dstX, h.dstY, c, FreshTile()), h) {
    }
    if forall s :: Matching(s, h) ==> Decode(s, h, k, data, fuel).0.canvas.fb == s.canvas.fb {
      forall c | Sized(f, c) ensures Rolled(f, c, es) == c.fb {
        var s := State(h.dstX, h.dstY, c, FreshTile());
        assert Decode(s, h, k, data, fuel).0.canvas.fb == s.canvas.fb;
      }
    }
  }

  /** In particular when the width is a multiple of 8 and each visited tile is in the picture and visited once. */
  lemma AbortRestores(s: State, h: Header, k: Coders, data: seq<Byte>, fuel: nat)
    requires Direct(h, k, data) && Matching(s, h)
    requires var run := Tiles(h, k, data, fuel);
             run.outcome.Advance? && InGrid(FrameOf(h), run.events) && Once(run.events)
    ensures Decode(s, h, k, data, fuel).0.canvas.fb == s.canvas.fb
  {
    var f, es := FrameOf(h), Tiles(h, k, data, fuel).events;
    DirectFrame(h, k, data);
    hide Legal, Decode, PaintAll, Tiles, RollbackSafe;
    OnceRollsBack(f, es);
    AbortRestoresExactly(h, k, data, fuel);
  }

  /* Several frames. */

  datatype Sent = Sent(header: Header, data: seq<Byte>)

  ghost predicate AllLegal(k: Coders, frames: seq<Sent>) {
    forall i :: 0 <= i < |frames| ==> Legal(frames[i].header, k)
  }

  function DecodeAll(s: State, k: Coders, frames: seq<Sent>, fuel: nat): (r: State)
    requires Consistent(s) && AllLegal(k, frames)
    ensures Consistent(r)
  {
    if frames == [] then s
    else
      var n := |frames| - 1;
      Decode(DecodeAll(s, k, frames[..n], fuel), frames[n].header, k, frames[n].data, fuel).0
  }

  /** Complete 4:4:4 frames of one size. */
  ghost predicate Movie(f: Frame, k: Coders, frames: seq<Sent>, fuel: nat) {
    forall i :: 0 <= i < |frames| ==> Shot(f, k, frames[i], fuel)
  }

  ghost predicate Shot(f: Frame, k: Coders, sent: Sent, fuel: nat) {
    var h := sent.header;
    Direct(h, k, sent.data) && FrameOf(h) == f && !Tiles(h, k, sent.data, fuel).outcome.Advance?
  }

  /** The tiles of all frames, in order. */
  ghost function MovieTiles(f: Frame, k: Coders, frames: seq<Sent>, fuel: nat): (es: seq<Event>)
    requires Movie(f, k, frames, fuel)
    ensures AllProper(f, es)
  {
    if frames == [] then []
    else
      var n := |frames| - 1;
      assert Shot(f, k, frames[n], fuel);
      MovieTiles(f, k, frames[..n], fuel) + Tiles(frames[n].header, k, frames[n].data, fuel).events
  }

  lemma MovieLegal(f: Frame, k: Coders, frames: seq<Sent>, fuel: nat)
    requires Movie(f, k, frames, fuel)
    ensures AllLegal(k, frames)
  {
    hide Legal, Tiles;
    forall i | 0 <= i < |frames| ensures Legal(frames[i].header, k) { assert Shot(f, k, frames[i], fuel); }
  }

  /** Decoding one frame after the other draws all their tiles on the picture they start from. */
  lemma {:induction false} MovieDrawsTiles(s: State, f: Frame, k: Coders, frames: seq<Sent>, fuel: nat)
    requires Consistent(s) && s.width == f.width && s.height == f.height && Movie(f, k, frames, fuel)
    ensures AllLegal(k, frames)
    ensures var r := DecodeAll(s, k, frames, fuel);
            && r.canvas == PaintAll(f, s.canvas, MovieTiles(f, k, frames, fuel))
            && r.width == f.width && r.height == f.height
  {
    hide Legal, Tiles, Decode, PaintAll, FrameOf;
    MovieLegal(f, k, frames, fuel);
    if frames == [] {
      PaintNothing(f, s.canvas);
    } else {
      var n := |frames| - 1;
      var sent := frames[n];
      MovieDrawsTiles(s, f, k, frames[..n], fuel);
      assert Shot(f, k, sent, fuel);
      DirectFrame(sent.header, k, sent.data);
      DecodeDrawsTiles(DecodeAll(s, k, frames[..n], fuel), sent.header, k, sent.data, fuel);
      PaintConcat(f, s.canvas, MovieTiles(f, k, frames[..n], fuel), Tiles(sent.header, k, sent.data, fuel).events);
    }
  }

  lemma PaintNothing(f: Frame, c: Canvas)
    ensures PaintAll(f, c, []) == c
  {
  }

  /** Pixel history over any number of frames: a pixel has the colour of the last non-neutral tile of any of them
      that covers it, and its old colour if there is none; nothing else leaves a trace. */
  lemma MovieHistory(s: State, f: Frame, k: Coders, frames: seq<Sent>, fuel: nat, x: nat, y: nat)
    requires Consistent(s) && s.width == f.width && s.height == f.height && Plain(f) && x < f.width && y < f.height
    requires Movie(f, k, frames, fuel) && FirstPassOnly(MovieTiles(f, k, frames, fuel))
    ensures AllLegal(k, frames)
    ensures var r, es := DecodeAll(s, k, frames, fuel), MovieTiles(f, k, frames, fuel);
            && Sized(f, r.canvas)
            && (forall i: nat :: IsLast(f, es, i, x, y, true) ==>
              CellAt(f, r.canvas, x, y).p == Rgb(SampleAt(es[i], x, y)))
            && (NoneCovers(f, es, x, y, true) ==> CellAt(f, r.canvas, x, y).p == CellAt(f, s.canvas, x, y).p)
  {
    hide Legal, MovieTiles, DecodeAll, PaintAll, CellAt, Rgb, SampleAt, IsLast, NoneCovers;
    MovieDrawsTiles(s, f, k, frames, fuel);
    assert Sized(f, s.canvas);
    PixelHistory(f, s.canvas, MovieTiles(f, k, frames, fuel), x, y);
  }

  /** The state in which frames of a size find the decoder. */
  function Fitted(s: State, f: Frame): (t: State)
    requires Consistent(s)
    ensures Consistent(t) && t.width == f.width && t.height == f.height
  {
    if s.width != f.width || s.height != f.height then State(f.width, f.height, Blank(f.width, f.height), s.tile) else s
  }

  /** The first frame of a new size starts from a black picture. */
  lemma {:induction false} MovieFits(s: State, f: Frame, k: Coders, frames: seq<Sent>, fuel: nat)
    requires Consistent(s) && frames != [] && Movie(f, k, frames, fuel)
    ensures AllLegal(k, frames) && DecodeAll(s, k, frames, fuel) == DecodeAll(Fitted(s, f), k, frames, fuel)
  {
    hide Legal, Tiles, RunBlocks, Finish, Words;
    MovieLegal(f, k, frames, fuel);
    var n := |frames| - 1;
    if n == 0 {
      assert Shot(f, k, frames[0], fuel);
      assert frames[..0] == [];
      DecodeFits(s, f, frames[0].header, k, frames[0].data, fuel);
    } else {
      MovieFits(s, f, k, frames[..n], fuel);
    }
  }

  lemma DecodeFits(s: State, f: Frame, h: Header, k: Coders, data: seq<Byte>, fuel: nat)
    requires Consistent(s) && Legal(h, k) && h.dstX > 0 && h.dstY > 0 && f.width == h.dstX && f.height == h.dstY
    ensures Decode(s, h, k, data, fuel) == Decode(Fitted(s, f), h, k, data, fuel)
  {
    hide Coding, RunBlocks, Finish, Words;
  }
}
