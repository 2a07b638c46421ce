/** The undo log of a frame: blocks saved before drawing, restored when the frame aborts. */
module Undo {
  import opened Bits
  import opened Colour
  import opened Drawing
  import opened History

  /** A saved block: its byte offset in the framebuffer and 8x8 pixels of four bytes. */
  datatype Saved = Saved(offset: nat, pixels: seq<Byte>)

  /** The picture position of pixel n of the 8x8 block at a base position (rows may wrap at the right edge). */
  function SpotOf(w: nat, base: nat, n: nat): nat { base + Place(w, n % 8, n / 8) }

  function Base(w: nat, tx: nat, ty: nat): nat { Place(w, 8 * tx, 8 * ty) }

  function SavedByte(w: nat, fb: seq<Byte>, base: nat, i: nat): Byte {
    var q := SpotOf(w, base, i / 4);
    if 4 * q + 3 < |fb| then fb[4 * q + i % 4] else 0
  }

  function Save(w: nat, fb: seq<Byte>, base: nat): (s: Saved)
    ensures |s.pixels| == 256 && s.offset == 4 * base
    ensures forall i :: 0 <= i < 256 ==> s.pixels[i] == SavedByte(w, fb, base, i)
  {
    Saved(4 * base, seq(256, i requires 0 <= i < 256 => SavedByte(w, fb, base, i)))
  }

  function SavedPixel(s: Saved, n: nat): Pixel
    requires |s.pixels| == 256 && n < 64
  {
    Pixel(s.pixels[4 * n], s.pixels[4 * n + 1], s.pixels[4 * n + 2], s.pixels[4 * n + 3])
  }

  function RestoreOne(w: nat, fb: seq<Byte>, s: Saved, n: nat): (r: seq<Byte>)
    requires |s.pixels| == 256 && n <= 64
    ensures |r| == |fb|
  {
    if n == 0 then fb
    else PutPixel(RestoreOne(w, fb, s, n - 1), SpotOf(w, s.offset / 4, n - 1), SavedPixel(s, n - 1))
  }

  ghost predicate Blocks(log: seq<Saved>) { forall i :: 0 <= i < |log| ==> |log[i].pixels| == 256 }

  /** Restoring goes through the log from its first entry to its last. */
  function RestoreAll(w: nat, fb: seq<Byte>, log: seq<Saved>): (r: seq<Byte>)
    requires Blocks(log)
    ensures |r| == |fb|
  {
    if log == [] then fb else RestoreOne(w, RestoreAll(w, fb, log[..|log| - 1]), log[|log| - 1], 64)
  }

  /** The log of a frame: each tile's block as it was just before that tile was drawn. */
  function Log(f: Frame, c: Canvas, es: seq<Event>): (log: seq<Saved>)
    requires AllProper(f, es)
    ensures |log| == |es| && Blocks(log)
  {
    if es == [] then []
    else
      var es', e := es[..|es| - 1], es[|es| - 1];
      Log(f, c, es') + [Save(f.width, PaintAll(f, c, es').fb, Base(f.width, e.tx, e.ty))]
  }

  /** The picture after an aborted frame. */
  function Rolled(f: Frame, c: Canvas, es: seq<Event>): (fb: seq<Byte>)
    requires AllProper(f, es)
    ensures |fb| == |c.fb|
  {
    RestoreAll(f.width, PaintAll(f, c, es).fb, Log(f, c, es))
  }

  /* Which pixels a log entry covers. */

  ghost predicate Touch(w: nat, base: nat, n: nat, q: nat) {
    n > 0 && (SpotOf(w, base, n - 1) == q || Touch(w, base, n - 1, q))
  }

  ghost predicate Touches(f: Frame, e: Event, q: nat) { Touch(f.width, Base(f.width, e.tx, e.ty), 64, q) }

  /** The block saved for a tile at (tx, ty) holds the pixels 8 tx .. 8 tx + 7 of the rows 8 ty .. 8 ty + 7, counted
      through the picture; in every mode. */
  lemma TouchesExactly(f: Frame, e: Event, q: nat)
    ensures Touches(f, e, q) <==>
            exists row: nat, col: nat :: InBlock(row, col) && q == (8 * e.ty + row) * f.width + (8 * e.tx + col)
  {
    hide Touch;
    var base := Base(f.width, e.tx, e.ty);
    if Touches(f, e, q) {
      var k := TouchExists(f.width, base, 64, q);
      SpotIsLinear(f.width, e.tx, e.ty, 8 * e.tx + k % 8, 8 * e.ty + k / 8, k);
      assert InBlock(k / 8, k % 8);
    }
    if row: nat, col: nat :| InBlock(row, col) && q == (8 * e.ty + row) * f.width + (8 * e.tx + col) {
      var k := 8 * row + col;
      assert k % 8 == col && k / 8 == row;
      SpotIsLinear(f.width, e.tx, e.ty, 8 * e.tx + col, 8 * e.ty + row, k);
      TouchSpot(f.width, base, 64, k);
    }
  }

  predicate InBlock(row: nat, col: nat) { row < 8 && col < 8 }

  lemma {:induction false} TouchSpot(w: nat, base: nat, n: nat, k: nat)
    requires k < n
    ensures Touch(w, base, n, SpotOf(w, base, k))
  {
    if k < n - 1 { TouchSpot(w, base, n - 1, k); }
  }

  lemma {:induction false} RestoreOneAt(w: nat, fb: seq<Byte>, saved: seq<Byte>, base: nat, n: nat, q: nat)
    requires |fb| == |saved| && n <= 64 && 4 * q + 3 < |fb|
    ensures PixelAt(RestoreOne(w, fb, Save(w, saved, base), n), q) ==
            if Touch(w, base, n, q) then PixelAt(saved, q) else PixelAt(fb, q)
  {
    hide SpotOf, PutPixel, PixelAt;
    if n > 0 {
      RestoreOneAt(w, fb, saved, base, n - 1, q);
      var s := Save(w, saved, base);
      var k := SpotOf(w, base, n - 1);
      assert s.offset / 4 == base;
      var before := RestoreOne(w, fb, s, n - 1);
      if 4 * k + 3 < |fb| {
        PutPixelAt(before, k, SavedPixel(s, n - 1), q);
        SavedIsOriginal(w, saved, base, n - 1);
      } else {
        PutOutside(before, k, SavedPixel(s, n - 1));
      }
    }
  }

  lemma PutOutside(fb: seq<Byte>, k: nat, p: Pixel)
    requires 4 * k + 3 >= |fb|
    ensures PutPixel(fb, k, p) == fb
  {
  }

  lemma SavedIsOriginal(w: nat, fb: seq<Byte>, base: nat, n: nat)
    requires n < 64 && 4 * SpotOf(w, base, n) + 3 < |fb|
    ensures SavedPixel(Save(w, fb, base), n) == PixelAt(fb, SpotOf(w, base, n))
  {
    hide SpotOf;
    assert (4 * n) / 4 == n && (4 * n + 1) / 4 == n && (4 * n + 2) / 4 == n && (4 * n + 3) / 4 == n;
  }

  /** Tile i is the last whose saved block holds pixel q. */
  ghost predicate LastTouch(f: Frame, es: seq<Event>, i: nat, q: nat) {
    i < |es| && Touches(f, es[i], q) && forall j :: i < j < |es| ==> !Touches(f, es[j], q)
  }

  /** After restoring, each pixel holds what the last log entry that covers it saved: its value just
      before that tile was drawn. Pixels outside all entries keep their value. Any mode, any width. */
  lemma {:induction false} RestoredValue(f: Frame, c: Canvas, es: seq<Event>, fb: seq<Byte>, q: nat)
    requires AllProper(f, es) && |fb| == |c.fb| && 4 * q + 3 < |fb|
    ensures var r := PixelAt(RestoreAll(f.width, fb, Log(f, c, es)), q);
            && (forall i: nat :: LastTouch(f, es, i, q) ==> r == PixelAt(PaintAll(f, c, es[..i]).fb, q))
            && ((forall j :: 0 <= j < |es| ==> !Touches(f, es[j], q)) ==> r == PixelAt(fb, q))
  {
    hide Touches, PixelAt, PaintAll, Save, RestoreOne;
    if es != [] {
      var es', e := es[..|es| - 1], es[|es| - 1];
      RestoredValue(f, c, es', fb, q);
      var log := Log(f, c, es);
      assert log[..|log| - 1] == Log(f, c, es');
      RestoreEntry(f, c, es', e, RestoreAll(f.width, fb, Log(f, c, es')), q);
      var r := PixelAt(RestoreAll(f.width, fb, log), q);
      forall i: nat | LastTouch(f, es, i, q) ensures r == PixelAt(PaintAll(f, c, es[..i]).fb, q) {
        assert es[..i] == es'[..i];
        if i < |es'| {
          assert LastTouch(f, es', i, q);
        } else {
          assert es[..i] == es';
        }
      }
    }
  }

  lemma RestoreEntry(f: Frame, c: Canvas, es: seq<Event>, e: Event, fb: seq<Byte>, q: nat)
    requires AllProper(f, es) && |fb| == |c.fb| && 4 * q + 3 < |fb|
    ensures var s := Save(f.width, PaintAll(f, c, es).fb, Base(f.width, e.tx, e.ty));
            PixelAt(RestoreOne(f.width, fb, s, 64), q) ==
            if Touches(f, e, q) then PixelAt(PaintAll(f, c, es).fb, q) else PixelAt(fb, q)
  {
    hide Touch, PixelAt, PaintAll, Save, RestoreOne, Base;
    RestoreOneAt(f.width, fb, PaintAll(f, c, es).fb, Base(f.width, e.tx, e.ty), 64, q);
  }

  /* When that undoes the whole frame. */

  predicate Writes(f: Frame, e: Event, x: nat, y: nat)
    requires Proper(f, e)
  {
    Covers(e, x, y) && !Neutral(f, e)
  }

  /** What a tile draws is in the block that was saved for it. */
  lemma CoverIsTouch(f: Frame, e: Event, x: nat, y: nat)
    requires Covers(e, x, y) && x < f.width && y < f.height
    ensures Touches(f, e, Linear(f, x, y))
  {
    hide Touch;
    var n := Spot(e, x, y);
    SpotIsLinear(f.width, e.tx, e.ty, x, y, n);
    TouchSpot(f.width, Base(f.width, e.tx, e.ty), 64, n);
  }

  lemma SpotIsLinear(w: nat, tx: nat, ty: nat, x: nat, y: nat, n: nat)
    requires x == 8 * tx + n % 8 && y == 8 * ty + n / 8
    ensures SpotOf(w, Base(w, tx, ty), n) == y * w + x
  {
    assert (8 * ty + n / 8) * w == 8 * ty * w + n / 8 * w;
  }

  ghost predicate Written(f: Frame, es: seq<Event>, x: nat, y: nat)
    requires AllProper(f, es)
  {
    exists i :: 0 <= i < |es| && Writes(f, es[i], x, y)
  }

  lemma {:induction false} UnwrittenKeeps(f: Frame, es: seq<Event>, x: nat, y: nat, cell: Cell)
    requires f.mode == 0 && AllProper(f, es) && !Written(f, es, x, y)
    ensures RunCell(f, es, x, y, cell).p == cell.p
  {
    hide Neutral, Rgb;
    if es != [] {
      assert !Writes(f, es[|es| - 1], x, y);
      assert forall i :: 0 <= i < |es| - 1 ==> es[..|es| - 1][i] == es[i];
      UnwrittenKeeps(f, es[..|es| - 1], x, y, cell);
    }
  }

  lemma {:induction false} WrittenIsOpaque(f: Frame, es: seq<Event>, x: nat, y: nat, cell: Cell)
    requires f.mode == 0 && AllProper(f, es) && Written(f, es, x, y)
    ensures RunCell(f, es, x, y, cell).p.a == 255
  {
    hide Neutral;
    var es', e := es[..|es| - 1], es[|es| - 1];
    if !Writes(f, e, x, y) {
      var i :| 0 <= i < |es| && Writes(f, es[i], x, y);
      assert Writes(f, es'[i], x, y);
      WrittenIsOpaque(f, es', x, y, cell);
    }
  }

  /** Rolling back is safe at a pixel if nothing wrote it before the last block that holds it was saved. */
  ghost predicate SafeAt(f: Frame, es: seq<Event>, x: nat, y: nat)
    requires AllProper(f, es) && x < f.width && y < f.height
  {
    forall j: nat :: LastTouch(f, es, j, Linear(f, x, y)) ==> !Written(f, es[..j], x, y)
  }

  ghost predicate RollbackSafe(f: Frame, es: seq<Event>)
    requires AllProper(f, es)
  {
    forall x, y :: 0 <= x < f.width && 0 <= y < f.height ==> SafeAt(f, es, x, y)
  }

  lemma {:induction false} FindLastTouch(f: Frame, es: seq<Event>, q: nat) returns (found: bool, i: nat)
    ensures found ==> LastTouch(f, es, i, q)
    ensures !found ==> forall j :: 0 <= j < |es| ==> !Touches(f, es[j], q)
  {
    hide Touches;
    if es == [] {
      found, i := false, 0;
    } else if Touches(f, es[|es| - 1], q) {
      found, i := true, |es| - 1;
    } else {
      found, i := FindLastTouch(f, es[..|es| - 1], q);
      if found { assert Touches(f, es[i], q); }
    }
  }

  /** The value of one pixel after the roll back, in terms of the tiles. */
  lemma RolledPixel(f: Frame, c: Canvas, es: seq<Event>, x: nat, y: nat)
    requires Plain(f) && Sized(f, c) && AllProper(f, es) && x < f.width && y < f.height
    ensures var r := PixelAt(Rolled(f, c, es), Linear(f, x, y));
            (forall i: nat :: LastTouch(f, es, i, Linear(f, x, y)) ==>
              r == RunCell(f, es[..i], x, y, CellAt(f, c, x, y)).p)
            && ((forall j :: 0 <= j < |es| ==> !Touches(f, es[j], Linear(f, x, y))) ==> r == CellAt(f, c, x, y).p)
  {
    hide Touches, PixelAt, PaintAll, Log, RestoreAll, RunCell, Linear;
    var q := Linear(f, x, y);
    RestoredValue(f, c, es, PaintAll(f, c, es).fb, q);
    forall i: nat | LastTouch(f, es, i, q)
      ensures PixelAt(PaintAll(f, c, es[..i]).fb, q) == RunCell(f, es[..i], x, y, CellAt(f, c, x, y)).p
    {
      PaintAllAt(f, c, es[..i], x, y);
    }
    if forall j :: 0 <= j < |es| ==> !Touches(f, es[j], q) {
      assert !Written(f, es, x, y) by {
        forall j | 0 <= j < |es| ensures !Writes(f, es[j], x, y) {
          if Covers(es[j], x, y) { CoverIsTouch(f, es[j], x, y); }
        }
      }
      PaintAllAt(f, c, es, x, y);
      UnwrittenKeeps(f, es, x, y, CellAt(f, c, x, y));
    }
  }

  /** An aborted frame leaves every earlier picture untouched, byte for byte, if and only if no pixel
      was already written when the last block that holds it was saved. */
  lemma RollbackExactly(f: Frame, es: seq<Event>)
    requires Plain(f) && AllProper(f, es)
    ensures (forall c :: Sized(f, c) ==> Rolled(f, c, es) == c.fb) <==> RollbackSafe(f, es)
  {
    hide SafeAt, Rolled;
    if RollbackSafe(f, es) {
      forall c | Sized(f, c) ensures Rolled(f, c, es) == c.fb { SafeRollback(f, c, es); }
    } else {
      var x, y :| 0 <= x < f.width && 0 <= y < f.height && !SafeAt(f, es, x, y);
      UnsafeRollback(f, es, x, y);
    }
  }

  lemma SafeRollback(f: Frame, c: Canvas, es: seq<Event>)
    requires Plain(f) && Sized(f, c) && AllProper(f, es) && RollbackSafe(f, es)
    ensures Rolled(f, c, es) == c.fb
  {
    hide Rolled, Linear, RunCell, Touches, Written;
    var r := Rolled(f, c, es);
    forall x: nat, y: nat | x < f.width && y < f.height
      ensures PixelAt(r, Linear(f, x, y)) == PixelAt(c.fb, Linear(f, x, y))
    {
      RolledPixel(f, c, es, x, y);
      var found, i := FindLastTouch(f, es, Linear(f, x, y));
      if found {
        assert SafeAt(f, es, x, y);
        UnwrittenKeeps(f, es[..i], x, y, CellAt(f, c, x, y));
      }
    }
    PixelsDetermine(f, r, c.fb);
  }

  lemma PixelsDetermine(f: Frame, a: seq<Byte>, b: seq<Byte>)
    requires |a| == |b| == 4 * Area(f)
    requires forall x: nat, y: nat :: x < f.width && y < f.height ==>
             PixelAt(a, Linear(f, x, y)) == PixelAt(b, Linear(f, x, y))
    ensures a == b
  {
    hide Linear;
    forall i | 0 <= i < |a| ensures a[i] == b[i] {
      CoordinatesOf(f, i / 4);
      assert PixelAt(a, Linear(f, i / 4 % f.width, i / 4 / f.width)) ==
        PixelAt(b, Linear(f, i / 4 % f.width, i / 4 / f.width));
    }
  }

  lemma UnsafeRollback(f: Frame, es: seq<Event>, x: nat, y: nat)
    requires Plain(f) && AllProper(f, es) && x < f.width && y < f.height && !SafeAt(f, es, x, y)
    ensures exists c :: Sized(f, c) && Rolled(f, c, es) != c.fb
  {
    hide Rolled, Linear, RunCell, Touches, Written, Uniform, PixelAt;
    var clear := Pixel(0, 0, 0, 0);
    var c := Uniform(f, clear, NEUTRAL);
    UniformAt(f, clear, NEUTRAL, x, y);
    var q := Linear(f, x, y);
    var j: nat :| LastTouch(f, es, j, q) && Written(f, es[..j], x, y);
    RolledPixel(f, c, es, x, y);
    WrittenIsOpaque(f, es[..j], x, y, CellAt(f, c, x, y));
    assert PixelAt(Rolled(f, c, es), q) != PixelAt(c.fb, q);
  }

  /** Tiles inside a picture whose width is a multiple of eight. */
  ghost predicate InGrid(f: Frame, es: seq<Event>) {
    f.width % 8 == 0 && forall i :: 0 <= i < |es| ==> 8 * es[i].tx < f.width
  }

  lemma {:induction false} TouchExists(w: nat, base: nat, n: nat, q: nat) returns (k: nat)
    requires Touch(w, base, n, q)
    ensures k < n && SpotOf(w, base, k) == q
  {
    hide SpotOf;
    if SpotOf(w, base, n - 1) == q { k := n - 1; } else { k := TouchExists(w, base, n - 1, q); }
  }

  lemma TouchIsCover(f: Frame, e: Event, x: nat, y: nat)
    requires f.width % 8 == 0 && 8 * e.tx < f.width && x < f.width && y < f.height
    requires Touches(f, e, Linear(f, x, y))
    ensures Covers(e, x, y)
  {
    hide Touch;
    var n := TouchExists(f.width, Base(f.width, e.tx, e.ty), 64, Linear(f, x, y));
    SpotIsLinear(f.width, e.tx, e.ty, 8 * e.tx + n % 8, 8 * e.ty + n / 8, n);
    LinearUnique(f.width, x, y, 8 * e.tx + n % 8, 8 * e.ty + n / 8);
  }

  /** In particular when no tile is addressed twice. */
  lemma OnceRollsBack(f: Frame, es: seq<Event>)
    requires Plain(f) && AllProper(f, es) && InGrid(f, es) && Once(es)
    ensures RollbackSafe(f, es)
  {
    hide Touches, Linear;
    forall x, y | 0 <= x < f.width && 0 <= y < f.height ensures SafeAt(f, es, x, y) {
      forall j: nat | LastTouch(f, es, j, Linear(f, x, y)) ensures !Written(f, es[..j], x, y) {
        TouchIsCover(f, es[j], x, y);
        forall i | 0 <= i < j ensures !Writes(f, es[..j][i], x, y) {
          if Covers(es[i], x, y) { CoveredOnce(es, i, j, x, y); }
        }
      }
    }
  }

  /** No tile that is drawn inside the picture twice in a row is rolled back. */
  lemma RollbackFails(f: Frame, e: Event)
    requires Plain(f) && Proper(f, e) && !Neutral(f, e) && 8 * e.tx < f.width && 8 * e.ty < f.height
    ensures AllProper(f, [e, e]) && !RollbackSafe(f, [e, e])
  {
    hide Touch, Neutral;
    var es, x, y := [e, e], 8 * e.tx, 8 * e.ty;
    CoverIsTouch(f, es[1], x, y);
    assert LastTouch(f, es, 1, Linear(f, x, y));
    assert Writes(f, es[..1][0], x, y);
    assert !SafeAt(f, es, x, y);
  }

  /* In place. */

  method SaveBlock(f: Frame, fb: array<Byte>, tx: nat, ty: nat) returns (s: Saved)
    requires f.width > 0
    ensures s == Save(f.width, fb[..], Base(f.width, tx, ty))
  {
    var w := f.width;
    var pixX, pixY := 8 * tx, 8 * ty;
    var pixels: seq<Byte> := [];
    ghost var base := Base(w, tx, ty);
    for row := 0 to 8
      invariant |pixels| == 32 * row
      invariant forall i :: 0 <= i < |pixels| ==> pixels[i] == SavedByte(w, fb[..], base, i)
    {
      for col := 0 to 8
        invariant |pixels| == 32 * row + 4 * col
        invariant forall i :: 0 <= i < |pixels| ==> pixels[i] == SavedByte(w, fb[..], base, i)
      {
        var idx := 4 * Place(w, pixX + col, pixY + row);
        SpotIsLinear(w, tx, ty, pixX + col, pixY + row, 8 * row + col);
        var next: seq<Byte> := [0, 0, 0, 0];
        if idx + 3 < fb.Length { next := fb[idx..idx + 4]; }
        SavedQuad(w, fb[..], base, 8 * row + col, next);
        pixels := pixels + next;
      }
    }
    s := Saved(4 * Place(w, pixX, pixY), pixels);
  }

  lemma SavedQuad(w: nat, fb: seq<Byte>, base: nat, n: nat, next: seq<Byte>)
    requires var q := SpotOf(w, base, n);
             next == if 4 * q + 3 < |fb| then fb[4 * q..4 * q + 4] else [0, 0, 0, 0]
    ensures forall k :: 0 <= k < 4 ==> next[k] == SavedByte(w, fb, base, 4 * n + k)
  {
    hide SpotOf;
  }

  method RestoreBlock(f: Frame, fb: array<Byte>, s: Saved)
    requires f.width > 0 && |s.pixels| == 256
    modifies fb
    ensures fb[..] == RestoreOne(f.width, old(fb[..]), s, 64)
  {
    hide SpotOf, PutPixel, RestoreSpot;
    var w := f.width;
    ghost var start := fb[..];
    for n := 0 to 64
      invariant fb[..] == RestoreOne(w, start, s, n)
    {
      StorePixel(fb, RestoreSpot(w, s.offset / 4, n), SavedPixel(s, n));
    }
  }

  /** The place of pixel n, recomputed from the column and row of the saved offset. */
  function RestoreSpot(w: nat, base: nat, n: nat): (q: nat)
    requires w > 0 && n < 64
    ensures q == SpotOf(w, base, n)
  {
    hide Place;
    RestorePlace(w, base, n / 8, n % 8);
    var pixX, pixY := base % w, base / w;
    Place(w, pixX + n % 8, pixY + n / 8)
  }

  lemma RestorePlace(w: nat, base: nat, row: nat, col: nat)
    requires w > 0 && row < 8 && col < 8
    ensures Place(w, base % w + col, base / w + row) == SpotOf(w, base, 8 * row + col)
  {
    var n := 8 * row + col;
    assert n / 8 == row && n % 8 == col;
    DistributeRows(base / w, row, w);
    assert base == base / w * w + base % w;
  }

  lemma DistributeRows(a: nat, b: nat, w: nat)
    ensures (a + b) * w == a * w + b * w
  {
  }

  /** Four guarded byte stores. */
  method StorePixel(fb: array<Byte>, q: nat, p: Pixel)
    modifies fb
    ensures fb[..] == PutPixel(old(fb[..]), q, p)
  {
    var idx := 4 * q;
    if idx + 3 < fb.Length {
      fb[idx], fb[idx + 1], fb[idx + 2], fb[idx + 3] := p.b, p.g, p.r, p.a;
    }
  }

  method RestoreBlocks(f: Frame, fb: array<Byte>, log: seq<Saved>)
    requires f.width > 0 && Blocks(log)
    modifies fb
    ensures fb[..] == RestoreAll(f.width, old(fb[..]), log)
  {
    for i := 0 to |log|
      invariant fb[..] == RestoreAll(f.width, old(fb[..]), log[..i])
    {
      RestoreBlock(f, fb, log[i]);
      assert log[..i + 1][..i] == log[..i];
    }
    assert log[..|log|] == log;
  }
}
