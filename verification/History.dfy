/** What a whole frame leaves on the canvas: pixel history, and when decoding it again changes nothing. */
module History {
  import opened Colour
  import opened Drawing

  function SampleAt(e: Event, x: nat, y: nat): Sample
    requires |e.tile| >= 192 && Covers(e, x, y)
  {
    NarrowSample(e.tile, Spot(e, x, y))
  }

  lemma NeutralSample(f: Frame, e: Event, x: nat, y: nat)
    requires Proper(f, e) && f.mode == 0 && Neutral(f, e) && Covers(e, x, y)
    ensures SampleAt(e, x, y) == NEUTRAL
  {
  }

  /* Pixel history. */

  /** Event i is the last one that satisfies "covers (x, y)" and, if drawn, is not neutral. */
  ghost predicate IsLast(f: Frame, es: seq<Event>, i: nat, x: nat, y: nat, drawn: bool)
    requires AllProper(f, es)
  {
    && i < |es| && Covers(es[i], x, y) && (drawn ==> !Neutral(f, es[i]))
    && forall j :: i < j < |es| ==> !(Covers(es[j], x, y) && (drawn ==> !Neutral(f, es[j])))
  }

  ghost predicate NoneCovers(f: Frame, es: seq<Event>, x: nat, y: nat, drawn: bool)
    requires AllProper(f, es)
  {
    forall j :: 0 <= j < |es| ==> !(Covers(es[j], x, y) && (drawn ==> !Neutral(f, es[j])))
  }

  ghost predicate FirstPassOnly(es: seq<Event>) { forall i :: 0 <= i < |es| ==> es[i].pass == First }

  /** Over first-pass tiles, a pixel has the colour of the last non-neutral tile that covers it and its
      reference is the last covering tile's sample, neutral or not; without such a tile both are unchanged. */
  lemma PixelHistory(f: Frame, c: Canvas, es: seq<Event>, x: nat, y: nat)
    requires Plain(f) && Sized(f, c) && AllProper(f, es) && FirstPassOnly(es) && x < f.width && y < f.height
    ensures var r := CellAt(f, PaintAll(f, c, es), x, y);
            && (forall i: nat :: IsLast(f, es, i, x, y, true) ==> r.p == Rgb(SampleAt(es[i], x, y)))
            && (forall i: nat :: IsLast(f, es, i, x, y, false) ==> r.s == SampleAt(es[i], x, y))
            && (NoneCovers(f, es, x, y, true) ==> r.p == CellAt(f, c, x, y).p)
            && (NoneCovers(f, es, x, y, false) ==> r.s == CellAt(f, c, x, y).s)
  {
    hide CellAt, PaintAll, Neutral, RunCell;
    PaintAllAt(f, c, es, x, y);
    ColourHistory(f, es, x, y, CellAt(f, c, x, y));
    ReferenceHistory(f, es, x, y, CellAt(f, c, x, y));
  }

  lemma {:induction false} ColourHistory(f: Frame, es: seq<Event>, x: nat, y: nat, cell: Cell)
    requires f.mode == 0 && AllProper(f, es) && FirstPassOnly(es)
    ensures var r := RunCell(f, es, x, y, cell);
            && (forall i: nat :: IsLast(f, es, i, x, y, true) ==> r.p == Rgb(SampleAt(es[i], x, y)))
            && (NoneCovers(f, es, x, y, true) ==> r.p == cell.p)
  {
    hide Neutral, NarrowSample, Rgb;
    if es != [] {
      var es', e := es[..|es| - 1], es[|es| - 1];
      ColourHistory(f, es', x, y, cell);
      var r := RunCell(f, es, x, y, cell);
      forall i: nat | IsLast(f, es, i, x, y, true) ensures r.p == Rgb(SampleAt(es[i], x, y)) {
        if i < |es'| {
          assert !(Covers(e, x, y) && !Neutral(f, e));
          assert IsLast(f, es', i, x, y, true);
        }
      }
      assert NoneCovers(f, es, x, y, true) ==> NoneCovers(f, es', x, y, true);
    }
  }

  lemma {:induction false} ReferenceHistory(f: Frame, es: seq<Event>, x: nat, y: nat, cell: Cell)
    requires f.mode == 0 && AllProper(f, es) && FirstPassOnly(es)
    ensures var r := RunCell(f, es, x, y, cell);
            && (forall i: nat :: IsLast(f, es, i, x, y, false) ==> r.s == SampleAt(es[i], x, y))
            && (NoneCovers(f, es, x, y, false) ==> r.s == cell.s)
  {
    hide Neutral, NarrowSample, Rgb;
    if es != [] {
      var es', e := es[..|es| - 1], es[|es| - 1];
      ReferenceHistory(f, es', x, y, cell);
      var r := RunCell(f, es, x, y, cell);
      forall i: nat | IsLast(f, es, i, x, y, false) ensures r.s == SampleAt(es[i], x, y) {
        if i < |es'| {
          assert !Covers(e, x, y);
          assert IsLast(f, es', i, x, y, false);
        }
      }
      assert NoneCovers(f, es, x, y, false) ==> NoneCovers(f, es', x, y, false);
    }
  }

  /* Drift. */

  datatype ColourEffect = Keep | Fixed(p: Pixel) | Shown(d: Sample)
  datatype RefEffect = KeepRef | SetRef(s: Sample)

  /** What a frame does to a cell, for any initial contents: its colour may depend on the old reference. */
  datatype Effect = Effect(colour: ColourEffect, ref: RefEffect)

  function Act(a: Effect, cell: Cell): Cell {
    Cell(match a.colour
         case Keep => cell.p
         case Fixed(p) => p
         case Shown(d) => Rgb(Combine(cell.s, d)),
         match a.ref
         case KeepRef => cell.s
         case SetRef(s) => s)
  }

  function Extended(f: Frame, a: Effect, e: Event, x: nat, y: nat): Effect
    requires Proper(f, e) && f.mode == 0
  {
    if !Covers(e, x, y) then a
    else
      var s := SampleAt(e, x, y);
      if Neutral(f, e) then a.(ref := SetRef(s))
      else if e.pass == First then Effect(Fixed(Rgb(s)), SetRef(s))
      else a.(colour := match a.ref case KeepRef => Shown(s) case SetRef(r) => Fixed(Rgb(Combine(r, s))))
  }

  /** The effect of a list of tiles on cell (x, y), computed from the tiles alone. */
  function Summary(f: Frame, es: seq<Event>, x: nat, y: nat): Effect
    requires AllProper(f, es) && f.mode == 0
  {
    if es == [] then Effect(Keep, KeepRef) else Extended(f, Summary(f, es[..|es| - 1], x, y), es[|es| - 1], x, y)
  }

  lemma {:induction false} SummaryActs(f: Frame, es: seq<Event>, x: nat, y: nat, cell: Cell)
    requires AllProper(f, es) && f.mode == 0
    ensures RunCell(f, es, x, y, cell) == Act(Summary(f, es, x, y), cell)
  {
    hide Neutral, NarrowSample, Rgb, Combine;
    if es != [] { SummaryActs(f, es[..|es| - 1], x, y, cell); }
  }

  /** The colour comes from the reference as it was before the frame, and the frame replaces that reference. */
  predicate Hazard(a: Effect) { a.colour.Shown? && a.ref.SetRef? }

  ghost predicate DriftFree(f: Frame, es: seq<Event>)
    requires AllProper(f, es) && f.mode == 0
  {
    forall x, y :: 0 <= x < f.width && 0 <= y < f.height ==> !Hazard(Summary(f, es, x, y))
  }

  lemma SafeTwice(a: Effect, cell: Cell)
    requires !Hazard(a)
    ensures Act(a, Act(a, cell)) == Act(a, cell)
  {
  }

  /** Samples of 0 .. 255, as both tile decoders produce them. */
  ghost predicate Eights(es: seq<Event>) {
    forall i, k :: 0 <= i < |es| && 0 <= k < |es[i].tile| ==> 0 <= es[i].tile[k] < 256
  }

  /** A hazard always comes from a neutral tile after the difference. */
  lemma {:induction false} HazardShape(f: Frame, es: seq<Event>, x: nat, y: nat)
    requires AllProper(f, es) && f.mode == 0 && Eights(es)
    ensures var a := Summary(f, es, x, y); a.colour.Shown? ==>
            Eight(a.colour.d) && (a.ref.SetRef? ==> a.ref.s == NEUTRAL)
  {
    hide Neutral, Rgb, Combine;
    if es != [] {
      HazardShape(f, es[..|es| - 1], x, y);
      var e := es[|es| - 1];
      if Covers(e, x, y) && Neutral(f, e) { NeutralSample(f, e, x, y); }
    }
  }

  ghost predicate ProperCanvas(f: Frame, c: Canvas) {
    Sized(f, c) && forall i :: 0 <= i < |c.prev| ==> 0 <= c.prev[i] < 256
  }

  /** The canvas whose every cell is the given one. */
  ghost function Uniform(f: Frame, p: Pixel, s: Sample): (c: Canvas)
    ensures Sized(f, c)
  {
    Canvas(seq(4 * Area(f),
               i => if i % 4 == 0 then p.b else if i % 4 == 1 then p.g else if i % 4 == 2 then p.r else p.a),
           seq(3 * Area(f), i => if i % 3 == 0 then s.y else if i % 3 == 1 then s.cb else s.cr))
  }

  lemma UniformAt(f: Frame, p: Pixel, s: Sample, x: nat, y: nat)
    requires x < f.width && y < f.height
    ensures CellAt(f, Uniform(f, p, s), x, y) == Cell(p, s)
  {
    hide Linear;
  }

  ghost predicate Repeats(f: Frame, c: Canvas, es: seq<Event>)
    requires AllProper(f, es)
  {
    PaintAll(f, PaintAll(f, c, es), es) == PaintAll(f, c, es)
  }

  lemma SafeRepeats(f: Frame, c: Canvas, es: seq<Event>)
    requires Plain(f) && Sized(f, c) && AllProper(f, es) && DriftFree(f, es)
    ensures Repeats(f, c, es)
  {
    hide PaintAll, CellAt, RunCell, Act, Summary, Hazard;
    var once := PaintAll(f, c, es);
    var twice := PaintAll(f, once, es);
    forall x, y | 0 <= x < f.width && 0 <= y < f.height ensures CellAt(f, twice, x, y) == CellAt(f, once, x, y) {
      PaintAllAt(f, c, es, x, y);
      PaintAllAt(f, once, es, x, y);
      SummaryActs(f, es, x, y, CellAt(f, c, x, y));
      SummaryActs(f, es, x, y, CellAt(f, once, x, y));
      SafeTwice(Summary(f, es, x, y), CellAt(f, c, x, y));
    }
    CellsDetermineCanvas(f, twice, once);
  }

  lemma HazardDrifts(f: Frame, es: seq<Event>, x: nat, y: nat) returns (c: Canvas)
    requires Plain(f) && AllProper(f, es) && Eights(es) && x < f.width && y < f.height
    requires Hazard(Summary(f, es, x, y))
    ensures ProperCanvas(f, c) && !Repeats(f, c, es)
  {
    hide PaintAll, CellAt, RunCell, Summary, Uniform, Rgb;
    var a := Summary(f, es, x, y);
    HazardShape(f, es, x, y);
    var ref := ReferenceMatters(a.colour.d);
    c := Uniform(f, Pixel(0, 0, 0, 0), ref);
    UniformProper(f, Pixel(0, 0, 0, 0), ref);
    UniformAt(f, Pixel(0, 0, 0, 0), ref, x, y);
    var once := PaintAll(f, c, es);
    PaintAllAt(f, c, es, x, y);
    PaintAllAt(f, once, es, x, y);
    SummaryActs(f, es, x, y, CellAt(f, c, x, y));
    SummaryActs(f, es, x, y, CellAt(f, once, x, y));
  }

  lemma UniformProper(f: Frame, p: Pixel, s: Sample)
    requires Eight(s)
    ensures ProperCanvas(f, Uniform(f, p, s))
  {
  }

  /** No drift, exactly: a frame can be decoded again without any change, from every earlier picture,
      if and only if no cell's colour is a difference to a reference that the same frame replaces. */
  lemma NoDriftExactly(f: Frame, es: seq<Event>)
    requires Plain(f) && AllProper(f, es) && Eights(es)
    ensures (forall c :: ProperCanvas(f, c) ==> Repeats(f, c, es)) <==> DriftFree(f, es)
  {
    hide Repeats, Summary, Hazard;
    if DriftFree(f, es) {
      forall c | ProperCanvas(f, c) ensures Repeats(f, c, es) { SafeRepeats(f, c, es); }
    } else {
      var x, y :| 0 <= x < f.width && 0 <= y < f.height && Hazard(Summary(f, es, x, y));
      var c := HazardDrifts(f, es, x, y);
    }
  }

  /** Frames without second-pass tiles never drift. */
  lemma {:induction false} FirstPassSummary(f: Frame, es: seq<Event>, x: nat, y: nat)
    requires AllProper(f, es) && f.mode == 0 && FirstPassOnly(es)
    ensures !Summary(f, es, x, y).colour.Shown?
  {
    hide Neutral, Rgb;
    if es != [] { FirstPassSummary(f, es[..|es| - 1], x, y); }
  }

  /** No tile is addressed twice. */
  ghost predicate Once(es: seq<Event>) {
    forall i, j :: 0 <= i < j < |es| ==> es[i].tx != es[j].tx || es[i].ty != es[j].ty
  }

  lemma CoveredOnce(es: seq<Event>, i: nat, j: nat, x: nat, y: nat)
    requires Once(es) && i < |es| && j < |es| && Covers(es[i], x, y) && Covers(es[j], x, y)
    ensures i == j
  {
    assert es[i].tx == x / 8 && es[j].tx == x / 8 && es[i].ty == y / 8 && es[j].ty == y / 8;
  }

  lemma {:induction false} UncoveredSummary(f: Frame, es: seq<Event>, x: nat, y: nat)
    requires AllProper(f, es) && f.mode == 0 && forall i :: 0 <= i < |es| ==> !Covers(es[i], x, y)
    ensures Summary(f, es, x, y) == Effect(Keep, KeepRef)
  {
    if es != [] { UncoveredSummary(f, es[..|es| - 1], x, y); }
  }

  lemma {:induction false} OnceSummary(f: Frame, es: seq<Event>, x: nat, y: nat)
    requires AllProper(f, es) && f.mode == 0 && Once(es)
    ensures !Hazard(Summary(f, es, x, y))
  {
    hide Neutral, Rgb;
    if es != [] {
      var es', e := es[..|es| - 1], es[|es| - 1];
      OnceSummary(f, es', x, y);
      if Covers(e, x, y) {
        forall i | 0 <= i < |es'| ensures !Covers(es'[i], x, y) {
          if Covers(es[i], x, y) { CoveredOnce(es, i, |es'|, x, y); }
        }
        UncoveredSummary(f, es', x, y);
      }
    }
  }

  /** The two easy sufficient conditions. */
  lemma DriftFreeFrames(f: Frame, es: seq<Event>)
    requires f.mode == 0 && AllProper(f, es) && (FirstPassOnly(es) || Once(es))
    ensures DriftFree(f, es)
  {
    hide Summary;
    forall x, y | 0 <= x < f.width && 0 <= y < f.height ensures !Hazard(Summary(f, es, x, y)) {
      if FirstPassOnly(es) { FirstPassSummary(f, es, x, y); } else { OnceSummary(f, es, x, y); }
    }
  }

  /** Drift does happen: whenever a difference tile inside the picture is followed by a neutral tile at its place. */
  lemma DriftExample(f: Frame, d: Event, e: Event)
    requires Plain(f) && Proper(f, d) && Proper(f, e) && d.pass == Second && !Neutral(f, d) && Neutral(f, e)
    requires d.tx == e.tx && d.ty == e.ty && 8 * d.tx < f.width && 8 * d.ty < f.height
    ensures AllProper(f, [d, e]) && !DriftFree(f, [d, e])
  {
    hide Neutral;
    var es, x, y := [d, e], 8 * d.tx, 8 * d.ty;
    assert es[..1] == [d] && es[..1][..0] == [];
    assert Covers(d, x, y) && Covers(e, x, y);
    assert Summary(f, [], x, y) == Effect(Keep, KeepRef);
    assert Summary(f, es[..1], x, y).colour.Shown?;
    assert Hazard(Summary(f, es, x, y));
  }
}
