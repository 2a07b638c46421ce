/** The incremental tile index and the raster order it stands for. */
module Raster {
  import opened Bits

  /** Tiles per row or column of a padded length; never zero. */
  function Tiles(length: nat, unit: nat): (n: nat)
    requires unit > 0
    ensures n > 0
  {
    if length / unit <= 0 then 1 else length / unit
  }

  function Pad(length: nat, unit: nat): (n: nat)
    requires unit > 0
  {
    if length % unit != 0 then length + unit - length % unit else length
  }

  datatype Place = Place(tx: nat, ty: nat)

  /** moveBlockIndex on a grid of cols x rows tiles. */
  function Move(cols: nat, rows: nat, p: Place): Place {
    if p.tx + 1 >= cols then Place(0, if p.ty + 1 >= rows then 0 else p.ty + 1) else Place(p.tx + 1, p.ty)
  }

  function MoveTimes(cols: nat, rows: nat, p: Place, n: nat): Place {
    if n == 0 then p else Move(cols, rows, MoveTimes(cols, rows, p, n - 1))
  }

  /** The k-th tile in raster order. */
  function Tile(cols: nat, k: nat): Place
    requires cols > 0
  {
    Place(k % cols, k / cols)
  }

  /** n moves from the first tile reach tile n modulo the number of tiles. */
  lemma {:induction false} MovesAreRasterOrder(cols: nat, rows: nat, n: nat)
    requires cols > 0 && rows > 0
    ensures cols * rows > 0 && MoveTimes(cols, rows, Place(0, 0), n) == Tile(cols, n % (cols * rows))
  {
    if n > 0 {
      MovesAreRasterOrder(cols, rows, n - 1);
      var k := (n - 1) % (cols * rows);
      NextTile(cols, rows, k);
      NextIndex(n - 1, cols * rows);
    } else {
      ProductPositive(cols, rows);
    }
  }

  lemma ProductPositive(a: nat, b: nat)
    requires a > 0 && b > 0
    ensures a * b > 0
  {
  }

  lemma NextIndex(n: nat, m: nat)
    requires m > 0
    ensures (n + 1) % m == if n % m + 1 == m then 0 else n % m + 1
  {
    var q, r := n / m, n % m;
    assert n == q * m + r;
    if r + 1 == m { DivModUnique(q + 1, m, 0); } else { DivModUnique(q, m, r + 1); }
  }

  lemma MulLe(a: nat, b: nat, c: nat)
    requires a <= b
    ensures a * c <= b * c
  {
  }

  lemma Split(k: nat, cols: nat, rows: nat)
    requires cols > 0 && k < cols * rows
    ensures k == k / cols * cols + k % cols && k / cols < rows
  {
    var q := k / cols;
    if q >= rows { MulLe(rows, q, cols); }
  }

  /** Only the last tile of the last row is followed by the first one. */
  lemma LastIndex(cols: nat, rows: nat, q: nat, r: nat)
    requires r < cols && q < rows
    ensures q * cols + r + 1 == cols * rows <==> q + 1 == rows && r + 1 == cols
  {
    if q + 1 < rows {
      MulLe(q + 2, rows, cols);
      assert (q + 2) * cols == q * cols + 2 * cols;
    } else {
      assert (q + 1) * cols == q * cols + cols;
    }
  }

  lemma NextTile(cols: nat, rows: nat, k: nat)
    requires cols > 0 && rows > 0 && k < cols * rows
    ensures Move(cols, rows, Tile(cols, k)) == Tile(cols, if k + 1 == cols * rows then 0 else k + 1)
  {
    var r, q := k % cols, k / cols;
    Split(k, cols, rows);
    LastIndex(cols, rows, q, r);
    Successor(cols, q, r, k);
    DivModUnique(0, cols, 0);
  }

  lemma Successor(cols: nat, q: nat, r: nat, k: nat)
    requires r < cols && k == q * cols + r
    ensures r + 1 < cols ==> Tile(cols, k + 1) == Place(r + 1, q)
    ensures r + 1 == cols ==> Tile(cols, k + 1) == Place(0, q + 1)
  {
    if r + 1 < cols {
      DivModUnique(q, cols, r + 1);
    } else {
      assert (q + 1) * cols == k + 1;
      DivModUnique(q + 1, cols, 0);
    }
  }

  lemma TileIndex(cols: nat, rows: nat, p: Place, n: nat)
    requires p.tx < cols && p.ty < rows && n < cols * rows
    ensures p.ty * cols + p.tx < cols * rows
    ensures Visits(cols, rows, n, p) <==> n == p.ty * cols + p.tx
  {
    MulLe(p.ty + 1, rows, cols);
    assert (p.ty + 1) * cols == p.ty * cols + cols;
    MovesAreRasterOrder(cols, rows, n);
    Small(n, cols * rows);
    Split(n, cols, rows);
    DivModUnique(p.ty, cols, p.tx);
  }

  lemma Small(n: nat, m: nat)
    requires n < m
    ensures n % m == n
  {
    DivModUnique(0, m, n);
  }

  /** One full cycle visits every tile of the grid exactly once. */
  lemma EveryTileOnce(cols: nat, rows: nat, p: Place)
    requires p.tx < cols && p.ty < rows
    ensures exists n :: 0 <= n < cols * rows && Visits(cols, rows, n, p)
    ensures forall n, m ::
              0 <= n < cols * rows && 0 <= m < cols * rows && Visits(cols, rows, n, p) && Visits(cols, rows, m, p)
              ==> n == m
  {
    hide Visits;
    ProductPositive(cols, rows);
    TileIndex(cols, rows, p, 0);
    var k := p.ty * cols + p.tx;
    TileIndex(cols, rows, p, k);
    forall n | 0 <= n < cols * rows ensures Visits(cols, rows, n, p) ==> n == k {
      TileIndex(cols, rows, p, n);
    }
  }

  ghost predicate Visits(cols: nat, rows: nat, n: nat, p: Place) {
    MoveTimes(cols, rows, Place(0, 0), n) == p
  }

  /** The tiles of the padded grid partition the picture: a pixel is in the tile of its quotients only. */
  lemma TilesPartition(width: nat, height: nat, unit: nat, x: nat, y: nat, p: Place)
    requires unit > 0 && x < width && y < height
    ensures x / unit < Tiles(Pad(width, unit), unit) && y / unit < Tiles(Pad(height, unit), unit)
    ensures Spans(unit, p.tx, x) && Spans(unit, p.ty, y) <==> p.tx == x / unit && p.ty == y / unit
  {
    hide Pad, Tiles, Spans;
    PadCovers(width, unit, x);
    PadCovers(height, unit, y);
    QuotientUnique(unit, p.tx, x);
    QuotientUnique(unit, p.ty, y);
  }

  /** Coordinate x belongs to the t-th stretch of the given length. */
  ghost predicate Spans(unit: nat, t: nat, x: nat) { unit * t <= x < unit * t + unit }

  lemma QuotientUnique(unit: nat, t: nat, x: nat)
    requires unit > 0
    ensures Spans(unit, t, x) <==> t == x / unit
  {
    if Spans(unit, t, x) {
      DivModUnique(t, unit, x - unit * t);
    }
  }

  lemma PadCovers(length: nat, unit: nat, x: nat)
    requires unit > 0 && x < length
    ensures x / unit < Tiles(Pad(length, unit), unit)
  {
    var q := length / unit + (if length % unit != 0 then 1 else 0);
    assert Pad(length, unit) == q * unit;
    DivModUnique(q, unit, 0);
    Below(x, q, unit);
  }

  lemma Below(x: nat, q: nat, unit: nat)
    requires unit > 0 && x < q * unit
    ensures x / unit < q
  {
    if x / unit >= q { MulLe(q, x / unit, unit); }
  }
}
