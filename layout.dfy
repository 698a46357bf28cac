/** Where each read unit of a tile ends up. `Deswizzler.DeswizzleTileSpec`
    merges a tile's read units along a step list; `UnitAt` gives, for any
    step list, the index of the read unit found at each cell of the merged
    tile. For the two step tables of `Platform` that index is a known
    closed-form layout: Morton (Z-order) order on 'ps4', and on 'nsw' the
    block-linear layout of GOBs (8 rows of 64 bytes) stacked `2^m` high. */
module Layout {
  import opened Arith
  import opened Grids
  import opened Steps
  import opened Platform
  import opened Deswizzler

  lemma {:induction false} ShapeAfterMergeSnoc(sh: Shape, st: seq<Step>, s: Step)
    ensures ShapeAfterMerge(sh, st + [s]) == Scale(ShapeAfterMerge(sh, st), s.groupSize, s.axis)
    decreases |st|
  {
    if st == [] {
      assert (st + [s])[1..] == [];
    } else {
      assert (st + [s])[1..] == st[1..] + [s];
      ShapeAfterMergeSnoc(Scale(sh, st[0].groupSize, st[0].axis), st[1..], s);
    }
  }

  lemma {:induction false} ProductSnoc(st: seq<Step>, s: Step)
    ensures Product(st + [s]) == Product(st) * s.groupSize
    decreases |st|
  {
    if st == [] {
      assert (st + [s])[1..] == [];
    } else {
      assert (st + [s])[1..] == st[1..] + [s];
      ProductSnoc(st[1..], s);
      MulRearrange(Product(st[1..]), st[0].groupSize, s.groupSize);
    }
  }

  /** Merging grids of a non-empty shape by positive groups leaves a
      non-empty shape. */
  lemma {:induction false} MergedShapePositive(sh: Shape, st: seq<Step>)
    requires Positive(st) && sh.rows > 0 && sh.cols > 0
    ensures ShapeAfterMerge(sh, st).rows > 0 && ShapeAfterMerge(sh, st).cols > 0
    decreases |st|
  {
    if st != [] {
      var k := st[0].groupSize;
      assert st[0] in st;
      MulPositive(k, sh.rows);
      MulPositive(k, sh.cols);
      assert forall x :: x in st[1..] ==> x in st;
      MergedShapePositive(Scale(sh, k, st[0].axis), st[1..]);
    }
  }

  /** The index, among the read units merged by `st`, of the unit at row `r`
      and column `c` of the merged tile. The last step joined `groupSize`
      grids of the shape the earlier steps built, each holding `Product` of
      the earlier steps' units; the cell falls in grid `r / rows` (stacked)
      or `c / cols` (side by side) of that group. */
  function UnitAt(st: seq<Step>, r: nat, c: nat): nat
    requires Positive(st)
    decreases |st|
  {
    if st == [] then 0
    else
      var init := st[..|st| - 1];
      PositivePrefix(st, |st| - 1);
      MergedShapePositive(Shape(1, 1), init);
      var sh := ShapeAfterMerge(Shape(1, 1), init);
      MulNonneg(r / sh.rows, Product(init));
      MulNonneg(c / sh.cols, Product(init));
      match st[|st| - 1].axis
      case Vertical => (r / sh.rows) * Product(init) + UnitAt(init, r % sh.rows, c)
      case Horizontal => (c / sh.cols) * Product(init) + UnitAt(init, r, c % sh.cols)
  }

  /** Element `i` of a join of pieces of length `n` is element `i % n` of
      piece `i / n`. */
  lemma FlattenAt<X>(ps: seq<seq<X>>, n: nat, i: nat)
    requires forall j :: 0 <= j < |ps| ==> |ps[j]| == n
    requires n > 0 && i < n * |ps|
    ensures i / n < |ps| && i < |Flatten(ps)|
    ensures Flatten(ps)[i] == ps[i / n][i % n]
  {
    var c, m := i / n, i % n;
    assert c < |ps| by {
      MulComm(n, |ps|);
      DivBelow(i, n, |ps|);
    }
    assert i == c * n + m && m < n by {
      MulComm(n, c);
    }
    FlattenPiece(ps, n, c, m);
  }

  /** Element `m` of piece `c` sits at `c * n + m` of the join. */
  lemma FlattenPiece<X>(ps: seq<seq<X>>, n: nat, c: nat, m: nat)
    requires forall j :: 0 <= j < |ps| ==> |ps[j]| == n
    requires c < |ps| && m < n
    ensures c * n + m < |Flatten(ps)| && Flatten(ps)[c * n + m] == ps[c][m]
  {
    FlattenSlice(ps, n, c);
    var lo := c * n;
    assert Flatten(ps)[lo..lo + n][m] == Flatten(ps)[lo + m];
  }

  /** Row `r` of grids `R` rows high stacked vertically is row `r % R` of
      grid `r / R`. */
  lemma StackedAt<X>(gs: seq<Grid<X>>, R: nat, r: nat)
    requires R > 0 && forall j :: 0 <= j < |gs| ==> |gs[j]| == R
    requires r < R * |gs|
    ensures r / R < |gs| && r < |Concat(gs, Vertical)|
    ensures Concat(gs, Vertical)[r] == gs[r / R][r % R]
  {
    FlattenAt(gs, R, r);
  }

  /** Row `r` of grids of shape `sh` joined side by side is their rows `r`
      joined. */
  lemma JoinedRow<X>(gs: seq<Grid<X>>, sh: Shape, r: nat, col: seq<seq<X>>)
    requires |gs| > 0 && AllHaveShape(gs, sh) && r < sh.rows
    requires col == seq(|gs|, j requires 0 <= j < |gs| => RowOr(gs[j], r))
    ensures forall j :: 0 <= j < |gs| ==> |gs[j]| == sh.rows && |gs[j][r]| == sh.cols
    ensures |col| == |gs| && forall j :: 0 <= j < |col| ==> col[j] == gs[j][r] && |col[j]| == sh.cols
    ensures r < |Concat(gs, Horizontal)| && Concat(gs, Horizontal)[r] == Flatten(col)
  {
    forall j | 0 <= j < |gs| ensures |gs[j]| == sh.rows && |gs[j][r]| == sh.cols {
      assert gs[j] in gs;
      assert gs[j][r] in gs[j];
    }
    assert gs[0] in gs;
  }

  /** Cell `(r, c)` of grids of shape `sh` joined side by side is cell
      `(r, c % cols)` of grid `c / cols`. */
  lemma JoinedAt<X>(gs: seq<Grid<X>>, sh: Shape, r: nat, c: nat)
    requires sh.cols > 0 && |gs| > 0 && AllHaveShape(gs, sh)
    requires r < sh.rows && c < sh.cols * |gs|
    ensures c / sh.cols < |gs| && r < |gs[c / sh.cols]| && c % sh.cols < |gs[c / sh.cols][r]|
    ensures r < |Concat(gs, Horizontal)| && c < |Concat(gs, Horizontal)[r]|
    ensures Concat(gs, Horizontal)[r][c] == gs[c / sh.cols][r][c % sh.cols]
  {
    var col := seq(|gs|, j requires 0 <= j < |gs| => RowOr(gs[j], r));
    JoinedRow(gs, sh, r, col);
    FlattenAt(col, sh.cols, c);
    var j := c / sh.cols;
    assert col[j] == gs[j][r];
  }

  /** A position below `k` blocks of `n` falls in one of the `k` blocks. */
  lemma DivBelow(x: nat, n: nat, k: nat)
    requires n > 0 && x < k * n
    ensures x / n < k
  {
    var a := x / n;
    assert a * n <= x;
    if a >= k {
      MulMono(k, a, n);
      assert false;
    }
  }

  /** Group `j < q` of `k` consecutive items starts at `lo = j * k` and fits
      in `q * k` items; there are `q` whole groups. */
  lemma GroupFits(q: nat, k: nat, j: nat, lo: nat)
    requires k > 0 && j < q && lo == j * k
    ensures lo + k <= q * k && (q * k) / k == q
  {
    MulStep(k, j, q);
    MulComm(k, j);
    MulComm(k, q);
    DivCancel(q, k);
  }

  /** The `k` grids of a group share the shape of all of `M`. */
  lemma GroupShape<X>(M: seq<Grid<X>>, sh: Shape, lo: nat, k: nat, part: seq<Grid<X>>)
    requires AllHaveShape(M, sh) && lo + k <= |M| && part == M[lo..lo + k]
    ensures AllHaveShape(part, sh)
    ensures forall i :: 0 <= i < |part| ==> |part[i]| == sh.rows
  {
    forall g | g in part ensures HasShape(g, sh) {
      assert g in M;
    }
    forall i | 0 <= i < |part| ensures |part[i]| == sh.rows {
      assert part[i] in part;
    }
  }

  /** Group `j` of `k` grids stacked vertically: its row `r` is row `rr` of
      grid `lo + a`, where `lo = j * k`, `a = r / rows`, `rr = r % rows`. */
  lemma GroupRowAt<X>(M: seq<Grid<X>>, k: nat, sh: Shape, q: nat, j: nat, r: nat, lo: nat, a: nat, rr: nat)
    requires k > 0 && sh.rows > 0 && |M| == q * k && j < q && AllHaveShape(M, sh)
    requires r < k * sh.rows && lo == j * k && a == r / sh.rows && rr == r % sh.rows
    ensures a < k && lo + a < |M| && rr < |M[lo + a]|
    ensures j < |ConcatGroups(M, k, Vertical)| && r < |ConcatGroups(M, k, Vertical)[j]|
    ensures ConcatGroups(M, k, Vertical)[j][r] == M[lo + a][rr]
  {
    GroupFits(q, k, j, lo);
    ConcatGroupsFrom(M, k, Vertical, j, lo);
    var part := M[lo..lo + k];
    GroupShape(M, sh, lo, k, part);
    MulComm(k, sh.rows);
    StackedAt(part, sh.rows, r);
    assert part[a] == M[lo + a];
  }

  /** Group `j` of `k` grids joined side by side: its cell `(r, c)` is cell
      `(r, cc)` of grid `lo + a`, where `lo = j * k`, `a = c / cols`,
      `cc = c % cols`. */
  lemma GroupColumnAt<X>(M: seq<Grid<X>>, k: nat, sh: Shape, q: nat, j: nat, r: nat, c: nat, lo: nat, a: nat, cc: nat)
    requires k > 0 && sh.cols > 0 && |M| == q * k && j < q && AllHaveShape(M, sh)
    requires r < sh.rows && c < k * sh.cols && lo == j * k && a == c / sh.cols && cc == c % sh.cols
    ensures a < k && lo + a < |M| && r < |M[lo + a]| && cc < |M[lo + a][r]|
    ensures j < |ConcatGroups(M, k, Horizontal)| && r < |ConcatGroups(M, k, Horizontal)[j]|
    ensures c < |ConcatGroups(M, k, Horizontal)[j][r]|
    ensures ConcatGroups(M, k, Horizontal)[j][r][c] == M[lo + a][r][cc]
  {
    GroupFits(q, k, j, lo);
    ConcatGroupsFrom(M, k, Horizontal, j, lo);
    var part := M[lo..lo + k];
    GroupShape(M, sh, lo, k, part);
    MulComm(k, sh.cols);
    JoinedAt(part, sh, r, c);
    assert part[a] == M[lo + a];
  }

  /** `UnitAt` names one of the `Product(st)` units merged by `st`. */
  lemma {:induction false} UnitAtBound(st: seq<Step>, r: nat, c: nat)
    requires Positive(st)
    requires r < ShapeAfterMerge(Shape(1, 1), st).rows && c < ShapeAfterMerge(Shape(1, 1), st).cols
    ensures UnitAt(st, r, c) < Product(st)
    decreases |st|
  {
    if st != [] {
      var init, s := st[..|st| - 1], st[|st| - 1];
      assert st == init + [s];
      PositivePrefix(st, |st| - 1);
      MergedShapePositive(Shape(1, 1), init);
      var sh, p, k := ShapeAfterMerge(Shape(1, 1), init), Product(init), s.groupSize;
      UnitAtStep(init, s, sh, p, r, c);
      if s.axis == Vertical {
        DivNat(r, sh.rows);
        MulComm(k, sh.rows);
        DivBelow(r, sh.rows, k);
        UnitAtBound(init, r % sh.rows, c);
        SlotBelow(r / sh.rows, k, p, UnitAt(init, r % sh.rows, c));
      } else {
        DivNat(c, sh.cols);
        MulComm(k, sh.cols);
        DivBelow(c, sh.cols, k);
        UnitAtBound(init, r, c % sh.cols);
        SlotBelow(c / sh.cols, k, p, UnitAt(init, r, c % sh.cols));
      }
    }
  }

  /** Slot `u` of block `a` of `k` blocks of `p` lies below `p * k`. */
  lemma SlotBelow(a: nat, k: nat, p: nat, u: nat)
    requires a < k && u < p
    ensures a * p + u < p * k
  {
    MulStep(p, a, k);
    MulComm(a, p);
  }

  /** Cell `(r, c)` of merged grid `j` holds read unit
      `j * Product(st) + UnitAt(st, r, c)`: merging `q * Product(st)` read
      units into `q` grids puts every unit where `UnitAt` says. */
  lemma {:induction false} MergeUnitAt(units: seq<ReadUnit>, st: seq<Step>, q: nat, j: nat, r: nat, c: nat)
    requires Positive(st) && |units| == q * Product(st) && j < q
    requires r < ShapeAfterMerge(Shape(1, 1), st).rows && c < ShapeAfterMerge(Shape(1, 1), st).cols
    ensures j < |Merge(Singletons(units), st)|
    ensures r < |Merge(Singletons(units), st)[j]| && c < |Merge(Singletons(units), st)[j][r]|
    ensures j * Product(st) + UnitAt(st, r, c) < |units|
    ensures Merge(Singletons(units), st)[j][r][c] == units[j * Product(st) + UnitAt(st, r, c)]
    decreases |st|, 1
  {
    var Mst := Merge(Singletons(units), st);
    SingletonsShape(units);
    MergeShape(Singletons(units), st, Shape(1, 1), q);
    assert Mst[j] in Mst;
    assert Mst[j][r] in Mst[j];
    UnitAtBound(st, r, c);
    SlotBelow(j, q, Product(st), UnitAt(st, r, c));
    MulComm(q, Product(st));
    if st != [] {
      if st[|st| - 1].axis == Vertical {
        MergeUnitAtRow(units, st, q, j, r, c);
      } else {
        MergeUnitAtColumn(units, st, q, j, r, c);
      }
    }
  }

  /** What the earlier steps `init` of `st == init + [s]` leave for the last
      step `s` to join: `q * groupSize` grids of one non-empty shape. */
  lemma LastStep(units: seq<ReadUnit>, st: seq<Step>, q: nat, init: seq<Step>, s: Step, r: nat, c: nat)
    requires Positive(st) && |units| == q * Product(st) && st == init + [s]
    ensures Positive(init) && s.groupSize > 0 && Product(st) == Product(init) * s.groupSize
    ensures ShapeAfterMerge(Shape(1, 1), init).rows > 0 && ShapeAfterMerge(Shape(1, 1), init).cols > 0
    ensures ShapeAfterMerge(Shape(1, 1), st) == Scale(ShapeAfterMerge(Shape(1, 1), init), s.groupSize, s.axis)
    ensures Merge(Singletons(units), st) == ConcatGroups(Merge(Singletons(units), init), s.groupSize, s.axis)
    ensures |units| == (q * s.groupSize) * Product(init)
    ensures |Merge(Singletons(units), init)| == q * s.groupSize
    ensures AllHaveShape(Merge(Singletons(units), init), ShapeAfterMerge(Shape(1, 1), init))
    ensures var sh := ShapeAfterMerge(Shape(1, 1), init);
      if s.axis == Vertical then UnitAt(st, r, c) == (r / sh.rows) * Product(init) + UnitAt(init, r % sh.rows, c)
      else UnitAt(st, r, c) == (c / sh.cols) * Product(init) + UnitAt(init, r, c % sh.cols)
  {
    MergeSnoc(Singletons(units), init, s);
    ProductSnoc(init, s);
    ShapeAfterMergeSnoc(Shape(1, 1), init, s);
    MergedShapePositive(Shape(1, 1), init);
    Regroup(q, s.groupSize, Product(init));
    SingletonsShape(units);
    MergeShape(Singletons(units), init, Shape(1, 1), q * s.groupSize);
    UnitAtStep(init, s, ShapeAfterMerge(Shape(1, 1), init), Product(init), r, c);
  }

  /** The last step of `st` stacks `k` grids of the earlier steps' shape. */
  lemma {:induction false} MergeUnitAtRow(units: seq<ReadUnit>, st: seq<Step>, q: nat, j: nat, r: nat, c: nat)
    requires Positive(st) && |units| == q * Product(st) && j < q
    requires r < ShapeAfterMerge(Shape(1, 1), st).rows && c < ShapeAfterMerge(Shape(1, 1), st).cols
    requires st != [] && st[|st| - 1].axis == Vertical
    requires j < |Merge(Singletons(units), st)|
    requires r < |Merge(Singletons(units), st)[j]| && c < |Merge(Singletons(units), st)[j][r]|
    requires j * Product(st) + UnitAt(st, r, c) < |units|
    ensures Merge(Singletons(units), st)[j][r][c] == units[j * Product(st) + UnitAt(st, r, c)]
    decreases |st|, 0
  {
    var init, s := st[..|st| - 1], st[|st| - 1];
    LastStep(units, st, q, init, s, r, c);
    var k, P0, sh := s.groupSize, Product(init), ShapeAfterMerge(Shape(1, 1), init);
    var M := Merge(Singletons(units), init);
    var lo, a, rr := j * k, r / sh.rows, r % sh.rows;
    Slot(q, k, j, r, sh.rows, lo, a, rr);
    MulNonneg(j, Product(st));
    RowCell(units, init, M, Merge(Singletons(units), st), k, sh, q, j, r, c, lo, a, rr, P0,
      UnitAt(init, rr, c), j * Product(st) + UnitAt(st, r, c));
  }

  /** The last step of `st` joins `k` grids of the earlier steps' shape side
      by side. */
  lemma {:induction false} MergeUnitAtColumn(units: seq<ReadUnit>, st: seq<Step>, q: nat, j: nat, r: nat, c: nat)
    requires Positive(st) && |units| == q * Product(st) && j < q
    requires r < ShapeAfterMerge(Shape(1, 1), st).rows && c < ShapeAfterMerge(Shape(1, 1), st).cols
    requires st != [] && st[|st| - 1].axis == Horizontal
    requires j < |Merge(Singletons(units), st)|
    requires r < |Merge(Singletons(units), st)[j]| && c < |Merge(Singletons(units), st)[j][r]|
    requires j * Product(st) + UnitAt(st, r, c) < |units|
    ensures Merge(Singletons(units), st)[j][r][c] == units[j * Product(st) + UnitAt(st, r, c)]
    decreases |st|, 0
  {
    var init, s := st[..|st| - 1], st[|st| - 1];
    LastStep(units, st, q, init, s, r, c);
    var k, P0, sh := s.groupSize, Product(init), ShapeAfterMerge(Shape(1, 1), init);
    var M := Merge(Singletons(units), init);
    var lo, a, cc := j * k, c / sh.cols, c % sh.cols;
    Slot(q, k, j, c, sh.cols, lo, a, cc);
    MulNonneg(j, Product(st));
    ColumnCell(units, init, M, Merge(Singletons(units), st), k, sh, q, j, r, c, lo, a, cc, P0,
      UnitAt(init, r, cc), j * Product(st) + UnitAt(st, r, c));
  }

  /** Position `x` below `k * n`, split into block `a` and offset `b`, names
      grid `lo + a` of the `q * k` grids when group `j < q` starts at
      `lo`. */
  lemma Slot(q: nat, k: nat, j: nat, x: nat, n: nat, lo: int, a: int, b: int)
    requires n > 0 && k > 0 && j < q && x < k * n && lo == j * k && a == x / n && b == x % n
    ensures 0 <= lo && 0 <= a && 0 <= b < n && a < k && lo + a < q * k
  {
    MulNonneg(j, k);
    DivNat(x, n);
    MulComm(k, n);
    DivBelow(x, n, k);
    GroupFits(q, k, j, lo);
  }

  /** Cell `(r, c)` of group `j` of `k` stacked grids of `M`, the grids
      that the steps `init` merge, holds the unit that cell `(rr, c)` of
      grid `lo + a` holds. */
  lemma {:induction false} RowCell(units: seq<ReadUnit>, init: seq<Step>, M: seq<Grid<ReadUnit>>, Mst: seq<Grid<ReadUnit>>,
                k: nat, sh: Shape, q: nat, j: nat, r: nat, c: nat, lo: nat, a: nat, rr: nat, p: nat, u: nat, i: nat)
    requires Positive(init) && M == Merge(Singletons(units), init) && p == Product(init)
    requires sh == ShapeAfterMerge(Shape(1, 1), init) && u == UnitAt(init, rr, c)
    requires k > 0 && sh.rows > 0 && |units| == (q * k) * p && |M| == q * k && j < q && AllHaveShape(M, sh)
    requires r < k * sh.rows && c < sh.cols && lo == j * k && a == r / sh.rows && rr == r % sh.rows
    requires rr < sh.rows && lo + a < q * k
    requires Mst == ConcatGroups(M, k, Vertical) && i == j * (p * k) + (a * p + u)
    ensures j < |Mst| && r < |Mst[j]| && c < |Mst[j][r]| && i < |units| && Mst[j][r][c] == units[i]
    decreases |init|, 2
  {
    MergeUnitAt(units, init, q * k, lo + a, rr, c);
    GroupRowAt(M, k, sh, q, j, r, lo, a, rr);
    IndexShift(j, k, a, p, lo, u);
  }

  /** Cell `(r, c)` of group `j` of `k` grids of `M` side by side, the grids
      that the steps `init` merge, holds the unit that cell `(r, cc)` of
      grid `lo + a` holds. */
  lemma {:induction false} ColumnCell(units: seq<ReadUnit>, init: seq<Step>, M: seq<Grid<ReadUnit>>, Mst: seq<Grid<ReadUnit>>,
                   k: nat, sh: Shape, q: nat, j: nat, r: nat, c: nat, lo: nat, a: nat, cc: nat, p: nat, u: nat, i: nat)
    requires Positive(init) && M == Merge(Singletons(units), init) && p == Product(init)
    requires sh == ShapeAfterMerge(Shape(1, 1), init) && u == UnitAt(init, r, cc)
    requires k > 0 && sh.cols > 0 && |units| == (q * k) * p && |M| == q * k && j < q && AllHaveShape(M, sh)
    requires r < sh.rows && c < k * sh.cols && lo == j * k && a == c / sh.cols && cc == c % sh.cols
    requires cc < sh.cols && lo + a < q * k
    requires Mst == ConcatGroups(M, k, Horizontal) && i == j * (p * k) + (a * p + u)
    ensures j < |Mst| && r < |Mst[j]| && c < |Mst[j][r]| && i < |units| && Mst[j][r][c] == units[i]
    decreases |init|, 2
  {
    MergeUnitAt(units, init, q * k, lo + a, r, cc);
    GroupColumnAt(M, k, sh, q, j, r, c, lo, a, cc);
    IndexShift(j, k, a, p, lo, u);
  }

  /** `q` groups of `k` grids of `p` units, counted either way. */
  lemma Regroup(q: nat, k: nat, p: nat)
    ensures q * (p * k) == (q * k) * p
  {
    MulLinear(q, k, 0, p);
    MulComm(p, k);
  }

  /** Unit `u` of grid `a` of group `j` (groups of `k` grids of `p` units)
      is unit `a * p + u` of group `j`. */
  lemma IndexShift(j: nat, k: nat, a: nat, p: nat, lo: nat, u: nat)
    requires lo == j * k
    ensures (lo + a) * p + u == j * (p * k) + (a * p + u)
  {
    MulLinear(j, k, a, p);
    MulComm(p, k);
  }

  /** One step `s` appended to steps `init` that build shape `sh` from `p`
      units: the shape, the unit count and `UnitAt` of `init + [s]`. */
  lemma UnitAtStep(init: seq<Step>, s: Step, sh: Shape, p: nat, r: nat, c: nat)
    requires Positive(init + [s]) && sh.rows > 0 && sh.cols > 0
    requires ShapeAfterMerge(Shape(1, 1), init) == sh && Product(init) == p
    ensures Positive(init)
    ensures ShapeAfterMerge(Shape(1, 1), init + [s]) == Scale(sh, s.groupSize, s.axis)
    ensures Product(init + [s]) == p * s.groupSize
    ensures s.axis == Vertical ==> UnitAt(init + [s], r, c) == (r / sh.rows) * p + UnitAt(init, r % sh.rows, c)
    ensures s.axis == Horizontal ==> UnitAt(init + [s], r, c) == (c / sh.cols) * p + UnitAt(init, r, c % sh.cols)
  {
    MergeSnoc(Singletons([]), init, s);
    ProductSnoc(init, s);
    ShapeAfterMergeSnoc(Shape(1, 1), init, s);
    assert (init + [s])[..|init + [s]| - 1] == init;
  }

  /** Cell `(r, c)` of a tile merged from `Product(st)` read units holds
      unit `UnitAt(st, r, c)`. */
  lemma TileCell(units: seq<ReadUnit>, st: seq<Step>, r: nat, c: nat)
    requires Positive(st) && |units| == Product(st)
    requires r < ShapeAfterMerge(Shape(1, 1), st).rows && c < ShapeAfterMerge(Shape(1, 1), st).cols
    ensures UnitAt(st, r, c) < |units|
    ensures r < |DeswizzleTileSpec(units, st)| && c < |DeswizzleTileSpec(units, st)[r]|
    ensures DeswizzleTileSpec(units, st)[r][c] == units[UnitAt(st, r, c)]
  {
    MergeUnitAt(units, st, 1, 0, r, c);
  }

  /** The Z-order (Morton) index of cell `(r, c)` over the low `n` bits of
      each coordinate: bit `i` of `c` becomes bit `2 * i` of the index and
      bit `i` of `r` bit `2 * i + 1`. */
  function ZOrder(r: nat, c: nat, n: nat): nat {
    if n == 0 then 0 else c % 2 + 2 * (r % 2) + 4 * ZOrder(r / 2, c / 2, n - 1)
  }

  /** `ZOrder` over three bits, written out. */
  lemma ZOrder3(r: nat, c: nat)
    ensures ZOrder(r, c, 3) == c % 2 + 2 * (r % 2) + 4 * (c / 2 % 2) + 8 * (r / 2 % 2) + 16 * (c / 2 / 2 % 2) + 32 * (r / 2 / 2 % 2)
  {
    assert ZOrder(r / 2 / 2, c / 2 / 2, 1) == c / 2 / 2 % 2 + 2 * (r / 2 / 2 % 2) + 4 * ZOrder(r / 2 / 2 / 2, c / 2 / 2 / 2, 0);
  }

  /** The index `UnitAt` gives on 'ps4', as bits of `r` and `c`. */
  lemma Ps4Bits(r: nat, c: nat)
    requires r < 8 && c < 8
    ensures (r / 4) * 32 + (c / 4) * 16 + (r % 4 / 2) * 8 + (c % 4 / 2) * 4 + (r % 4 % 2 / 1) * 2 + c % 4 % 2 / 1 * 1 ==
      c % 2 + 2 * (r % 2) + 4 * (c / 2 % 2) + 8 * (r / 2 % 2) + 16 * (c / 2 / 2 % 2) + 32 * (r / 2 / 2 % 2)
  {
    ThreeBits(r);
    ThreeBits(c);
  }

  /** The three low bits of a number below 8. */
  lemma ThreeBits(x: nat)
    requires x < 8
    ensures x / 4 == x / 2 / 2 % 2 && x % 4 / 2 == x / 2 % 2 && x % 4 % 2 / 1 == x % 2
  {
  }

  /** On 'ps4' the 64 read units of a tile fill its 8 x 8 cells in Z-order. */
  lemma Ps4UnitAt(r: nat, c: nat)
    requires r < 8 && c < 8
    ensures UnitAt(Ps4DeswizzleSteps, r, c) == ZOrder(r, c, 3)
  {
    Ps4UnitIndex(r, c);
    Ps4Bits(r, c);
    ZOrder3(r, c);
  }

  /** `UnitAt` on 'ps4', step by step. */
  lemma Ps4UnitIndex(r: nat, c: nat)
    ensures UnitAt(Ps4DeswizzleSteps, r, c) ==
      (r / 4) * 32 + (c / 4) * 16 + (r % 4 / 2) * 8 + (c % 4 / 2) * 4 + (r % 4 % 2 / 1) * 2 + c % 4 % 2 / 1 * 1
  {
    var H, V := Step(2, Horizontal), Step(2, Vertical);
    var s1 := [] + [H];
    var s2 := s1 + [V];
    var s3 := s2 + [H];
    var s4 := s3 + [V];
    var s5 := s4 + [H];
    assert Ps4DeswizzleSteps == s5 + [V];
    var a4, b4 := r % 4, c % 4;
    var a2, b2 := a4 % 2, b4 % 2;
    UnitAtStep([], H, Shape(1, 1), 1, a2 % 1, b2);
    UnitAtStep(s1, V, Shape(1, 2), 2, a2, b2);
    UnitAtStep(s2, H, Shape(2, 2), 4, a2, b4);
    UnitAtStep(s3, V, Shape(2, 4), 8, a4, b4);
    UnitAtStep(s4, H, Shape(4, 4), 16, a4, c);
    UnitAtStep(s5, V, Shape(4, 8), 32, r, c);
  }

  /** Byte `x` of row `y` of one GOB of the block-linear layout (8 rows of 64
      bytes): the two 32-byte halves of the rows follow each other, each as
      four row pairs of two 16-byte sectors. */
  function GobOffset(x: nat, y: nat): nat
    requires x < 64 && y < 8
  {
    (x / 32) * 256 + (y / 2) * 64 + (x % 32 / 16) * 32 + (y % 2) * 16 + x % 16
  }

  /** On 'nsw' a tile is a column of `2^m` GOBs, and the 16-byte read unit
      at row `r`, column `c` sits at the GOB offset of byte column `16 * c`
      of row `r % 8` of GOB `r / 8`. */
  lemma NswUnitAt(m: nat, r: nat, c: nat)
    requires r < 8 * Pow2(m) && c < 4
    ensures 16 * UnitAt(NswDeswizzleSteps(m), r, c) == 512 * (r / 8) + GobOffset(16 * c, r % 8)
    ensures (512 * (r / 8) + GobOffset(16 * c, r % 8)) % 16 == 0
    ensures (512 * (r / 8) + GobOffset(16 * c, r % 8)) / 16 == UnitAt(NswDeswizzleSteps(m), r, c)
  {
    NswUnitIndex(m, r, c);
    NswBits(r, c);
    Sixteenths(UnitAt(NswDeswizzleSteps(m), r, c), 512 * (r / 8) + GobOffset(16 * c, r % 8));
  }

  /** `UnitAt` on 'nsw', step by step. */
  lemma NswUnitIndex(m: nat, r: nat, c: nat)
    ensures UnitAt(NswDeswizzleSteps(m), r, c) ==
      (r / 8) * 32 + (c / 2) * 16 + (r % 8 / 2) * 4 + (c % 2 / 1) * 2 + r % 8 % 2 / 1 * 1
  {
    var V2, H2, V4 := Step(2, Vertical), Step(2, Horizontal), Step(4, Vertical);
    var s1 := [] + [V2];
    var s2 := s1 + [H2];
    var s3 := s2 + [V4];
    var s4 := s3 + [H2];
    assert NswDeswizzleSteps(m) == s4 + [Step(Pow2(m), Vertical)];
    var a4, b2 := r % 8, c % 2;
    var a2 := a4 % 2;
    UnitAtStep([], V2, Shape(1, 1), 1, a2, b2 % 1);
    UnitAtStep(s1, H2, Shape(2, 1), 2, a2, b2);
    UnitAtStep(s2, V4, Shape(2, 2), 4, a4, b2);
    UnitAtStep(s3, H2, Shape(8, 2), 16, a4, c);
    UnitAtStep(s4, Step(Pow2(m), Vertical), Shape(8, 4), 32, r, c);
  }

  /** A byte offset 16 times a unit index is a whole number of units. */
  lemma Sixteenths(u: nat, x: nat)
    requires 16 * u == x
    ensures x % 16 == 0 && x / 16 == u
  {
    DivCancel(u, 16);
    ModCancel(u, 16);
  }

  /** The index `UnitAt` gives on 'nsw', in bytes, as a GOB offset. */
  lemma NswBits(r: nat, c: nat)
    requires c < 4
    ensures 16 * ((r / 8) * 32 + (c / 2) * 16 + (r % 8 / 2) * 4 + (c % 2 / 1) * 2 + r % 8 % 2 / 1 * 1) ==
      512 * (r / 8) + GobOffset(16 * c, r % 8)
  {
  }

  /** Cell `(r, c)` of a 'ps4' tile is read unit `ZOrder(r, c, 3)`. */
  lemma Ps4TileLayout(units: seq<ReadUnit>, r: nat, c: nat)
    requires |units| == 64 && r < 8 && c < 8
    ensures ZOrder(r, c, 3) < 64
    ensures r < |DeswizzleTileSpec(units, Ps4DeswizzleSteps)| && c < |DeswizzleTileSpec(units, Ps4DeswizzleSteps)[r]|
    ensures DeswizzleTileSpec(units, Ps4DeswizzleSteps)[r][c] == units[ZOrder(r, c, 3)]
  {
    Ps4Tables();
    TileCell(units, Ps4DeswizzleSteps, r, c);
    Ps4UnitAt(r, c);
  }

  /** Cell `(r, c)` of an 'nsw' tile in swizzle mode `m` is the read unit
      whose bytes start at the block-linear GOB offset of that cell. */
  lemma NswTileLayout(units: seq<ReadUnit>, m: nat, r: nat, c: nat)
    requires |units| == 32 * Pow2(m) && r < 8 * Pow2(m) && c < 4
    ensures Positive(NswDeswizzleSteps(m)) && Product(NswDeswizzleSteps(m)) == |units|
    ensures (512 * (r / 8) + GobOffset(16 * c, r % 8)) % 16 == 0
    ensures (512 * (r / 8) + GobOffset(16 * c, r % 8)) / 16 < |units|
    ensures r < |DeswizzleTileSpec(units, NswDeswizzleSteps(m))| && c < |DeswizzleTileSpec(units, NswDeswizzleSteps(m))[r]|
    ensures DeswizzleTileSpec(units, NswDeswizzleSteps(m))[r][c] == units[(512 * (r / 8) + GobOffset(16 * c, r % 8)) / 16]
  {
    NswTables(m);
    TileCell(units, NswDeswizzleSteps(m), r, c);
    NswUnitAt(m, r, c);
  }
}
