/** Two-dimensional grids of opaque elements and the two numpy operations the
    engines apply to them: `numpy.concatenate` of a list of grids along an axis,
    and `numpy.split` of one grid into equal parts along an axis.

    A grid is a sequence of rows. Axis 0 (`Vertical`) stacks grids on top of
    each other; axis 1 (`Horizontal`) joins them side by side, row by row.

    Both operations are modelled as total functions. Where numpy would raise
    (an empty list, grids of different heights, a split into unequal parts),
    the functions still return something; the engines never reach those cases,
    which the shape lemmas below and in module Steps establish. */
module Grids {
  import opened Arith

  type Grid<X> = seq<seq<X>>

  datatype Axis = Vertical | Horizontal

  datatype Shape = Shape(rows: nat, cols: nat)

  /** The shape of a grid made of `k` grids of shape `sh` joined along `axis`. */
  function Scale(sh: Shape, k: nat, axis: Axis): Shape {
    match axis
    case Vertical => Shape(k * sh.rows, sh.cols)
    case Horizontal => Shape(sh.rows, k * sh.cols)
  }

  ghost predicate HasShape<X>(g: Grid<X>, sh: Shape) {
    |g| == sh.rows && forall row :: row in g ==> |row| == sh.cols
  }

  ghost predicate AllHaveShape<X>(gs: seq<Grid<X>>, sh: Shape) {
    forall g :: g in gs ==> HasShape(g, sh)
  }

  /** Every element of the grid belongs to `S`. */
  ghost predicate ElemsIn<X>(g: Grid<X>, S: iset<X>) {
    forall row, x :: row in g && x in row ==> x in S
  }

  ghost predicate AllElemsIn<X>(gs: seq<Grid<X>>, S: iset<X>) {
    forall g :: g in gs ==> ElemsIn(g, S)
  }

  // ---------------------------------------------------------------------------
  // Sequences of sequences

  function Flatten<X>(ss: seq<seq<X>>): seq<X> {
    if ss == [] then [] else ss[0] + Flatten(ss[1..])
  }

  /** The first `k` consecutive pieces of length `n` of `s`. */
  function Chunks<X>(s: seq<X>, n: nat, k: nat): (r: seq<seq<X>>)
    requires n * k <= |s|
    ensures |r| == k
    ensures forall j :: 0 <= j < k ==> |r[j]| == n
    decreases k
  {
    if k == 0 then [] else [s[..n]] + Chunks(s[n..], n, k - 1)
  }

  lemma {:induction false} FlattenAppend<X>(a: seq<seq<X>>, b: seq<seq<X>>)
    ensures Flatten(a + b) == Flatten(a) + Flatten(b)
    decreases |a|
  {
    if a == [] {
      assert a + b == b;
    } else {
      assert (a + b)[1..] == a[1..] + b;
      FlattenAppend(a[1..], b);
    }
  }

  lemma {:induction false} FlattenLength<X>(ss: seq<seq<X>>, n: nat)
    requires forall j :: 0 <= j < |ss| ==> |ss[j]| == n
    ensures |Flatten(ss)| == n * |ss|
    decreases |ss|
  {
    if ss != [] {
      FlattenLength(ss[1..], n);
    }
  }

  lemma {:induction false} FlattenMember<X>(ss: seq<seq<X>>, x: X)
    requires x in Flatten(ss)
    ensures exists j :: 0 <= j < |ss| && x in ss[j]
    decreases |ss|
  {
    if x !in ss[0] {
      FlattenMember(ss[1..], x);
      var j :| 0 <= j < |ss[1..]| && x in ss[1..][j];
      assert x in ss[j + 1];
    }
  }

  /** Joining the pieces gives back the covered prefix. */
  lemma {:induction false} FlattenChunks<X>(s: seq<X>, n: nat, k: nat)
    requires n * k <= |s|
    ensures Flatten(Chunks(s, n, k)) == s[..n * k]
    decreases k
  {
    if k > 0 {
      FlattenChunks(s[n..], n, k - 1);
      assert s[..n * k] == s[..n] + s[n..][..n * (k - 1)];
    }
  }

  /** Joining all the pieces of an exact cut gives back the sequence. */
  lemma FlattenAllChunks<X>(s: seq<X>, n: nat, k: nat)
    requires n * k == |s|
    ensures Flatten(Chunks(s, n, k)) == s
  {
    FlattenChunks(s, n, k);
    assert s[..n * k] == s;
  }

  /** Cutting a join of equal-length pieces gives back the pieces. */
  lemma {:induction false} ChunksFlatten<X>(ps: seq<seq<X>>, n: nat)
    requires forall j :: 0 <= j < |ps| ==> |ps[j]| == n
    ensures |Flatten(ps)| == n * |ps|
    ensures Chunks(Flatten(ps), n, |ps|) == ps
    decreases |ps|
  {
    FlattenLength(ps, n);
    if ps != [] {
      ChunksFlatten(ps[1..], n);
      var f := Flatten(ps);
      assert f[..n] == ps[0];
      assert f[n..] == Flatten(ps[1..]);
    }
  }

  /** Piece `j` covers positions `[j*n, (j+1)*n)` of `s`. */
  lemma {:induction false} ChunkAt<X>(s: seq<X>, n: nat, k: nat, j: nat)
    requires n * k <= |s| && j < k
    ensures (j + 1) * n <= |s|
    ensures Chunks(s, n, k)[j] == s[j * n..(j + 1) * n]
    decreases k
  {
    if j > 0 {
      ChunkAt(s[n..], n, k - 1, j - 1);
      assert s[n..][(j - 1) * n..j * n] == s[j * n..(j + 1) * n];
    }
  }

  lemma {:induction false} ChunksMember<X>(s: seq<X>, n: nat, k: nat, j: nat, x: X)
    requires n * k <= |s| && j < k && x in Chunks(s, n, k)[j]
    ensures x in s
  {
    ChunkAt(s, n, k, j);
  }

  /** One more piece is the next `n` elements. */
  lemma ChunksSnoc<X>(s: seq<X>, n: nat, k: nat)
    requires n * (k + 1) <= |s|
    ensures Chunks(s, n, k + 1) == Chunks(s, n, k) + [s[k * n..(k + 1) * n]]
  {
    var a, b := Chunks(s, n, k + 1), Chunks(s, n, k) + [s[k * n..(k + 1) * n]];
    forall j | 0 <= j < k + 1 ensures a[j] == b[j] {
      ChunkAt(s, n, k + 1, j);
      if j < k {
        ChunkAt(s, n, k, j);
      }
    }
  }

  lemma FlattenSnoc<X>(ss: seq<seq<X>>, b: nat)
    requires b < |ss|
    ensures Flatten(ss[..b + 1]) == Flatten(ss[..b]) + ss[b]
  {
    assert ss[..b + 1] == ss[..b] + [ss[b]];
    FlattenAppend(ss[..b], [ss[b]]);
    assert Flatten([ss[b]]) == ss[b] + Flatten([]);
  }

  /** The pieces depend only on the prefix they cover. */
  lemma {:induction false} ChunksPrefix<X>(s: seq<X>, n: nat, k: nat, m: nat)
    requires n * k <= m <= |s|
    ensures Chunks(s[..m], n, k) == Chunks(s, n, k)
    decreases k
  {
    if k > 0 {
      assert s[..m][..n] == s[..n];
      assert s[..m][n..] == s[n..][..m - n];
      ChunksPrefix(s[n..], n, k - 1, m - n);
    }
  }

  /** Cutting from position `lo` on only looks at the `m` elements from
      there on: if they are `piece`, the pieces are those of `piece`. */
  lemma ChunksOfPiece<X>(s: seq<X>, lo: nat, m: nat, piece: seq<X>, n: nat, k: nat, parts: seq<seq<X>>)
    requires lo + m <= |s| && n * k <= m
    requires s[lo..lo + m] == piece && Chunks(piece, n, k) == parts
    ensures Chunks(s[lo..], n, k) == parts
  {
    ChunksPrefix(s[lo..], n, k, m);
    assert s[lo..][..m] == piece;
  }

  /** Group `i` of `m` consecutive pieces of length `n` is the `m` pieces
      cut from position `i * (m * n)` on. */
  lemma ChunksGroup<X>(s: seq<X>, n: nat, k: nat, m: nat, i: nat)
    requires n * (k * m) <= |s| && i < k
    ensures (i + 1) * m <= k * m && i * (m * n) + m * n <= |s|
    ensures Chunks(s, n, k * m)[i * m..(i + 1) * m] == Chunks(s[i * (m * n)..], n, m)
  {
    GroupBounds(n, k, m, i, |s|);
    var units := Chunks(s, n, k * m);
    var lo := i * (m * n);
    var group := units[i * m..(i + 1) * m];
    forall j | 0 <= j < m ensures group[j] == Chunks(s[lo..], n, m)[j] {
      ChunkInGroup(s, n, k, m, i, j);
    }
  }

  lemma ChunkInGroup<X>(s: seq<X>, n: nat, k: nat, m: nat, i: nat, j: nat)
    requires n * (k * m) <= |s| && i < k && j < m
    ensures i * m + j < k * m && i * (m * n) <= i * (m * n) + m * n <= |s|
    ensures Chunks(s, n, k * m)[i * m + j] == Chunks(s[i * (m * n)..], n, m)[j]
  {
    GroupBounds(n, k, m, i, |s|);
    MulNonneg(m, n);
    MulAddOne(i, m);
    var lo, b := i * (m * n), j * n;
    MulLinear(i, m, j, n);
    ChunkFrom(s, n, k * m, i * m + j, lo + b);
    ChunkFrom(s[lo..], n, m, j, b);
    DropSlice(s, lo, b, n);
  }

  /** `ChunkAt` with the start position named. */
  lemma ChunkFrom<X>(s: seq<X>, n: nat, k: nat, j: nat, a: nat)
    requires n * k <= |s| && j < k && a == j * n
    ensures a + n <= |s| && Chunks(s, n, k)[j] == s[a..a + n]
  {
    ChunkAt(s, n, k, j);
    MulAddOne(j, n);
  }

  /** Piece `j` cut from position `lo` on starts at `a = lo + j * n`. */
  lemma ChunkFromAt<X>(s: seq<X>, lo: nat, n: nat, k: nat, j: nat, a: nat)
    requires lo + k * n <= |s| && j < k && a == lo + j * n
    ensures a + n <= |s| && Chunks(s[lo..], n, k)[j] == s[a..a + n]
  {
    assert n * k <= |s[lo..]|;
    MulNonneg(j, n);
    ChunkFrom(s[lo..], n, k, j, j * n);
    DropSlice(s, lo, j * n, n);
  }

  /** Group `i` of the pieces grouped by `m` is the `m` pieces cut from
      position `lo = i * (m * n)` on. */
  lemma ChunksOfChunksAt<X>(s: seq<X>, n: nat, k: nat, m: nat, i: nat, lo: nat)
    requires k * m * n <= |s| && i < k && lo == i * (m * n)
    ensures m * k <= k * m && lo + m * n <= |s|
    ensures Chunks(Chunks(s, n, k * m), m, k)[i] == Chunks(s[lo..], n, m)
  {
    assert n * (k * m) == k * m * n;
    ChunksGroup(s, n, k, m, i);
    ChunkAt(Chunks(s, n, k * m), m, k, i);
  }

  /** In a join of pieces of length `n`, piece `c` sits at `[c*n, c*n + n)`. */
  lemma FlattenSlice<X>(ps: seq<seq<X>>, n: nat, c: nat)
    requires forall j :: 0 <= j < |ps| ==> |ps[j]| == n
    requires c < |ps|
    ensures c * n + n <= |Flatten(ps)|
    ensures Flatten(ps)[c * n..c * n + n] == ps[c]
  {
    ChunksFlatten(ps, n);
    MulNonneg(c, n);
    ChunkFrom(Flatten(ps), n, |ps|, c, c * n);
  }

  // ---------------------------------------------------------------------------
  // numpy.concatenate and numpy.split on 2-D grids

  function RowOr<X>(g: Grid<X>, i: nat): seq<X> {
    if i < |g| then g[i] else []
  }

  /** `numpy.concatenate(gs, axis=1)`: row `i` of the result is row `i` of
      every grid, joined left to right. The height is that of `gs[0]`. */
  function JoinColumns<X>(gs: seq<Grid<X>>): Grid<X> {
    if gs == [] then []
    else seq(|gs[0]|, i requires 0 <= i < |gs[0]| =>
           Flatten(seq(|gs|, j requires 0 <= j < |gs| => RowOr(gs[j], i))))
  }

  /** `numpy.concatenate(gs, axis)`. */
  function Concat<X>(gs: seq<Grid<X>>, axis: Axis): Grid<X> {
    match axis
    case Vertical => Flatten(gs)
    case Horizontal => JoinColumns(gs)
  }

  /** `numpy.split(g, k, axis)`: `k` parts of equal height (axis 0) or equal
      width (axis 1), in order. */
  function Split<X>(g: Grid<X>, k: nat, axis: Axis): (r: seq<Grid<X>>)
    requires k > 0
    ensures |r| == k
  {
    match axis
    case Vertical => Chunks(g, |g| / k, k)
    case Horizontal => seq(k, j requires 0 <= j < k => ColumnPart(g, k, j))
  }

  /** Part `j` of `numpy.split(g, k, axis=1)`: slice `j` of every row. */
  function ColumnPart<X>(g: Grid<X>, k: nat, j: nat): (p: Grid<X>)
    requires j < k
    ensures |p| == |g|
  {
    seq(|g|, i requires 0 <= i < |g| => Chunks(g[i], |g[i]| / k, k)[j])
  }

  /** Concatenation of `k` equally shaped grids has the scaled shape. */
  lemma ConcatShape<X>(gs: seq<Grid<X>>, k: nat, axis: Axis, sh: Shape)
    requires |gs| == k > 0 && AllHaveShape(gs, sh)
    ensures HasShape(Concat(gs, axis), Scale(sh, k, axis))
  {
    forall j | 0 <= j < |gs| ensures |gs[j]| == sh.rows {
      assert gs[j] in gs;
    }
    match axis
    case Vertical =>
      FlattenLength(gs, sh.rows);
      forall row | row in Flatten(gs) ensures |row| == sh.cols {
        FlattenMember(gs, row);
        var j :| 0 <= j < |gs| && row in gs[j];
        assert gs[j] in gs;
      }
    case Horizontal =>
      var c := JoinColumns(gs);
      forall row | row in c ensures |row| == k * sh.cols {
        var i :| 0 <= i < |c| && c[i] == row;
        var col := seq(|gs|, j requires 0 <= j < |gs| => RowOr(gs[j], i));
        forall j | 0 <= j < |col| ensures |col[j]| == sh.cols {
          assert gs[j] in gs && gs[j][i] in gs[j];
        }
        FlattenLength(col, sh.cols);
      }
  }

  lemma ConcatElems<X>(gs: seq<Grid<X>>, axis: Axis, S: iset<X>)
    requires AllElemsIn(gs, S)
    ensures ElemsIn(Concat(gs, axis), S)
  {
    var c := Concat(gs, axis);
    forall row, x | row in c && x in row ensures x in S {
      match axis
      case Vertical =>
        FlattenMember(gs, row);
        var j :| 0 <= j < |gs| && row in gs[j];
        assert gs[j] in gs;
      case Horizontal =>
        var i :| 0 <= i < |c| && c[i] == row;
        var col := seq(|gs|, j requires 0 <= j < |gs| => RowOr(gs[j], i));
        FlattenMember(col, x);
        var j :| 0 <= j < |col| && x in col[j];
        assert gs[j] in gs && gs[j][i] in gs[j];
    }
  }

  /** Every part of a split of a grid of the scaled shape has the shape. */
  lemma SplitShape<X>(g: Grid<X>, k: nat, axis: Axis, sh: Shape)
    requires k > 0 && HasShape(g, Scale(sh, k, axis))
    ensures AllHaveShape(Split(g, k, axis), sh)
  {
    var ps := Split(g, k, axis);
    match axis
    case Vertical =>
      DivCancel(sh.rows, k);
      forall p | p in ps ensures HasShape(p, sh) {
        var j :| 0 <= j < k && ps[j] == p;
        forall row | row in p ensures |row| == sh.cols {
          ChunksMember(g, sh.rows, k, j, row);
        }
      }
    case Horizontal =>
      DivCancel(sh.cols, k);
      forall p | p in ps ensures HasShape(p, sh) {
        var j :| 0 <= j < k && ps[j] == p;
        forall row | row in p ensures |row| == sh.cols {
          var i :| 0 <= i < |g| && p[i] == row;
          assert g[i] in g;
        }
      }
  }

  lemma SplitElems<X>(g: Grid<X>, k: nat, axis: Axis, S: iset<X>)
    requires k > 0 && ElemsIn(g, S)
    ensures AllElemsIn(Split(g, k, axis), S)
  {
    var ps := Split(g, k, axis);
    forall j | 0 <= j < k ensures ElemsIn(ps[j], S) {
      SplitPartElems(g, k, axis, S, j);
    }
  }

  lemma SplitPartElems<X>(g: Grid<X>, k: nat, axis: Axis, S: iset<X>, j: nat)
    requires k > 0 && ElemsIn(g, S) && j < k
    ensures ElemsIn(Split(g, k, axis)[j], S)
  {
    match axis
    case Vertical =>
      var p := Chunks(g, |g| / k, k)[j];
      forall row | row in p ensures row in g {
        ChunksMember(g, |g| / k, k, j, row);
      }
    case Horizontal =>
      var p := ColumnPart(g, k, j);
      forall i | 0 <= i < |p| ensures forall x :: x in p[i] ==> x in S {
        ColumnPartRowElems(g, k, j, i, S);
      }
  }

  lemma ColumnPartRowElems<X>(g: Grid<X>, k: nat, j: nat, i: nat, S: iset<X>)
    requires k > 0 && ElemsIn(g, S) && j < k && i < |g|
    ensures forall x :: x in ColumnPart(g, k, j)[i] ==> x in S
  {
    var n := |g[i]| / k;
    DivFloor(|g[i]|, k);
    assert g[i] in g;
    forall x | x in Chunks(g[i], n, k)[j] ensures x in S {
      ChunksMember(g[i], n, k, j, x);
    }
  }

  /** `split` with `k` parts along an axis undoes `concatenate` of `k`
      equally shaped grids along the same axis. */
  lemma SplitConcat<X>(gs: seq<Grid<X>>, k: nat, axis: Axis, sh: Shape)
    requires |gs| == k > 0 && AllHaveShape(gs, sh)
    ensures Split(Concat(gs, axis), k, axis) == gs
  {
    forall j | 0 <= j < |gs| ensures |gs[j]| == sh.rows {
      assert gs[j] in gs;
    }
    match axis
    case Vertical =>
      ChunksFlatten(gs, sh.rows);
      DivCancel(sh.rows, k);
    case Horizontal =>
      SplitJoinColumns(gs, k, sh);
  }

  lemma SplitJoinColumns<X>(gs: seq<Grid<X>>, k: nat, sh: Shape)
    requires |gs| == k > 0 && AllHaveShape(gs, sh)
    requires forall j :: 0 <= j < |gs| ==> |gs[j]| == sh.rows
    ensures Split(JoinColumns(gs), k, Horizontal) == gs
  {
    var c := JoinColumns(gs);
    var ps := Split(c, k, Horizontal);
    forall j | 0 <= j < k ensures ps[j] == gs[j] {
      assert ps[j] == ColumnPart(c, k, j);
      forall i | 0 <= i < sh.rows ensures ps[j][i] == gs[j][i] {
        ColumnPartOfJoin(gs, k, sh, j, i);
      }
    }
  }

  /** Row `i` of part `j` of a split of a side-by-side join is row `i` of
      grid `j`. */
  lemma ColumnPartOfJoin<X>(gs: seq<Grid<X>>, k: nat, sh: Shape, j: nat, i: nat)
    requires |gs| == k > 0 && AllHaveShape(gs, sh)
    requires forall j :: 0 <= j < |gs| ==> |gs[j]| == sh.rows
    requires j < k && i < sh.rows
    ensures i < |ColumnPart(JoinColumns(gs), k, j)| && ColumnPart(JoinColumns(gs), k, j)[i] == gs[j][i]
  {
    var c := JoinColumns(gs);
    var col := seq(|gs|, j' requires 0 <= j' < |gs| => RowOr(gs[j'], i));
    forall j' | 0 <= j' < |col| ensures col[j'] == gs[j'][i] && |col[j']| == sh.cols {
      assert gs[j'] in gs && gs[j'][i] in gs[j'];
    }
    assert c[i] == Flatten(col);
    ChunksFlatten(col, sh.cols);
    DivCancel(sh.cols, k);
  }

  /** `concatenate` along an axis undoes `split` into `k` parts along it. */
  lemma ConcatSplit<X>(g: Grid<X>, k: nat, axis: Axis, sh: Shape)
    requires k > 0 && HasShape(g, Scale(sh, k, axis))
    ensures Concat(Split(g, k, axis), axis) == g
  {
    match axis
    case Vertical =>
      DivCancel(sh.rows, k);
      FlattenChunks(g, sh.rows, k);
    case Horizontal =>
      JoinColumnsSplit(g, k, sh);
  }

  lemma JoinColumnsSplit<X>(g: Grid<X>, k: nat, sh: Shape)
    requires k > 0 && HasShape(g, Scale(sh, k, Horizontal))
    ensures JoinColumns(Split(g, k, Horizontal)) == g
  {
    var ps := Split(g, k, Horizontal);
    var c := JoinColumns(ps);
    DivCancel(sh.cols, k);
    forall i | 0 <= i < |g| ensures c[i] == g[i] {
      assert g[i] in g;
      var col := seq(k, j requires 0 <= j < k => RowOr(ps[j], i));
      assert col == Chunks(g[i], sh.cols, k);
      FlattenChunks(g[i], sh.cols, k);
    }
  }

  // ---------------------------------------------------------------------------
  // The engines' list operations: concatenate consecutive groups of `k` grids,
  // and split every grid of a list into `k` parts.

  /** Consecutive groups of `k` grids, each concatenated along `axis`; a
      trailing group of fewer than `k` grids is dropped. */
  function ConcatGroups<X>(gs: seq<Grid<X>>, k: nat, axis: Axis): (r: seq<Grid<X>>)
    requires k > 0
    ensures |r| == |gs| / k
    decreases |gs|
  {
    DivStep(|gs|, k);
    if |gs| < k then [] else [Concat(gs[..k], axis)] + ConcatGroups(gs[k..], k, axis)
  }

  /** Every grid split into `k` parts, the parts kept in order. */
  function SplitAll<X>(gs: seq<Grid<X>>, k: nat, axis: Axis): (r: seq<Grid<X>>)
    requires k > 0
    ensures |r| == k * |gs|
    decreases |gs|
  {
    if gs == [] then [] else Split(gs[0], k, axis) + SplitAll(gs[1..], k, axis)
  }

  lemma {:induction false} ConcatGroupsShape<X>(gs: seq<Grid<X>>, k: nat, axis: Axis, sh: Shape)
    requires k > 0 && AllHaveShape(gs, sh)
    ensures AllHaveShape(ConcatGroups(gs, k, axis), Scale(sh, k, axis))
    decreases |gs|
  {
    if |gs| >= k {
      ConcatShape(gs[..k], k, axis, sh);
      ConcatGroupsShape(gs[k..], k, axis, sh);
    }
  }

  lemma {:induction false} ConcatGroupsElems<X>(gs: seq<Grid<X>>, k: nat, axis: Axis, S: iset<X>)
    requires k > 0 && AllElemsIn(gs, S)
    ensures AllElemsIn(ConcatGroups(gs, k, axis), S)
    decreases |gs|
  {
    if |gs| >= k {
      ConcatElems(gs[..k], axis, S);
      ConcatGroupsElems(gs[k..], k, axis, S);
    }
  }

  lemma {:induction false} SplitAllShape<X>(gs: seq<Grid<X>>, k: nat, axis: Axis, sh: Shape)
    requires k > 0 && AllHaveShape(gs, Scale(sh, k, axis))
    ensures AllHaveShape(SplitAll(gs, k, axis), sh)
    decreases |gs|
  {
    if gs != [] {
      SplitShape(gs[0], k, axis, sh);
      SplitAllShape(gs[1..], k, axis, sh);
    }
  }

  lemma {:induction false} SplitAllElems<X>(gs: seq<Grid<X>>, k: nat, axis: Axis, S: iset<X>)
    requires k > 0 && AllElemsIn(gs, S)
    ensures AllElemsIn(SplitAll(gs, k, axis), S)
    decreases |gs|
  {
    if gs != [] {
      SplitElems(gs[0], k, axis, S);
      SplitAllElems(gs[1..], k, axis, S);
    }
  }

  /** A group as large as the whole list concatenates the whole list. */
  lemma ConcatGroupsWhole<X>(gs: seq<Grid<X>>, axis: Axis)
    requires |gs| > 0
    ensures ConcatGroups(gs, |gs|, axis) == [Concat(gs, axis)]
  {
    assert gs[..|gs|] == gs;
    assert ConcatGroups(gs[|gs|..], |gs|, axis) == [];
  }

  /** Group `j` is made of grids `[j*k, (j+1)*k)`. */
  lemma ConcatGroupsAt<X>(gs: seq<Grid<X>>, k: nat, axis: Axis, j: nat)
    requires k > 0 && j < |gs| / k
    ensures j * k + k <= |gs|
    ensures ConcatGroups(gs, k, axis)[j] == Concat(gs[j * k..j * k + k], axis)
  {
    ConcatGroupsFrom(gs, k, axis, j, j * k);
  }

  /** `ConcatGroupsAt` with the start position `lo = j * k` named. */
  lemma {:induction false} ConcatGroupsFrom<X>(gs: seq<Grid<X>>, k: nat, axis: Axis, j: nat, lo: nat)
    requires k > 0 && j < |gs| / k && lo == j * k
    ensures lo + k <= |gs|
    ensures ConcatGroups(gs, k, axis)[j] == Concat(gs[lo..lo + k], axis)
    decreases j
  {
    if j == 0 {
      DivStep(|gs|, k);
      assert ConcatGroups(gs, k, axis)[0] == Concat(gs[..k], axis);
    } else {
      ConcatGroupsTail(gs, k, axis, j);
      MulAddOne(j - 1, k);
      MulNonneg(j - 1, k);
      var lo' := lo - k;
      assert lo' == (j - 1) * k;
      ConcatGroupsFrom(gs[k..], k, axis, j - 1, lo');
      DropSlice(gs, k, lo', k);
    }
  }

  lemma DropSlice<X>(s: seq<X>, d: nat, lo: nat, n: nat)
    requires d + lo + n <= |s|
    ensures s[d..][lo..lo + n] == s[d + lo..d + lo + n]
  {
  }

  /** Past the first group, the groups are those of the rest of the list. */
  lemma ConcatGroupsTail<X>(gs: seq<Grid<X>>, k: nat, axis: Axis, j: nat)
    requires k > 0 && 0 < j < |gs| / k
    ensures k <= |gs| && j - 1 < |gs[k..]| / k
    ensures ConcatGroups(gs, k, axis)[j] == ConcatGroups(gs[k..], k, axis)[j - 1]
  {
    DivStep(|gs|, k);
  }

  lemma {:induction false} SplitAllAppend<X>(gs: seq<Grid<X>>, hs: seq<Grid<X>>, k: nat, axis: Axis)
    requires k > 0
    ensures SplitAll(gs + hs, k, axis) == SplitAll(gs, k, axis) + SplitAll(hs, k, axis)
    decreases |gs|
  {
    if gs == [] {
      assert gs + hs == hs;
    } else {
      assert (gs + hs)[1..] == gs[1..] + hs;
      SplitAllAppend(gs[1..], hs, k, axis);
    }
  }

  /** Splitting one more grid appends its parts. */
  lemma SplitAllSnoc<X>(gs: seq<Grid<X>>, g: Grid<X>, k: nat, axis: Axis)
    requires k > 0
    ensures SplitAll(gs + [g], k, axis) == SplitAll(gs, k, axis) + Split(g, k, axis)
  {
    SplitAllAppend(gs, [g], k, axis);
    SplitAllCons([g], k, axis);
    assert [g][1..] == [];
    assert Split(g, k, axis) + SplitAll([], k, axis) == Split(g, k, axis);
  }

  /** Part `c` of grid `j` is element `j*k + c` of the split list. */
  lemma SplitAllAt<X>(gs: seq<Grid<X>>, k: nat, axis: Axis, j: nat, c: nat)
    requires k > 0 && j < |gs| && c < k
    ensures j * k + c < |SplitAll(gs, k, axis)|
    ensures SplitAll(gs, k, axis)[j * k + c] == Split(gs[j], k, axis)[c]
  {
    MulNonneg(j, k);
    SplitAllFrom(gs, k, axis, j, c, j * k + c);
  }

  /** `SplitAllAt` with the position `at = j*k + c` named. */
  lemma {:induction false} SplitAllFrom<X>(gs: seq<Grid<X>>, k: nat, axis: Axis, j: nat, c: nat, at: nat)
    requires k > 0 && j < |gs| && c < k && at == j * k + c
    ensures at < |SplitAll(gs, k, axis)|
    ensures SplitAll(gs, k, axis)[at] == Split(gs[j], k, axis)[c]
    decreases j
  {
    var head, rest := Split(gs[0], k, axis), SplitAll(gs[1..], k, axis);
    SplitAllCons(gs, k, axis);
    if j == 0 {
      assert at == c;
      AppendLeft(head, rest, c);
    } else {
      MulAddOne(j - 1, k);
      MulNonneg(j - 1, k);
      SplitAllFrom(gs[1..], k, axis, j - 1, c, at - k);
      AppendRight(head, rest, at - k);
      assert |head| + (at - k) == at;
      assert gs[1..][j - 1] == gs[j];
    }
  }

  lemma ConcatGroupsHead<X>(gs: seq<Grid<X>>, k: nat, axis: Axis)
    requires k > 0 && |gs| >= k
    ensures ConcatGroups(gs, k, axis) == [Concat(gs[..k], axis)] + ConcatGroups(gs[k..], k, axis)
  {
  }

  lemma SplitAllCons<X>(gs: seq<Grid<X>>, k: nat, axis: Axis)
    requires k > 0 && gs != []
    ensures SplitAll(gs, k, axis) == Split(gs[0], k, axis) + SplitAll(gs[1..], k, axis)
  {
  }

  lemma AppendLeft<X>(a: seq<X>, b: seq<X>, i: nat)
    requires i < |a|
    ensures (a + b)[i] == a[i]
  {
  }

  lemma AppendRight<X>(a: seq<X>, b: seq<X>, i: nat)
    requires i < |b|
    ensures (a + b)[|a| + i] == b[i]
  {
  }

  /** Splitting every group back into `k` parts recovers a list of equally
      shaped grids whose length is a multiple of `k`. */
  lemma {:induction false} SplitAllConcatGroups<X>(gs: seq<Grid<X>>, k: nat, axis: Axis, sh: Shape, n: nat)
    requires k > 0 && |gs| == n * k && AllHaveShape(gs, sh)
    ensures SplitAll(ConcatGroups(gs, k, axis), k, axis) == gs
    decreases n
  {
    if n > 0 {
      assert |gs| >= k by { MulStep(k, 0, n); }
      assert |gs[k..]| == (n - 1) * k;
      SplitConcat(gs[..k], k, axis, sh);
      SplitAllConcatGroups(gs[k..], k, axis, sh, n - 1);
      assert gs == gs[..k] + gs[k..];
    }
  }

  /** Concatenating the parts of every split grid, group by group, recovers
      the list. */
  lemma {:induction false} ConcatGroupsSplitAll<X>(gs: seq<Grid<X>>, k: nat, axis: Axis, sh: Shape)
    requires k > 0 && AllHaveShape(gs, Scale(sh, k, axis))
    ensures ConcatGroups(SplitAll(gs, k, axis), k, axis) == gs
    decreases |gs|
  {
    if gs != [] {
      var ps := Split(gs[0], k, axis);
      var rest := SplitAll(gs[1..], k, axis);
      SplitAllCons(gs, k, axis);
      ConcatGroupsHead(ps + rest, k, axis);
      assert (ps + rest)[..k] == ps && (ps + rest)[k..] == rest;
      ConcatSplit(gs[0], k, axis, sh);
      ConcatGroupsSplitAll(gs[1..], k, axis, sh);
      assert gs == [gs[0]] + gs[1..];
    }
  }
}
