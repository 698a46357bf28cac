/** Permutation step lists: the ordered `(group_size, axis)` pairs that the
    deswizzler applies as merges (`__concat_arrays`, one call per step) and the
    swizzler applies as splits (`__split_arrays`, one call per step).

    The two round trips below are the heart of the model: a list of equally
    shaped grids merged by a step list is recovered by splitting along the
    reversed list, and a grid split by a step list is recovered by merging
    along the reversed list. */
module Steps {
  import opened Arith
  import opened Grids

  datatype Step = Step(groupSize: nat, axis: Axis)

  /** Every group size is positive, so no merge or split divides by zero. */
  predicate Positive(st: seq<Step>) {
    forall s :: s in st ==> s.groupSize > 0
  }

  function Product(st: seq<Step>): nat {
    if st == [] then 1 else st[0].groupSize * Product(st[1..])
  }

  function Reverse<X>(s: seq<X>): (r: seq<X>)
    ensures |r| == |s|
    ensures forall i :: 0 <= i < |s| ==> r[i] == s[|s| - 1 - i]
  {
    if s == [] then [] else Reverse(s[1..]) + [s[0]]
  }

  /** Fold of `ConcatGroups` over the steps, in order (the loop of
      `__deswizzle_tile`). */
  function Merge<X>(gs: seq<Grid<X>>, st: seq<Step>): seq<Grid<X>>
    requires Positive(st)
    decreases |st|
  {
    if st == [] then gs
    else Merge(ConcatGroups(gs, st[0].groupSize, st[0].axis), st[1..])
  }

  /** Fold of `SplitAll` over the steps, in order (the loop of
      `__swizzle_tile`). */
  function SplitSteps<X>(gs: seq<Grid<X>>, st: seq<Step>): seq<Grid<X>>
    requires Positive(st)
    decreases |st|
  {
    if st == [] then gs
    else SplitSteps(SplitAll(gs, st[0].groupSize, st[0].axis), st[1..])
  }

  /** The shape of every grid once grids of shape `sh` are merged by `st`. */
  function ShapeAfterMerge(sh: Shape, st: seq<Step>): Shape
    decreases |st|
  {
    if st == [] then sh
    else ShapeAfterMerge(Scale(sh, st[0].groupSize, st[0].axis), st[1..])
  }

  /** The shape grids must have for a split by `st` to leave grids of shape `sh`. */
  function ShapeBeforeSplit(sh: Shape, st: seq<Step>): Shape
    decreases |st|
  {
    if st == [] then sh
    else Scale(ShapeBeforeSplit(sh, st[1..]), st[0].groupSize, st[0].axis)
  }

  // ---------------------------------------------------------------------------
  // Lemmas about step lists

  lemma {:induction false} ReverseReverse<X>(s: seq<X>)
    ensures Reverse(Reverse(s)) == s
  {
    var r := Reverse(Reverse(s));
    assert |r| == |s|;
    forall i | 0 <= i < |s| ensures r[i] == s[i] {
      assert Reverse(s)[|s| - 1 - i] == s[i];
    }
  }

  lemma PositiveReverse(st: seq<Step>)
    requires Positive(st)
    ensures Positive(Reverse(st))
  {
    forall s | s in Reverse(st) ensures s.groupSize > 0 {
      var i :| 0 <= i < |st| && Reverse(st)[i] == s;
      assert st[|st| - 1 - i] in st;
    }
  }

  lemma PositivePrefix(st: seq<Step>, n: nat)
    requires Positive(st) && n <= |st|
    ensures Positive(st[..n])
  {
    forall s | s in st[..n] ensures s.groupSize > 0 {
      assert s in st;
    }
  }

  lemma {:induction false} MergeSnoc<X>(gs: seq<Grid<X>>, st: seq<Step>, s: Step)
    requires Positive(st + [s])
    ensures Positive(st) && s.groupSize > 0
    ensures Merge(gs, st + [s]) == ConcatGroups(Merge(gs, st), s.groupSize, s.axis)
    decreases |st|
  {
    assert s in st + [s];
    assert forall x :: x in st ==> x in st + [s];
    if st != [] {
      assert (st + [s])[1..] == st[1..] + [s];
      MergeSnoc(ConcatGroups(gs, st[0].groupSize, st[0].axis), st[1..], s);
    } else {
      assert (st + [s])[1..] == [];
    }
  }

  lemma {:induction false} SplitStepsSnoc<X>(gs: seq<Grid<X>>, st: seq<Step>, s: Step)
    requires Positive(st + [s])
    ensures Positive(st) && s.groupSize > 0
    ensures SplitSteps(gs, st + [s]) == SplitAll(SplitSteps(gs, st), s.groupSize, s.axis)
    decreases |st|
  {
    assert s in st + [s];
    assert forall x :: x in st ==> x in st + [s];
    if st != [] {
      assert (st + [s])[1..] == st[1..] + [s];
      SplitStepsSnoc(SplitAll(gs, st[0].groupSize, st[0].axis), st[1..], s);
    } else {
      assert (st + [s])[1..] == [];
    }
  }

  lemma {:induction false} ShapeBeforeSplitSnoc(sh: Shape, st: seq<Step>, s: Step)
    ensures ShapeBeforeSplit(sh, st + [s]) == ShapeBeforeSplit(Scale(sh, s.groupSize, s.axis), st)
    decreases |st|
  {
    if st == [] {
      assert (st + [s])[1..] == [];
    } else {
      assert (st + [s])[1..] == st[1..] + [s];
      ShapeBeforeSplitSnoc(sh, st[1..], s);
    }
  }

  /** Splitting by the reversed list starts from the shape that merging by
      the list produces. */
  lemma {:induction false} ShapeBeforeSplitReverse(sh: Shape, st: seq<Step>)
    ensures ShapeBeforeSplit(sh, Reverse(st)) == ShapeAfterMerge(sh, st)
    decreases |st|
  {
    if st != [] {
      ShapeBeforeSplitSnoc(sh, Reverse(st[1..]), st[0]);
      ShapeBeforeSplitReverse(Scale(sh, st[0].groupSize, st[0].axis), st[1..]);
    }
  }

  lemma ScaleArea(sh: Shape, k: nat, axis: Axis)
    ensures Scale(sh, k, axis).rows * Scale(sh, k, axis).cols == k * (sh.rows * sh.cols)
  {
    MulRearrange(sh.rows, k, sh.cols);
  }

  /** Merging multiplies the number of elements of a grid by the product of
      the group sizes. */
  lemma {:induction false} MergeArea(sh: Shape, st: seq<Step>)
    ensures ShapeAfterMerge(sh, st).rows * ShapeAfterMerge(sh, st).cols == (sh.rows * sh.cols) * Product(st)
    decreases |st|
  {
    if st != [] {
      var k, a := st[0].groupSize, st[0].axis;
      ScaleArea(sh, k, a);
      MergeArea(Scale(sh, k, a), st[1..]);
      MulRearrange(k, sh.rows * sh.cols, Product(st[1..]));
    }
  }

  /** A grid that a split by `st` cuts into grids of shape `sh` holds
      `Product(st)` times as many elements. */
  lemma {:induction false} SplitArea(sh: Shape, st: seq<Step>)
    ensures ShapeBeforeSplit(sh, st).rows * ShapeBeforeSplit(sh, st).cols == (sh.rows * sh.cols) * Product(st)
    decreases |st|
  {
    if st != [] {
      var k, a, rest := st[0].groupSize, st[0].axis, st[1..];
      var inner := ShapeBeforeSplit(sh, rest);
      var area, p := sh.rows * sh.cols, Product(rest);
      SplitArea(sh, rest);
      assert inner.rows * inner.cols == area * p;
      ScaleArea(inner, k, a);
      assert ShapeBeforeSplit(sh, st) == Scale(inner, k, a);
      assert Product(st) == k * p;
      MulSwap(k, area, p);
    }
  }

  /** Merging `n * Product(st)` grids of one shape leaves `n` grids of the
      merged shape. */
  lemma {:induction false} MergeShape<X>(gs: seq<Grid<X>>, st: seq<Step>, sh: Shape, n: nat)
    requires Positive(st) && AllHaveShape(gs, sh) && |gs| == n * Product(st)
    ensures |Merge(gs, st)| == n
    ensures AllHaveShape(Merge(gs, st), ShapeAfterMerge(sh, st))
    decreases |st|
  {
    if st != [] {
      var k, a := st[0].groupSize, st[0].axis;
      assert st[0] in st;
      var m := n * Product(st[1..]);
      assert |gs| == k * m;
      DivCancel(m, k);
      ConcatGroupsShape(gs, k, a, sh);
      MergeShape(ConcatGroups(gs, k, a), st[1..], Scale(sh, k, a), n);
    }
  }

  /** Splitting grids of the shape `ShapeBeforeSplit(sh, st)` by `st` leaves
      `Product(st)` grids of shape `sh` for each. */
  lemma {:induction false} SplitStepsShape<X>(gs: seq<Grid<X>>, st: seq<Step>, sh: Shape)
    requires Positive(st) && AllHaveShape(gs, ShapeBeforeSplit(sh, st))
    ensures |SplitSteps(gs, st)| == |gs| * Product(st)
    ensures AllHaveShape(SplitSteps(gs, st), sh)
    decreases |st|
  {
    if st != [] {
      var k, a := st[0].groupSize, st[0].axis;
      assert st[0] in st;
      SplitAllShape(gs, k, a, ShapeBeforeSplit(sh, st[1..]));
      SplitStepsShape(SplitAll(gs, k, a), st[1..], sh);
      MulRearrange(k, |gs|, Product(st[1..]));
    }
  }

  lemma {:induction false} MergeElems<X>(gs: seq<Grid<X>>, st: seq<Step>, S: iset<X>)
    requires Positive(st) && AllElemsIn(gs, S)
    ensures AllElemsIn(Merge(gs, st), S)
    decreases |st|
  {
    if st != [] {
      assert st[0] in st;
      ConcatGroupsElems(gs, st[0].groupSize, st[0].axis, S);
      MergeElems(ConcatGroups(gs, st[0].groupSize, st[0].axis), st[1..], S);
    }
  }

  lemma {:induction false} SplitStepsElems<X>(gs: seq<Grid<X>>, st: seq<Step>, S: iset<X>)
    requires Positive(st) && AllElemsIn(gs, S)
    ensures AllElemsIn(SplitSteps(gs, st), S)
    decreases |st|
  {
    if st != [] {
      assert st[0] in st;
      SplitAllElems(gs, st[0].groupSize, st[0].axis, S);
      SplitStepsElems(SplitAll(gs, st[0].groupSize, st[0].axis), st[1..], S);
    }
  }

  /** Splitting along the reversed step list undoes a merge along the list. */
  lemma {:induction false} SplitUndoesMerge<X>(gs: seq<Grid<X>>, st: seq<Step>, sh: Shape, n: nat)
    requires Positive(st) && AllHaveShape(gs, sh) && |gs| == n * Product(st)
    ensures Positive(Reverse(st))
    ensures SplitSteps(Merge(gs, st), Reverse(st)) == gs
    decreases |st|
  {
    PositiveReverse(st);
    if st != [] {
      var s, rest := st[0], st[1..];
      var k, a := s.groupSize, s.axis;
      assert s in st;
      var m := n * Product(rest);
      assert |gs| == m * k;
      DivCancel(m, k);
      var merged := ConcatGroups(gs, k, a);
      ConcatGroupsShape(gs, k, a, sh);
      SplitUndoesMerge(merged, rest, Scale(sh, k, a), n);
      assert Reverse(st) == Reverse(rest) + [s];
      SplitStepsSnoc(Merge(merged, rest), Reverse(rest), s);
      SplitAllConcatGroups(gs, k, a, sh, m);
    }
  }

  /** Merging along the reversed step list undoes a split along the list. */
  lemma {:induction false} MergeUndoesSplit<X>(gs: seq<Grid<X>>, st: seq<Step>, sh: Shape)
    requires Positive(st) && AllHaveShape(gs, ShapeBeforeSplit(sh, st))
    ensures Positive(Reverse(st))
    ensures Merge(SplitSteps(gs, st), Reverse(st)) == gs
    decreases |st|
  {
    PositiveReverse(st);
    if st != [] {
      var s, rest := st[0], st[1..];
      var k, a := s.groupSize, s.axis;
      assert s in st;
      var parts := SplitAll(gs, k, a);
      SplitAllShape(gs, k, a, ShapeBeforeSplit(sh, rest));
      MergeUndoesSplit(parts, rest, sh);
      assert Reverse(st) == Reverse(rest) + [s];
      MergeSnoc(SplitSteps(parts, rest), Reverse(rest), s);
      ConcatGroupsSplitAll(gs, k, a, ShapeBeforeSplit(sh, rest));
    }
  }
}
