/** Which rows of the input table lie inside a box. */
module Membership {
  import opened Common
  import opened Boxes

  /** pandas refuses to remove categories a column does not have: raised
      when the box excludes some category of the column and also allows a
      label that is not one of its categories. */
  datatype InBoxError = LabelNotInCategories

  /** Every column of `x` has a limit of its own kind in `box`, found by name. */
  predicate BoxCovers(x: Frame, box: Box)
  {
    ValidFrame(x) && ValidBox(box) &&
    forall c :: 0 <= c < |x.cols| ==>
      x.names[c] in box.names && Matches(x.cols[c], Lookup(box, x.names[c]))
  }

  /** Column `col` is categorical, the box excludes one of its categories,
      and the box allows a label that is not among them. */
  predicate Refused(col: Column, l: Limit)
  {
    col.CatCol? && l.Cat? && !(col.categories <= l.labels) && !(l.labels <= col.categories)
  }

  predicate SomeRefused(x: Frame, box: Box)
    requires BoxCovers(x, box)
  {
    exists c :: 0 <= c < |x.cols| && Refused(x.cols[c], Lookup(box, x.names[c]))
  }

  /** Row `i` satisfies the limit on column `c`. */
  predicate ColumnAdmits(x: Frame, box: Box, c: nat, i: nat)
    requires BoxCovers(x, box) && c < |x.cols| && i < x.n
  {
    assert ValidColumn(x.cols[c], x.n);
    Admits(Lookup(box, x.names[c]), x.cols[c], i)
  }

  /** Row `i` satisfies the limits on the first `k` columns. */
  predicate RowInPrefix(x: Frame, box: Box, i: nat, k: nat)
    requires BoxCovers(x, box) && k <= |x.cols| && i < x.n
  {
    forall c :: 0 <= c < k ==> ColumnAdmits(x, box, c, i)
  }

  lemma PrefixStep(x: Frame, box: Box, i: nat, k: nat)
    requires BoxCovers(x, box) && k < |x.cols| && i < x.n
    ensures RowInPrefix(x, box, i, k + 1) <==> RowInPrefix(x, box, i, k) && ColumnAdmits(x, box, k, i)
  {
  }

  /** Row `i` lies inside `box`: inside every numeric interval, bounds
      included, and with an allowed label in every categorical column. */
  predicate RowIn(x: Frame, box: Box, i: nat)
    requires BoxCovers(x, box) && i < x.n
  {
    RowInPrefix(x, box, i, |x.cols|)
  }

  /** The membership mask of the rows of `x` for `box`. The original first
      narrows the mask over the numeric columns and then over the others;
      the conjunction does not depend on that order, so one pass over the
      columns in table order is taken here. A categorical column that
      excludes none of its categories is skipped. */
  method InBox(x: Frame, box: Box) returns (r: Result<seq<bool>, InBoxError>)
    requires BoxCovers(x, box)
    ensures r.Err? <==> SomeRefused(x, box)
    ensures r.Ok? ==> |r.value| == x.n && forall i :: 0 <= i < x.n ==> (r.value[i] <==> RowIn(x, box, i))
  {
    var logical := new bool[x.n](_ => true);
    for c := 0 to |x.cols|
      invariant forall i :: 0 <= i < x.n ==> (logical[i] <==> RowInPrefix(x, box, i, c))
      invariant forall k :: 0 <= k < c ==> !Refused(x.cols[k], Lookup(box, x.names[k]))
    {
      ghost var before := logical[..];
      var ok := NarrowByColumn(logical, x, box, c);
      if !ok {
        return Err(LabelNotInCategories);
      }
      forall j | 0 <= j < x.n
        ensures logical[j] <==> RowInPrefix(x, box, j, c + 1)
      {
        assert before[j] <==> RowInPrefix(x, box, j, c);
        PrefixStep(x, box, j, c);
      }
    }
    r := Ok(logical[..]);
  }

  /** Narrows the mask by the limit on column `c`; false when pandas
      refuses the label set. */
  method NarrowByColumn(logical: array<bool>, x: Frame, box: Box, c: nat) returns (ok: bool)
    requires BoxCovers(x, box) && c < |x.cols| && logical.Length == x.n
    modifies logical
    ensures ok <==> !Refused(x.cols[c], Lookup(box, x.names[c]))
    ensures ok ==> forall j :: 0 <= j < x.n ==> (logical[j] <==> old(logical[j]) && ColumnAdmits(x, box, c, j))
  {
    var lim := Lookup(box, x.names[c]);
    assert ValidColumn(x.cols[c], x.n);
    match x.cols[c] {
      case NumCol(vs) =>
        NarrowToInterval(logical, vs, lim.lo, lim.hi);
        ok := true;
        assert forall j :: 0 <= j < x.n ==> (ColumnAdmits(x, box, c, j) <==> lim.lo <= vs[j] <= lim.hi);
      case CatCol(vs, categories) =>
        var notPresent := categories - lim.labels;
        ok := true;
        if notPresent != {} {
          if !(lim.labels <= categories) {
            ok := false;
          } else {
            NarrowToLabels(logical, vs, lim.labels);
            assert forall j :: 0 <= j < x.n ==> (ColumnAdmits(x, box, c, j) <==> vs[j] in lim.labels);
          }
        } else {
          forall u | u in categories ensures u in lim.labels {
            assert u !in notPresent;
          }
          assert forall j :: 0 <= j < x.n ==> vs[j] in categories && ColumnAdmits(x, box, c, j);
        }
    }
  }

  /** Keeps in the mask only the rows whose value lies in [lower, upper]. */
  method NarrowToInterval(logical: array<bool>, vs: seq<real>, lower: real, upper: real)
    requires logical.Length == |vs|
    modifies logical
    ensures forall j :: 0 <= j < |vs| ==> (logical[j] <==> old(logical[j]) && lower <= vs[j] <= upper)
  {
    for i := 0 to |vs|
      invariant forall j :: 0 <= j < i ==> (logical[j] <==> old(logical[j]) && lower <= vs[j] <= upper)
      invariant forall j :: i <= j < |vs| ==> logical[j] == old(logical[j])
    {
      logical[i] := logical[i] && lower <= vs[i] && vs[i] <= upper;
    }
  }

  /** Keeps in the mask only the rows whose label is allowed: the allowed
      labels are removed from the categories and the rows that became
      missing are the ones kept. */
  method NarrowToLabels(logical: array<bool>, vs: seq<string>, allowed: set<string>)
    requires logical.Length == |vs|
    modifies logical
    ensures forall j :: 0 <= j < |vs| ==> (logical[j] <==> old(logical[j]) && vs[j] in allowed)
  {
    for i := 0 to |vs|
      invariant forall j :: 0 <= j < i ==> (logical[j] <==> old(logical[j]) && vs[j] in allowed)
      invariant forall j :: i <= j < |vs| ==> logical[j] == old(logical[j])
    {
      logical[i] := logical[i] && vs[i] in allowed;
    }
  }

  /** A box laid out like the table, with limits of the kinds of a box that
      fits it, covers the table column by column. */
  lemma OverFitCovers(x: Frame, box: Box, init: Box)
    requires FitsFrame(x, init) && BoxOver(box, init)
    ensures BoxCovers(x, box) && BoxCovers(x, init)
    ensures forall c :: 0 <= c < |x.cols| ==> Lookup(box, x.names[c]) == box.lims[c] && Lookup(init, x.names[c]) == init.lims[c]
  {
    forall c | 0 <= c < |x.cols|
      ensures x.names[c] in box.names && Lookup(box, x.names[c]) == box.lims[c] && Lookup(init, x.names[c]) == init.lims[c]
    {
      IndexOfDistinct(x.names, c);
    }
  }

  /** The reference box made from a table admits every row of it, and
      pandas has nothing to refuse. */
  lemma ReferenceBoxAdmitsAll(x: Frame)
    requires ValidFrame(x) && x.n > 0
    ensures BoxCovers(x, MakeBox(x))
    ensures !SomeRefused(x, MakeBox(x))
    ensures forall i :: 0 <= i < x.n ==> RowIn(x, MakeBox(x), i)
  {
    var b := MakeBox(x);
    forall c | 0 <= c < |x.cols|
      ensures x.names[c] in b.names && Lookup(b, x.names[c]) == b.lims[c]
    {
      IndexOfDistinct(x.names, c);
    }
    forall c | 0 <= c < |x.cols|
      ensures !Refused(x.cols[c], Lookup(b, x.names[c]))
    {
      assert ValidColumn(x.cols[c], x.n);
    }
    forall i, c | 0 <= i < x.n && 0 <= c < |x.cols|
      ensures ColumnAdmits(x, b, c, i)
    {
      MakeBoxAdmitsAll(x, c, i);
    }
  }

  /** Narrowing a box can only move rows from inside to outside. */
  lemma InBoxMonotone(x: Frame, narrow: Box, wide: Box, i: nat)
    requires BoxCovers(x, narrow) && BoxCovers(x, wide) && SubBox(narrow, wide) && i < x.n
    ensures RowIn(x, narrow, i) ==> RowIn(x, wide, i)
  {
    if RowIn(x, narrow, i) {
      forall c | 0 <= c < |x.cols| ensures ColumnAdmits(x, wide, c, i) {
        assert ColumnAdmits(x, narrow, c, i);
        var k := IndexOf(narrow.names, x.names[c]);
        assert SubLimit(narrow.lims[k], wide.lims[k]);
      }
    }
  }
}
