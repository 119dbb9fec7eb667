/** The box model of scenario discovery: the input table, the limits a box
    puts on each input column, the reference box that spans all the data,
    and the detection of the columns a box restricts. */
module Boxes {
  import opened Common

  /** The limit of one dimension: the closed interval [lo, hi] for a numeric
      column, the set of labels still allowed for a categorical column (the
      original stores that set twice, as the pair (labels, labels)). */
  datatype Limit = Num(lo: real, hi: real) | Cat(labels: set<string>)

  /** One input column: numeric values, or labels together with the
      categories of the categorical type they belong to. */
  datatype Column = NumCol(nums: seq<real>) | CatCol(cats: seq<string>, categories: set<string>)

  /** A column-oriented input table with `n` rows. */
  datatype Frame = Frame(n: nat, names: seq<string>, cols: seq<Column>)

  /** A box: one limit per named dimension. */
  datatype Box = Box(names: seq<string>, lims: seq<Limit>)

  function Len(c: Column): nat
  {
    match c
    case NumCol(vs) => |vs|
    case CatCol(vs, _) => |vs|
  }

  /** A column of `n` rows whose labels belong to its categories. */
  predicate ValidColumn(c: Column, n: nat)
  {
    Len(c) == n &&
    (c.CatCol? ==> forall i :: 0 <= i < |c.cats| ==> c.cats[i] in c.categories)
  }

  predicate ValidFrame(x: Frame)
  {
    |x.names| == |x.cols| && Distinct(x.names) &&
    forall c :: 0 <= c < |x.cols| ==> ValidColumn(x.cols[c], x.n)
  }

  predicate ValidBox(b: Box)
  {
    |b.names| == |b.lims| && Distinct(b.names)
  }

  /** The column and the limit are of the same kind. */
  predicate Matches(c: Column, l: Limit)
  {
    c.NumCol? == l.Num?
  }

  predicate SameKind(l: Limit, m: Limit)
  {
    l.Num? == m.Num?
  }

  /** The limit of dimension `u` of box `b`. */
  function Lookup(b: Box, u: string): Limit
    requires ValidBox(b) && u in b.names
  {
    b.lims[IndexOf(b.names, u)]
  }

  /** Box `b` has the dimensions of `init`, in the same order and of the same kinds. */
  predicate BoxOver(b: Box, init: Box)
  {
    ValidBox(b) && ValidBox(init) && b.names == init.names &&
    forall c :: 0 <= c < |b.lims| ==> SameKind(b.lims[c], init.lims[c])
  }

  /** Box `b` has one limit of the right kind per column of `x`. */
  predicate FitsFrame(x: Frame, b: Box)
  {
    ValidFrame(x) && ValidBox(b) && b.names == x.names &&
    forall c :: 0 <= c < |x.cols| ==> Matches(x.cols[c], b.lims[c])
  }

  /** `l` is at least as narrow as `m`: its interval lies inside that of
      `m`, or it allows a subset of the labels of `m`. */
  predicate SubLimit(l: Limit, m: Limit)
  {
    match (l, m)
    case (Num(lo, hi), Num(lo0, hi0)) => lo0 <= lo && hi <= hi0
    case (Cat(s), Cat(s0)) => s <= s0
    case _ => false
  }

  /** `l` lies inside the reference limit `l0`: a non-empty sub-interval,
      or a subset of the reference labels. */
  predicate Within(l: Limit, l0: Limit)
  {
    SubLimit(l, l0) && (l.Num? ==> l.lo <= l.hi)
  }

  /** Every limit of `narrow` is a sub-limit of the same dimension of `wide`. */
  predicate SubBox(narrow: Box, wide: Box)
  {
    ValidBox(narrow) && ValidBox(wide) && narrow.names == wide.names &&
    forall c :: 0 <= c < |narrow.lims| ==> SubLimit(narrow.lims[c], wide.lims[c])
  }

  /** Row `i` of column `col` satisfies the limit `l` (bounds inclusive). */
  predicate Admits(l: Limit, col: Column, i: nat)
    requires Matches(col, l) && i < Len(col)
  {
    match col
    case NumCol(vs) => l.lo <= vs[i] <= l.hi
    case CatCol(vs, _) => vs[i] in l.labels
  }

  /** `l` is the smallest limit that admits every value of `col`: for a
      numeric column an interval whose ends are values of the column, for a
      categorical column exactly the observed labels. */
  predicate Tight(l: Limit, col: Column)
  {
    Matches(col, l) &&
    match col
    case NumCol(vs) =>
      l.lo <= l.hi && l.lo in vs && l.hi in vs &&
      forall i :: 0 <= i < |vs| ==> l.lo <= vs[i] <= l.hi
    case CatCol(vs, _) =>
      l.labels == set u | u in vs
  }

  function Min(s: seq<real>): (m: real)
    requires |s| > 0
    ensures m in s && forall i :: 0 <= i < |s| ==> m <= s[i]
  {
    if |s| == 1 then s[0]
    else
      var t := Min(s[1..]);
      if s[0] <= t then s[0] else t
  }

  function Max(s: seq<real>): (m: real)
    requires |s| > 0
    ensures m in s && forall i :: 0 <= i < |s| ==> s[i] <= m
  {
    if |s| == 1 then s[0]
    else
      var t := Max(s[1..]);
      if s[0] >= t then s[0] else t
  }

  /** The limits of one column in the reference box. */
  function ColumnLimit(col: Column): (l: Limit)
    requires Len(col) > 0
    ensures Tight(l, col)
  {
    match col
    case NumCol(vs) => Num(Min(vs), Max(vs))
    case CatCol(vs, _) => Cat(set u | u in vs)
  }

  /** The reference box: it encloses all the data, tightly. On an empty
      table the original yields NaN limits for numeric columns and the empty
      label set for categorical ones; the model requires a row. */
  function MakeBox(x: Frame): (r: Box)
    requires ValidFrame(x) && x.n > 0
    ensures FitsFrame(x, r)
    ensures forall c :: 0 <= c < |x.cols| ==> Tight(r.lims[c], x.cols[c])
  {
    Box(x.names, seq(|x.cols|, c requires 0 <= c < |x.cols| => ColumnLimit(x.cols[c])))
  }

  /** The reference box admits every row of the table it is made from. */
  lemma MakeBoxAdmitsAll(x: Frame, c: nat, i: nat)
    requires ValidFrame(x) && x.n > 0 && c < |x.cols| && i < x.n
    ensures Matches(x.cols[c], MakeBox(x).lims[c])
    ensures Admits(MakeBox(x).lims[c], x.cols[c], i)
  {
    var col := x.cols[c];
    assert ValidColumn(col, x.n);
    match col
    case NumCol(vs) =>
    case CatCol(vs, _) =>
      assert vs[i] in vs;
  }

  /** The columns whose limits in `box` differ from those in `init`, in
      column order. A numeric limit differs when either end differs, a
      categorical one when the label sets differ. */
  function RestrictedDims(box: Box, init: Box): (r: seq<string>)
    requires |box.lims| == |init.lims| == |init.names|
    ensures forall u :: u in r <==>
      exists c :: 0 <= c < |init.names| && init.names[c] == u && box.lims[c] != init.lims[c]
    ensures |r| <= |init.names|
    ensures Distinct(init.names) ==> Distinct(r)
  {
    Restricted(init.names, box.lims, init.lims)
  }

  function Restricted(names: seq<string>, lims: seq<Limit>, ref: seq<Limit>): (r: seq<string>)
    requires |names| == |lims| == |ref|
    ensures forall u :: u in r <==>
      exists c :: 0 <= c < |names| && names[c] == u && lims[c] != ref[c]
    ensures |r| <= |names|
    ensures Distinct(names) ==> Distinct(r)
  {
    if |names| == 0 then []
    else
      var rest := Restricted(names[1..], lims[1..], ref[1..]);
      assert forall u :: u in rest <==>
        exists c :: 1 <= c < |names| && names[c] == u && lims[c] != ref[c] by {
        forall u ensures u in rest <==>
          exists c :: 1 <= c < |names| && names[c] == u && lims[c] != ref[c] {
          if u in rest {
            var c' :| 0 <= c' < |names| - 1 && names[1..][c'] == u && lims[1..][c'] != ref[1..][c'];
            assert names[c' + 1] == u && lims[c' + 1] != ref[c' + 1];
          }
          if exists c :: 1 <= c < |names| && names[c] == u && lims[c] != ref[c] {
            var c :| 1 <= c < |names| && names[c] == u && lims[c] != ref[c];
            assert names[1..][c - 1] == u && lims[1..][c - 1] != ref[1..][c - 1];
          }
        }
      }
      assert Distinct(names) ==> Distinct(names[1..]) && names[0] !in rest;
      if lims[0] != ref[0] then [names[0]] + rest else rest
  }

  /** The number of restricted dimensions. */
  function NrRestrictedDims(box: Box, init: Box): (k: nat)
    requires |box.lims| == |init.lims| == |init.names|
    ensures k <= |init.names|
  {
    |RestrictedDims(box, init)|
  }

  /** A box restricts no dimension exactly when it has the reference limits;
      in particular the reference box restricts nothing. */
  lemma NoRestrictionIffReference(box: Box, init: Box)
    requires |box.lims| == |init.lims| == |init.names|
    ensures NrRestrictedDims(box, init) == 0 <==> box.lims == init.lims
  {
    var r := RestrictedDims(box, init);
    if box.lims != init.lims {
      var c :| 0 <= c < |init.lims| && box.lims[c] != init.lims[c];
      assert init.names[c] in r;
    } else {
      RestrictedOfReference(init.names, init.lims);
    }
  }

  /** Against itself, no limit is restricted. */
  lemma {:induction false} RestrictedOfReference(names: seq<string>, ref: seq<Limit>)
    requires |names| == |ref|
    ensures Restricted(names, ref, ref) == []
  {
    if |names| > 0 {
      RestrictedOfReference(names[1..], ref[1..]);
    }
  }

  /** Both ends of the two limits are equal; the two ends of a categorical
      limit are the same label set, so one comparison decides it. */
  predicate SameEnds(l: Limit, m: Limit)
  {
    match (l, m)
    case (Num(a0, a1), Num(b0, b1)) => a0 == b0 && a1 == b1
    case (Cat(s), Cat(t)) => s == t
    case _ => false
  }

  /** Per dimension of `a`: whether `b` has the same limits for the dimension
      of that name. */
  method Compare(a: Box, b: Box) returns (same: seq<bool>)
    requires ValidBox(a) && ValidBox(b)
    requires forall u :: u in a.names ==> u in b.names
    ensures |same| == |a.names|
    ensures forall i :: 0 <= i < |a.names| ==> (same[i] <==> a.lims[i] == Lookup(b, a.names[i]))
  {
    var logical := new bool[|a.names|](_ => true);
    for i := 0 to |a.names|
      invariant forall k :: 0 <= k < i ==> (logical[k] <==> a.lims[k] == Lookup(b, a.names[k]))
      invariant forall k :: i <= k < |a.names| ==> logical[k]
    {
      var other := Lookup(b, a.names[i]);
      logical[i] := logical[i] && SameEnds(a.lims[i], other);
    }
    same := logical[..];
  }
}
