/** The counting part of the quasi-p significance of a box: how many rows,
    and how many cases of interest, a (relaxed) box holds. The one-sided
    binomial test that turns these counts into a p-value is not modelled. */
module Significance {
  import opened Common
  import opened Boxes
  import opened Membership

  /** The columns `dims` of `x`, in the order given. */
  function SelectColumns(x: Frame, dims: seq<string>): (r: Frame)
    requires ValidFrame(x) && Distinct(dims) && forall u :: u in dims ==> u in x.names
    ensures ValidFrame(r) && r.n == x.n && r.names == dims
    ensures forall k :: 0 <= k < |dims| ==> r.cols[k] == x.cols[IndexOf(x.names, dims[k])]
  {
    Frame(x.n, dims, seq(|dims|, k requires 0 <= k < |dims| => x.cols[IndexOf(x.names, dims[k])]))
  }

  /** The limits of `box` for the dimensions `dims`, in the order given. */
  function SelectLimits(box: Box, dims: seq<string>): (r: Box)
    requires ValidBox(box) && Distinct(dims) && forall u :: u in dims ==> u in box.names
    ensures ValidBox(r) && r.names == dims
    ensures forall k :: 0 <= k < |dims| ==> r.lims[k] == Lookup(box, dims[k])
  {
    Box(dims, seq(|dims|, k requires 0 <= k < |dims| => Lookup(box, dims[k])))
  }

  /** Number of rows the mask keeps. */
  function CountTrue(mask: seq<bool>): (k: nat)
    ensures k <= |mask|
    ensures k == 0 <==> forall i :: 0 <= i < |mask| ==> !mask[i]
  {
    if |mask| == 0 then 0
    else (if mask[0] then 1 else 0) + CountTrue(mask[1..])
  }

  /** Sum of the outcomes of the rows the mask keeps; with outcomes in
      [0, 1] (a boolean classification) it lies between 0 and the count. */
  function SumWhere(y: seq<real>, mask: seq<bool>): (s: real)
    requires |y| == |mask|
    ensures (forall i :: 0 <= i < |y| ==> 0.0 <= y[i] <= 1.0) ==>
      0.0 <= s <= CountTrue(mask) as real
  {
    if |y| == 0 then 0.0
    else (if mask[0] then y[0] else 0.0) + SumWhere(y[1..], mask[1..])
  }

  /** Python's int() on a float: truncation toward zero. */
  function Trunc(v: real): (t: int)
    ensures v >= 0.0 ==> 0 <= t && t as real <= v < t as real + 1.0
    ensures v < 0.0 ==> t <= 0 && t as real - 1.0 < v <= t as real
  {
    if v >= 0.0 then v.Floor else -((-v).Floor)
  }

  /** The membership mask of the rows of `x` for `box`, as a function. */
  ghost function Mask(x: Frame, box: Box): (m: seq<bool>)
    requires BoxCovers(x, box)
    ensures |m| == x.n
  {
    seq(x.n, i requires 0 <= i < x.n => RowIn(x, box, i))
  }

  datatype QuasiError = Refusal(cause: InBoxError) | EmptyRelaxedBox

  /** Tj and Hj of the relaxed box, the ratio p = Hj / Tj, and the box's own
      counts truncated to integers: the arguments of the binomial test. */
  datatype QuasiCounts = QuasiCounts(tj: nat, hj: real, p: real, hBox: int, tBox: int)

  /** The dimensions `box` restricts relative to `init`, usable to select
      columns of `x`. */
  predicate QuasiInputs(x: Frame, y: seq<real>, box: Box, init: Box)
  {
    FitsFrame(x, init) && |y| == x.n && BoxOver(box, init)
  }

  /** The counting steps of the quasi-p computation: the rows of `x` inside
      `box` on its restricted dimensions, their number Tj, the sum Hj of
      their outcomes, and p = Hj / Tj. An empty relaxed box, where the
      original divides by zero, is reported as an error. */
  method CalculateQuasiP(x: Frame, y: seq<real>, box: Box, init: Box, hBox: real, tBox: real)
    returns (r: Result<QuasiCounts, QuasiError>)
    requires QuasiInputs(x, y, box, init)
    ensures var dims := RestrictedDims(box, init);
      var xr := SelectColumns(x, dims);
      var br := SelectLimits(box, dims);
      BoxCovers(xr, br) &&
      (r.Err? && r.error.Refusal? <==> SomeRefused(xr, br)) &&
      (r.Err? && r.error.EmptyRelaxedBox? <==> !SomeRefused(xr, br) && CountTrue(Mask(xr, br)) == 0) &&
      (r.Ok? ==> r.value.tj == CountTrue(Mask(xr, br)) && r.value.hj == SumWhere(y, Mask(xr, br)))
    ensures r.Ok? ==> 0 < r.value.tj <= x.n && r.value.p == r.value.hj / (r.value.tj as real)
    ensures r.Ok? && (forall i :: 0 <= i < |y| ==> 0.0 <= y[i] <= 1.0) ==> 0.0 <= r.value.p <= 1.0
    ensures r.Ok? ==> r.value.hBox == Trunc(hBox) && r.value.tBox == Trunc(tBox)
  {
    var dims := RestrictedDims(box, init);
    var xr := SelectColumns(x, dims);
    var br := SelectLimits(box, dims);
    SelectionCovers(x, box, init);
    var logical := InBox(xr, br);
    if logical.Err? {
      return Err(Refusal(logical.error));
    }
    var mask := logical.value;
    assert |mask| == x.n;
    assert forall i :: 0 <= i < x.n ==> mask[i] == Mask(xr, br)[i];
    assert mask == Mask(xr, br);
    var tj := CountTrue(mask);
    var hj := SumWhere(y, mask);
    if tj == 0 {
      return Err(EmptyRelaxedBox);
    }
    var p := Ratio(hj, tj);
    r := Ok(QuasiCounts(tj, hj, p, Trunc(hBox), Trunc(tBox)));
  }

  /** p = Hj / Tj; a fraction when 0 <= Hj <= Tj. */
  function Ratio(hj: real, tj: nat): (p: real)
    requires tj > 0
    ensures p * (tj as real) == hj
    ensures 0.0 <= hj <= tj as real ==> 0.0 <= p <= 1.0
  {
    RatioFacts(hj, tj as real);
    hj / tj as real
  }

  lemma RatioFacts(h: real, t: real)
    requires t > 0.0
    ensures (h / t) * t == h
    ensures 0.0 <= h <= t ==> 0.0 <= h / t <= 1.0
  {
    DivMul(h, t);
    if 0.0 <= h <= t {
      UnitRatio(h, h, t);
    }
  }

  /** The restricted columns of the table are covered by the restricted
      limits of the box. */
  lemma SelectionCovers(x: Frame, box: Box, init: Box)
    requires FitsFrame(x, init) && BoxOver(box, init)
    ensures var dims := RestrictedDims(box, init);
      BoxCovers(SelectColumns(x, dims), SelectLimits(box, dims))
  {
    var dims := RestrictedDims(box, init);
    var xr := SelectColumns(x, dims);
    var br := SelectLimits(box, dims);
    forall k | 0 <= k < |dims|
      ensures xr.names[k] in br.names && Matches(xr.cols[k], Lookup(br, xr.names[k]))
    {
      IndexOfDistinct(dims, k);
      var c := IndexOf(x.names, dims[k]);
      assert Lookup(box, dims[k]) == box.lims[c];
      assert SameKind(box.lims[c], init.lims[c]) && Matches(x.cols[c], init.lims[c]);
      assert Lookup(br, xr.names[k]) == br.lims[k];
    }
  }

  /** For rows inside the reference box, testing only the restricted
      dimensions decides membership of the whole box: Tj counts exactly the
      rows of the table inside `box`. */
  lemma RestrictedMaskIsBoxMask(x: Frame, box: Box, init: Box, i: nat)
    requires FitsFrame(x, init) && BoxOver(box, init) && i < x.n
    requires BoxCovers(x, init) && RowIn(x, init, i)
    ensures var dims := RestrictedDims(box, init);
      BoxCovers(x, box) && BoxCovers(SelectColumns(x, dims), SelectLimits(box, dims)) &&
      (RowIn(SelectColumns(x, dims), SelectLimits(box, dims), i) <==> RowIn(x, box, i))
  {
    var dims := RestrictedDims(box, init);
    var xr := SelectColumns(x, dims);
    var br := SelectLimits(box, dims);
    OverFitCovers(x, box, init);
    SelectionCovers(x, box, init);
    if RowIn(xr, br, i) {
      forall c | 0 <= c < |x.cols| ensures ColumnAdmits(x, box, c, i) {
        if box.lims[c] != init.lims[c] {
          assert x.names[c] in dims;
          var k := IndexOf(dims, x.names[c]);
          IndexOfDistinct(x.names, c);
          assert ColumnAdmits(xr, br, k, i);
          assert Lookup(br, xr.names[k]) == br.lims[k];
        } else {
          assert ColumnAdmits(x, init, c, i);
        }
      }
    }
    if RowIn(x, box, i) {
      forall k | 0 <= k < |dims| ensures ColumnAdmits(xr, br, k, i) {
        IndexOfDistinct(dims, k);
        var c := IndexOf(x.names, dims[k]);
        assert ColumnAdmits(x, box, c, i);
        assert Lookup(br, xr.names[k]) == br.lims[k];
      }
    }
  }

  /** Over the reference box of the table, Tj is the number of rows of the
      table inside `box`. */
  lemma QuasiCountIsBoxCount(x: Frame, box: Box)
    requires ValidFrame(x) && x.n > 0 && BoxOver(box, MakeBox(x))
    ensures var init := MakeBox(x); var dims := RestrictedDims(box, init);
      BoxCovers(x, box) && BoxCovers(SelectColumns(x, dims), SelectLimits(box, dims)) &&
      Mask(SelectColumns(x, dims), SelectLimits(box, dims)) == Mask(x, box)
  {
    var init := MakeBox(x);
    var dims := RestrictedDims(box, init);
    ReferenceBoxAdmitsAll(x);
    OverFitCovers(x, box, init);
    SelectionCovers(x, box, init);
    forall i | 0 <= i < x.n
      ensures RowIn(SelectColumns(x, dims), SelectLimits(box, dims), i) <==> RowIn(x, box, i)
    {
      RestrictedMaskIsBoxMask(x, box, init, i);
    }
  }
}
