/** Normalization of box limits onto the unit interval of the reference box,
    used to compare how strongly boxes restrict each dimension. */
module Normalization {
  import opened Common
  import opened Boxes

  /** A reference limit that can serve as a scale: a numeric range of
      non-zero width, or a non-empty label set. The original divides by the
      width and by the number of labels without a check. */
  predicate NonDegenerate(l0: Limit)
  {
    match l0
    case Num(lo, hi) => hi != lo
    case Cat(s) => s != {}
  }

  /** The normalized (lower, upper) pair of limit `l` against the reference
      limit `l0`. A numeric limit goes through the affine map a * v + b with
      a = 1 / (hi0 - lo0) and b = -lo0 / (hi0 - lo0); a categorical one
      becomes (0, fraction of the reference labels it keeps). */
  function NormLimit(l: Limit, l0: Limit): (r: (real, real))
    requires SameKind(l, l0) && NonDegenerate(l0)
    ensures l.Num? ==> r.0 == (l.lo - l0.lo) / (l0.hi - l0.lo) && r.1 == (l.hi - l0.lo) / (l0.hi - l0.lo)
    ensures l.Cat? ==> r.0 == 0.0 && r.1 * (|l0.labels| as real) == |l.labels| as real
  {
    match l
    case Cat(_) => (0.0, Fraction(l, l0))
    case Num(lower, upper) => (Affine(lower, l0), Affine(upper, l0))
  }

  /** The affine map a * v + b that sends the reference range onto [0, 1]. */
  function Affine(v: real, l0: Limit): real
    requires l0.Num? && l0.hi != l0.lo
  {
    var dif := l0.hi - l0.lo;
    var a := 1.0 / dif;
    var b := -1.0 * l0.lo / dif;
    a * v + b
  }

  /** The fraction of the reference labels that a categorical limit keeps. */
  function Fraction(l: Limit, l0: Limit): real
    requires l.Cat? && l0.Cat? && l0.labels != {}
  {
    |l.labels| as real / |l0.labels| as real
  }

  /** The normalized width that orders dimensions for reporting. */
  function NormWidth(l: Limit, l0: Limit): real
    requires SameKind(l, l0) && NonDegenerate(l0)
  {
    var p := NormLimit(l, l0);
    p.1 - p.0
  }

  /** The reference limit itself normalizes to exactly (0, 1). */
  lemma NormReference(l0: Limit)
    requires NonDegenerate(l0)
    ensures NormLimit(l0, l0) == (0.0, 1.0)
  {
    var r := NormLimit(l0, l0);
    if l0.Num? {
      assert r.0 == 0.0 && r.1 == 1.0;
    } else {
      assert r.1 * (|l0.labels| as real) == |l0.labels| as real;
    }
  }

  /** A limit inside the reference normalizes into [0, 1] with its ends in
      order; a categorical one to (0, a fraction in [0, 1]). */
  lemma NormWithin(l: Limit, l0: Limit)
    requires Within(l, l0) && NonDegenerate(l0)
    ensures var r := NormLimit(l, l0); 0.0 <= r.0 <= r.1 <= 1.0
  {
    match l
    case Cat(s) =>
      SubsetCard(s, l0.labels);
      UnitRatio(0.0, |s| as real, |l0.labels| as real);
    case Num(lo, hi) =>
      UnitRatio(lo - l0.lo, hi - l0.lo, l0.hi - l0.lo);
  }

  lemma SubsetCard(s: set<string>, t: set<string>)
    requires s <= t
    ensures |s| <= |t|
  {
    assert t == s + (t - s);
  }

  /** Widening a limit inside the reference never shrinks its normalized span. */
  lemma NormMonotone(l: Limit, m: Limit, l0: Limit)
    requires Within(l, m) && Within(m, l0) && NonDegenerate(l0)
    ensures var r := NormLimit(l, l0); var q := NormLimit(m, l0); q.0 <= r.0 && r.1 <= q.1
  {
    match l
    case Cat(s) =>
      SubsetCard(s, m.labels);
      SubsetCard(m.labels, l0.labels);
      UnitRatio(|s| as real, |m.labels| as real, |l0.labels| as real);
    case Num(lo, hi) =>
      UnitRatio(m.lo - l0.lo, lo - l0.lo, l0.hi - l0.lo);
      UnitRatio(hi - l0.lo, m.hi - l0.lo, l0.hi - l0.lo);
  }

  /** Every requested dimension names a dimension of both boxes, of the same
      kind, with a usable reference scale. */
  predicate Normalizable(box: Box, init: Box, uncs: seq<string>)
  {
    ValidBox(box) && ValidBox(init) &&
    forall u :: u in uncs ==>
      u in box.names && u in init.names &&
      SameKind(Lookup(box, u), Lookup(init, u)) && NonDegenerate(Lookup(init, u))
  }

  /** The normalized limits of `box` for the dimensions `uncs`, one
      (lower, upper) row per dimension in the order given. */
  method Normalize(box: Box, init: Box, uncs: seq<string>) returns (norm: seq<(real, real)>)
    requires Normalizable(box, init, uncs)
    ensures |norm| == |uncs|
    ensures forall i :: 0 <= i < |uncs| ==>
      norm[i] == NormLimit(Lookup(box, uncs[i]), Lookup(init, uncs[i]))
    ensures (forall u :: u in uncs ==> Within(Lookup(box, u), Lookup(init, u))) ==>
      forall i :: 0 <= i < |uncs| ==> 0.0 <= norm[i].0 <= norm[i].1 <= 1.0
  {
    var rows := new (real, real)[|uncs|](_ => (0.0, 0.0));
    for i := 0 to |uncs|
      invariant forall k :: 0 <= k < i ==>
        rows[k] == NormLimit(Lookup(box, uncs[k]), Lookup(init, uncs[k]))
    {
      var u := uncs[i];
      var lim := Lookup(box, u);
      var lim0 := Lookup(init, u);
      var nl, nu;
      if lim.Cat? {
        nu := Fraction(lim, lim0);
        nl := 0.0;
      } else {
        nl := Affine(lim.lo, lim0);
        nu := Affine(lim.hi, lim0);
      }
      rows[i] := (nl, nu);
    }
    norm := rows[..];
    if forall u :: u in uncs ==> Within(Lookup(box, u), Lookup(init, u)) {
      forall i | 0 <= i < |uncs| ensures 0.0 <= norm[i].0 <= norm[i].1 <= 1.0 {
        NormWithin(Lookup(box, uncs[i]), Lookup(init, uncs[i]));
      }
    }
  }
}
