/** Reporting a sequence of boxes: the dimensions to show and their order,
    the table of box limits, the table of statistics and the normalized
    geometry handed to a renderer. */
module Reporting {
  import opened Common
  import opened Boxes
  import opened Normalization

  /** Every box of the sequence is laid out like the reference box. */
  predicate SameLayout(boxes: seq<Box>, init: Box)
  {
    forall k :: 0 <= k < |boxes| ==> BoxOver(boxes[k], init)
  }

  /** Every dimension some box restricts has a usable reference scale. */
  predicate Scalable(boxes: seq<Box>, init: Box)
    requires SameLayout(boxes, init)
  {
    forall k, c :: 0 <= k < |boxes| && 0 <= c < |init.lims| && boxes[k].lims[c] != init.lims[c] ==>
      NonDegenerate(init.lims[c])
  }

  /** The dimensions restricted by at least one of the boxes. */
  function UnionRestricted(boxes: seq<Box>, init: Box): set<string>
    requires SameLayout(boxes, init)
  {
    set k, u | 0 <= k < |boxes| && u in RestrictedDims(boxes[k], init) :: u
  }

  /** The dimensions of the union are dimensions of the reference box with
      a usable scale, so every box can be normalized over them. */
  lemma UnionNormalizable(boxes: seq<Box>, init: Box, uncs: seq<string>, b: nat)
    requires b < |boxes| && SameLayout(boxes, init) && Scalable(boxes, init)
    requires forall u :: u in uncs ==> u in UnionRestricted(boxes, init)
    ensures Normalizable(boxes[b], init, uncs)
  {
    assert BoxOver(boxes[b], init);
    forall u | u in uncs
      ensures u in boxes[b].names && u in init.names &&
        SameKind(Lookup(boxes[b], u), Lookup(init, u)) && NonDegenerate(Lookup(init, u))
    {
      var k :| 0 <= k < |boxes| && u in RestrictedDims(boxes[k], init);
      assert BoxOver(boxes[k], init);
      var c :| 0 <= c < |init.names| && init.names[c] == u && boxes[k].lims[c] != init.lims[c];
      IndexOfDistinct(init.names, c);
    }
  }

  /** The elements of a set, each once, in an unspecified order (the
      iteration order of a Python set). */
  method SetToSeq(s: set<string>) returns (r: seq<string>)
    ensures forall u :: u in r <==> u in s
    ensures |r| == |s| && Distinct(r)
  {
    r := [];
    var rest := s;
    while rest != {}
      invariant rest <= s
      invariant forall u :: u in r <==> u in s && u !in rest
      invariant |r| + |rest| == |s|
      invariant Distinct(r)
      decreases |rest|
    {
      var u :| u in rest;
      r := r + [u];
      rest := rest - {u};
    }
  }

  /** The indices in `s` are valid for `keys` and visit them in
      non-decreasing order. */
  predicate SortedBy(s: seq<nat>, keys: seq<real>)
  {
    Below(s, |keys|) &&
    forall a, b :: 0 <= a < b < |s| ==> keys[s[a]] <= keys[s[b]]
  }

  /** Indices below `n` only. */
  predicate Below(s: seq<nat>, n: nat)
  {
    forall k :: 0 <= k < |s| ==> s[k] < n
  }

  /** `s` with index `i` inserted before the first index of a larger or
      equal key. */
  function InsertIndex(i: nat, s: seq<nat>, keys: seq<real>): (r: seq<nat>)
    requires i < |keys| && Below(s, |keys|)
    ensures |r| == |s| + 1 && multiset(r) == multiset(s) + multiset{i}
  {
    if |s| == 0 then [i]
    else if keys[i] <= keys[s[0]] then [i] + s
    else
      assert s == [s[0]] + s[1..];
      [s[0]] + InsertIndex(i, s[1..], keys)
  }

  /** Insertion keeps the indices ordered by key. */
  lemma {:induction false} InsertIndexSorted(i: nat, s: seq<nat>, keys: seq<real>)
    requires i < |keys| && SortedBy(s, keys)
    ensures SortedBy(InsertIndex(i, s, keys), keys)
  {
    if |s| > 0 {
      if keys[i] <= keys[s[0]] {
        assert forall k :: 0 <= k < |s| ==> keys[s[0]] <= keys[s[k]];
        PrependSorted(i, s, keys);
      } else {
        var rest := InsertIndex(i, s[1..], keys);
        InsertIndexSorted(i, s[1..], keys);
        FirstBoundsInsertion(i, s, keys, rest);
        PrependSorted(s[0], rest, keys);
      }
    }
  }

  /** When `i` goes after the first index, the first key bounds every key
      of the insertion into the rest. */
  lemma FirstBoundsInsertion(i: nat, s: seq<nat>, keys: seq<real>, rest: seq<nat>)
    requires i < |keys| && SortedBy(s, keys) && |s| > 0 && keys[s[0]] < keys[i]
    requires rest == InsertIndex(i, s[1..], keys)
    ensures forall k :: 0 <= k < |rest| ==> rest[k] < |keys| && keys[s[0]] <= keys[rest[k]]
  {
    forall k | 0 <= k < |rest| ensures rest[k] < |keys| && keys[s[0]] <= keys[rest[k]] {
      assert rest[k] in multiset(rest);
      if rest[k] != i {
        assert rest[k] in multiset(s[1..]);
        var m :| 0 <= m < |s| - 1 && s[1..][m] == rest[k];
        assert keys[s[0]] <= keys[s[m + 1]];
      }
    }
  }

  /** An index whose key bounds all keys of a sorted sequence may go first. */
  lemma PrependSorted(first: nat, s: seq<nat>, keys: seq<real>)
    requires first < |keys| && SortedBy(s, keys)
    requires forall k :: 0 <= k < |s| ==> keys[first] <= keys[s[k]]
    ensures SortedBy([first] + s, keys)
  {
    var r := [first] + s;
    forall a, b | 0 <= a < b < |r| ensures keys[r[a]] <= keys[r[b]] {
      assert r[b] == s[b - 1];
      if a > 0 {
        assert r[a] == s[a - 1];
      }
    }
  }

  /** Inserting a new index into indices without repetitions gives indices
      without repetitions. */
  lemma {:induction false} InsertIndexDistinct(i: nat, s: seq<nat>, keys: seq<real>)
    requires i < |keys| && Below(s, |keys|) && Distinct(s) && i !in s
    ensures Distinct(InsertIndex(i, s, keys))
  {
    if |s| > 0 && keys[i] > keys[s[0]] {
      var rest := InsertIndex(i, s[1..], keys);
      assert s == [s[0]] + s[1..];
      InsertIndexDistinct(i, s[1..], keys);
      forall k | 0 <= k < |rest| ensures rest[k] != s[0] {
        assert rest[k] in multiset(rest);
        if rest[k] != i {
          assert rest[k] in multiset(s[1..]);
        }
      }
    }
  }

  /** The indices 0 .. n - 1 of `keys`, ordered by key. Ties may come in
      any order: NumPy's default sort is not stable. */
  function ArgSort(keys: seq<real>, n: nat): (r: seq<nat>)
    requires n <= |keys|
    ensures |r| == n && SortedBy(r, keys) && Distinct(r)
    ensures forall i: nat :: i < n <==> i in r
  {
    if n == 0 then []
    else
      var last: nat := n - 1;
      var s := ArgSort(keys, last);
      assert last !in s;
      var r := InsertIndex(last, s, keys);
      InsertIndexSorted(last, s, keys);
      InsertIndexDistinct(last, s, keys);
      assert forall i: nat :: i in r <==> i in multiset(r);
      assert forall i: nat :: i in r <==> i in s || i == last;
      r
  }

  /** The dimensions `uncs` come in order of non-decreasing normalized width
      in `box`. */
  predicate ByWidth(box: Box, init: Box, uncs: seq<string>)
    requires Normalizable(box, init, uncs)
  {
    forall a, b :: 0 <= a < b < |uncs| ==>
      NormWidth(Lookup(box, uncs[a]), Lookup(init, uncs[a])) <=
      NormWidth(Lookup(box, uncs[b]), Lookup(init, uncs[b]))
  }

  /** The boxes unchanged, and the dimensions restricted by any box ordered
      by the normalized width they have in the first box. */
  method SortedBoxLims(boxes: seq<Box>, init: Box) returns (boxLims: seq<Box>, uncs: seq<string>)
    requires |boxes| > 0 && SameLayout(boxes, init) && Scalable(boxes, init)
    ensures boxLims == boxes
    ensures forall u :: u in uncs <==> u in UnionRestricted(boxes, init)
    ensures |uncs| == |UnionRestricted(boxes, init)| && Distinct(uncs)
    ensures Normalizable(boxes[0], init, uncs)
    ensures ByWidth(boxes[0], init, uncs)
  {
    var restricted := CollectRestricted(boxes, init);
    var listed := SetToSeq(restricted);
    UnionNormalizable(boxes, init, listed, 0);
    uncs := OrderByWidth(boxes[0], init, listed);
    boxLims := boxes;
  }

  /** The dimensions `listed` reordered by their normalized width in `box`
      (the argsort of the widths). */
  method OrderByWidth(box: Box, init: Box, listed: seq<string>) returns (uncs: seq<string>)
    requires Normalizable(box, init, listed) && Distinct(listed)
    ensures |uncs| == |listed| && Distinct(uncs)
    ensures forall u :: u in uncs <==> u in listed
    ensures Normalizable(box, init, uncs)
    ensures ByWidth(box, init, uncs)
  {
    var nbl := Normalize(box, init, listed);
    var boxSize := seq(|listed|, k requires 0 <= k < |listed| => nbl[k].1 - nbl[k].0);
    assert forall k :: 0 <= k < |listed| ==>
      boxSize[k] == NormWidth(Lookup(box, listed[k]), Lookup(init, listed[k]));
    var order := ArgSort(boxSize, |listed|);
    uncs := Permuted(listed, order);
    PermutedByWidth(box, init, listed, boxSize, order, uncs);
  }

  /** Reordering the dimensions by an argsort of their widths puts them in
      width order. */
  lemma PermutedByWidth(box: Box, init: Box, listed: seq<string>, boxSize: seq<real>, order: seq<nat>, uncs: seq<string>)
    requires Normalizable(box, init, listed) && |boxSize| == |listed|
    requires forall k :: 0 <= k < |listed| ==>
      boxSize[k] == NormWidth(Lookup(box, listed[k]), Lookup(init, listed[k]))
    requires |order| == |listed| && SortedBy(order, boxSize)
    requires |uncs| == |order| && forall k :: 0 <= k < |uncs| ==> uncs[k] == listed[order[k]]
    ensures Normalizable(box, init, uncs) && ByWidth(box, init, uncs)
  {
    forall a, b | 0 <= a < b < |uncs|
      ensures NormWidth(Lookup(box, uncs[a]), Lookup(init, uncs[a])) <=
        NormWidth(Lookup(box, uncs[b]), Lookup(init, uncs[b]))
    {
      assert boxSize[order[a]] <= boxSize[order[b]];
    }
  }

  /** The union of the restricted dimensions, accumulated box by box. */
  method CollectRestricted(boxes: seq<Box>, init: Box) returns (restricted: set<string>)
    requires SameLayout(boxes, init)
    ensures restricted == UnionRestricted(boxes, init)
  {
    restricted := {};
    for k := 0 to |boxes|
      invariant forall u :: u in restricted <==>
        exists j :: 0 <= j < k && u in RestrictedDims(boxes[j], init)
    {
      var us := RestrictedDims(boxes[k], init);
      restricted := restricted + set u | u in us;
    }
  }

  /** The elements of `s` in the order the permutation `order` gives. */
  function Permuted(s: seq<string>, order: seq<nat>): (r: seq<string>)
    requires |order| == |s| && Below(order, |s|) && Distinct(order)
    requires forall i: nat :: i < |s| ==> i in order
    ensures |r| == |s| && forall k :: 0 <= k < |r| ==> r[k] == s[order[k]]
    ensures forall u :: u in r <==> u in s
    ensures Distinct(s) ==> Distinct(r)
  {
    var r := seq(|order|, k requires 0 <= k < |order| => s[order[k]]);
    assert forall u :: u in s ==> u in r by {
      forall u | u in s ensures u in r {
        var i: nat :| i < |s| && s[i] == u;
        assert i in order;
        var k :| 0 <= k < |order| && order[k] == i;
        assert r[k] == u;
      }
    }
    r
  }

  /** The decimal digit of `d`. */
  function Digit(d: nat): (c: char)
    requires d < 10
  {
    "0123456789"[d]
  }

  /** Decimal notation of `n`, without leading zeros. */
  function NatToString(n: nat): (s: string)
    ensures |s| >= 1 && (n >= 10 ==> |s| >= 2)
    decreases n
  {
    if n < 10 then [Digit(n)] else NatToString(n / 10) + [Digit(n % 10)]
  }

  /** Different numbers have different decimal notations. */
  lemma {:induction false} NatToStringInjective(a: nat, b: nat)
    requires NatToString(a) == NatToString(b)
    ensures a == b
  {
    var sa, sb := NatToString(a), NatToString(b);
    if a < 10 && b < 10 {
      assert "0123456789"[a] == sa[0] == sb[0] == "0123456789"[b];
    } else if a >= 10 && b >= 10 {
      assert sa[..|sa| - 1] == NatToString(a / 10);
      assert sb[..|sb| - 1] == NatToString(b / 10);
      NatToStringInjective(a / 10, b / 10);
      assert "0123456789"[a % 10] == sa[|sa| - 1] == sb[|sb| - 1] == "0123456789"[b % 10];
    }
  }

  /** The row label of the box at 0-based position `i`: "box 1" for the first. */
  function BoxLabel(i: nat): string
  {
    "box " + NatToString(i + 1)
  }

  /** Boxes at different positions get different labels. */
  lemma BoxLabelInjective(i: nat, j: nat)
    requires BoxLabel(i) == BoxLabel(j)
    ensures i == j
  {
    assert BoxLabel(i)[4..] == NatToString(i + 1);
    assert BoxLabel(j)[4..] == NatToString(j + 1);
    NatToStringInjective(i + 1, j + 1);
  }

  /** The labels of `n` boxes, "box 1" to "box n". */
  function BoxLabels(n: nat): (labels: seq<string>)
    ensures |labels| == n && Distinct(labels)
    ensures forall i :: 0 <= i < n ==> labels[i] == BoxLabel(i)
  {
    var labels := seq(n, i requires 0 <= i < n => BoxLabel(i));
    assert Distinct(labels) by {
      forall i, j | 0 <= i < j < n ensures labels[i] != labels[j] {
        if labels[i] == labels[j] {
          BoxLabelInjective(i, j);
        }
      }
    }
    labels
  }

  /** A cell of the table of box limits: a numeric bound, or the set of
      labels a categorical limit allows. */
  datatype Cell = Value(v: real) | Labels(s: set<string>)

  /** The element type of the table: float unless the first box holds a
      categorical limit. */
  datatype Dtype = Float | Object

  /** A table with a row per dimension and, per box, a "min" and a "max"
      column. */
  datatype LimitTable = LimitTable(index: seq<string>, columns: seq<(string, string)>, dtype: Dtype, cells: seq<seq<Cell>>)

  /** The column names: for every box label, a "min" and a "max" column. */
  function Side(k: nat): string
  {
    if k % 2 == 0 then "min" else "max"
  }

  /** The cell of limit `l` in the "min" (even `k`) or "max" (odd `k`)
      column. A categorical limit shows its label set in both. */
  function LimitCell(l: Limit, k: nat): Cell
  {
    match l
    case Num(lo, hi) => if k % 2 == 0 then Value(lo) else Value(hi)
    case Cat(s) => Labels(s)
  }

  /** The table of the limits of the dimensions restricted by any box, one
      row per such dimension in the reported order and two columns per box;
      the reference box is made from the input table. */
  method BoxesToTable(x: Frame, boxes: seq<Box>) returns (t: LimitTable)
    requires ValidFrame(x) && x.n > 0 && |boxes| > 0
    requires SameLayout(boxes, MakeBox(x)) && Scalable(boxes, MakeBox(x))
    ensures forall u :: u in t.index <==> u in UnionRestricted(boxes, MakeBox(x))
    ensures Distinct(t.index)
    ensures Normalizable(boxes[0], MakeBox(x), t.index) && ByWidth(boxes[0], MakeBox(x), t.index)
    ensures |t.columns| == 2 * |boxes|
    ensures forall k :: 0 <= k < |t.columns| ==> t.columns[k] == (BoxLabel(k / 2), Side(k))
    ensures t.dtype == Object <==> exists c :: 0 <= c < |boxes[0].lims| && boxes[0].lims[c].Cat?
    ensures |t.cells| == |t.index| && Covers(boxes, t.index)
    ensures forall r :: 0 <= r < |t.index| ==> |t.cells[r]| == 2 * |boxes|
    ensures forall r, k :: 0 <= r < |t.index| && 0 <= k < 2 * |boxes| ==>
      t.cells[r][k] == LimitCell(Lookup(boxes[k / 2], t.index[r]), k)
  {
    t := LimitsTable(boxes, MakeBox(x));
  }

  /** The limit table against a given reference box. */
  method LimitsTable(boxes: seq<Box>, init: Box) returns (t: LimitTable)
    requires |boxes| > 0 && SameLayout(boxes, init) && Scalable(boxes, init)
    ensures forall u :: u in t.index <==> u in UnionRestricted(boxes, init)
    ensures Distinct(t.index)
    ensures Normalizable(boxes[0], init, t.index) && ByWidth(boxes[0], init, t.index)
    ensures |t.columns| == 2 * |boxes|
    ensures forall k :: 0 <= k < |t.columns| ==> t.columns[k] == (BoxLabel(k / 2), Side(k))
    ensures t.dtype == Object <==> exists c :: 0 <= c < |boxes[0].lims| && boxes[0].lims[c].Cat?
    ensures |t.cells| == |t.index| && Covers(boxes, t.index)
    ensures forall r :: 0 <= r < |t.index| ==> |t.cells[r]| == 2 * |boxes|
    ensures forall r, k :: 0 <= r < |t.index| && 0 <= k < 2 * |boxes| ==>
      t.cells[r][k] == LimitCell(Lookup(boxes[k / 2], t.index[r]), k)
  {
    var boxLims, uncs := SortedBoxLims(boxes, init);
    assert Covers(boxLims, uncs) by {
      forall k | 0 <= k < |boxes| ensures ValidBox(boxes[k]) && forall u :: u in uncs ==> u in boxes[k].names {
        assert BoxOver(boxes[k], init);
      }
    }
    var index := BoxLabels(|boxLims|);
    var dtype := TableDtype(boxLims[0]);
    var columns := ColumnPairs(index);
    var cells := FillCells(boxLims, uncs);
    t := LimitTable(uncs, columns, dtype, cells);
  }

  /** The cells of the limit table: they start at zero, as the original's
      initial data does, and are then filled box by box. */
  method FillCells(boxes: seq<Box>, uncs: seq<string>) returns (cells: seq<seq<Cell>>)
    requires Covers(boxes, uncs)
    ensures |cells| == |uncs|
    ensures forall r :: 0 <= r < |uncs| ==> |cells[r]| == 2 * |boxes|
    ensures forall r, k :: 0 <= r < |uncs| && 0 <= k < 2 * |boxes| ==>
      cells[r][k] == LimitCell(Lookup(boxes[k / 2], uncs[r]), k)
  {
    cells := seq(|uncs|, _ => seq(2 * |boxes|, _ => Value(0.0)));
    for i := 0 to |boxes|
      invariant |cells| == |uncs|
      invariant forall r :: 0 <= r < |uncs| ==> |cells[r]| == 2 * |boxes|
      invariant forall r, k :: 0 <= r < |uncs| && 0 <= k < 2 * i ==>
        cells[r][k] == LimitCell(Lookup(boxes[k / 2], uncs[r]), k)
    {
      cells := FillBox(cells, boxes, uncs, i);
    }
  }

  /** Object when some limit of the box is categorical, float otherwise. */
  method TableDtype(box: Box) returns (dtype: Dtype)
    ensures dtype == Object <==> exists c :: 0 <= c < |box.lims| && box.lims[c].Cat?
  {
    dtype := Float;
    for c := 0 to |box.lims|
      invariant dtype == Object <==> exists c' :: 0 <= c' < c && box.lims[c'].Cat?
    {
      if box.lims[c].Cat? {
        dtype := Object;
        return;
      }
    }
  }

  /** The product of the labels with ("min", "max"). */
  function ColumnPairs(labels: seq<string>): (columns: seq<(string, string)>)
    ensures |columns| == 2 * |labels|
    ensures forall k :: 0 <= k < |columns| ==> columns[k] == (labels[k / 2], Side(k))
  {
    if |labels| == 0 then []
    else
      var rest := ColumnPairs(labels[1..]);
      var columns := [(labels[0], "min"), (labels[0], "max")] + rest;
      PairsStep(labels, rest, columns);
      columns
  }

  /** The pairs of the first label, followed by the pairs of the others. */
  lemma PairsStep(labels: seq<string>, rest: seq<(string, string)>, columns: seq<(string, string)>)
    requires |labels| > 0 && |rest| == 2 * (|labels| - 1)
    requires forall k :: 0 <= k < |rest| ==> rest[k] == (labels[1..][k / 2], Side(k))
    requires columns == [(labels[0], "min"), (labels[0], "max")] + rest
    ensures forall k :: 0 <= k < |columns| ==> columns[k] == (labels[k / 2], Side(k))
  {
    forall k | 0 <= k < |columns| ensures columns[k] == (labels[k / 2], Side(k)) {
      if k >= 2 {
        HalfShift(k);
        assert columns[k] == rest[k - 2] == (labels[1..][(k - 2) / 2], Side(k - 2));
      }
    }
  }

  /** Dropping the first pair of columns shifts the box by one and keeps the side. */
  lemma HalfShift(k: nat)
    requires k >= 2
    ensures (k - 2) / 2 == k / 2 - 1 && Side(k - 2) == Side(k)
  {
  }

  /** Every box has every one of the dimensions `uncs`. */
  predicate Covers(boxes: seq<Box>, uncs: seq<string>)
  {
    forall k :: 0 <= k < |boxes| ==> ValidBox(boxes[k]) && forall u :: u in uncs ==> u in boxes[k].names
  }

  /** Writes the "min" and "max" cells of box `i` into every row. */
  method FillBox(cells: seq<seq<Cell>>, boxes: seq<Box>, uncs: seq<string>, i: nat) returns (filled: seq<seq<Cell>>)
    requires i < |boxes| && Covers(boxes, uncs) && |cells| == |uncs|
    requires forall r :: 0 <= r < |uncs| ==> |cells[r]| == 2 * |boxes|
    ensures |filled| == |uncs|
    ensures forall r :: 0 <= r < |uncs| ==> |filled[r]| == 2 * |boxes|
    ensures forall r, k :: 0 <= r < |uncs| && 0 <= k < 2 * |boxes| ==>
      filled[r][k] == if k / 2 == i then LimitCell(Lookup(boxes[i], uncs[r]), k) else cells[r][k]
  {
    filled := cells;
    for r := 0 to |uncs|
      invariant |filled| == |uncs|
      invariant forall q :: 0 <= q < |uncs| ==> |filled[q]| == 2 * |boxes|
      invariant forall q, k :: 0 <= q < |uncs| && 0 <= k < 2 * |boxes| ==>
        filled[q][k] == if q < r && k / 2 == i then LimitCell(Lookup(boxes[i], uncs[q]), k) else cells[q][k]
    {
      var l := Lookup(boxes[i], uncs[r]);
      filled := filled[r := filled[r][2 * i := LimitCell(l, 2 * i)][2 * i + 1 := LimitCell(l, 2 * i + 1)]];
    }
  }

  /** The statistics of the boxes as a table: one row per box, labelled
      "box 1", "box 2", ..., and a column per statistic any box reports (a
      statistic a box lacks is absent from its row). */
  datatype StatsTable = StatsTable(index: seq<string>, columns: set<string>, rows: seq<map<string, real>>)

  function StatsToTable(stats: seq<map<string, real>>): (t: StatsTable)
    ensures |t.index| == |t.rows| == |stats| && Distinct(t.index)
    ensures forall i :: 0 <= i < |stats| ==> t.index[i] == BoxLabel(i) && t.rows[i] == stats[i]
    ensures forall key :: key in t.columns <==> exists i :: 0 <= i < |stats| && key in stats[i]
  {
    var columns := set i, key | 0 <= i < |stats| && key in stats[i] :: key;
    StatsTable(BoxLabels(|stats|), columns, stats)
  }

  /** What the display draws for one dimension of one box: a horizontal
      segment between the normalized ends of a numeric limit, or one dot
      per allowed label of a categorical limit. */
  datatype Mark = Segment(x0: real, x1: real, y: real) | Dots(xs: set<real>, y: real)

  /** A figure: an optional title, the tick label of every row y = 0, 1,
      ... and, per dimension, the marks drawn for it. */
  datatype Figure = Figure(title: Option<string>, ticks: seq<string>, rows: seq<seq<Mark>>)

  /** A categorical limit with a label the reference lacks (ValueError), or
      with labels while the reference has a single label (division by zero). */
  datatype DisplayError = LabelNotInReference | SingleReferenceLabel

  /** Python's ordering of strings: code point by code point, a proper
      prefix first. */
  predicate LexLess(a: string, b: string)
  {
    if |a| == 0 then |b| > 0
    else if |b| == 0 then false
    else if a[0] == b[0] then LexLess(a[1..], b[1..])
    else a[0] < b[0]
  }

  lemma {:induction false} LexIrreflexive(a: string)
    ensures !LexLess(a, a)
  {
    if |a| > 0 {
      LexIrreflexive(a[1..]);
    }
  }

  lemma {:induction false} LexTransitive(a: string, b: string, c: string)
    requires LexLess(a, b) && LexLess(b, c)
    ensures LexLess(a, c)
  {
    if |a| > 0 && |b| > 0 && |c| > 0 && a[0] == b[0] && b[0] == c[0] {
      LexTransitive(a[1..], b[1..], c[1..]);
    }
  }

  /** The position of `e` in the sorted labels of the reference: the number
      of labels ordered before it. */
  function Rank(e: string, labels: set<string>): nat
  {
    |set l | l in labels && LexLess(l, e)|
  }

  /** A label of the reference is ranked below the number of labels. */
  lemma RankBelow(e: string, labels: set<string>)
    requires e in labels
    ensures Rank(e, labels) < |labels|
  {
    var before := set l | l in labels && LexLess(l, e);
    LexIrreflexive(e);
    assert before <= labels - {e};
    SubsetCard(before, labels - {e});
  }

  /** A label ordered before another is ranked before it. */
  lemma RankIncreasing(a: string, b: string, labels: set<string>)
    requires a in labels && LexLess(a, b)
    ensures Rank(a, labels) < Rank(b, labels)
  {
    var beforeA := set l | l in labels && LexLess(l, a);
    var beforeB := set l | l in labels && LexLess(l, b);
    forall l | l in beforeA ensures l in beforeB {
      LexTransitive(l, a, b);
    }
    LexIrreflexive(a);
    assert beforeB == beforeA + (beforeB - beforeA);
    assert a in beforeB - beforeA;
  }

  /** The horizontal position of label `e`: its rank over the largest rank. */
  function DotPosition(e: string, labels: set<string>): real
    requires |labels| > 1
  {
    Rank(e, labels) as real / (|labels| - 1) as real
  }

  /** The dots of labels of the reference lie in [0, 1], in the order of the
      labels, so different labels never share a dot. */
  lemma DotPositions(a: string, b: string, labels: set<string>)
    requires a in labels && b in labels && |labels| > 1
    ensures 0.0 <= DotPosition(a, labels) <= 1.0
    ensures LexLess(a, b) ==> DotPosition(a, labels) < DotPosition(b, labels)
  {
    RankBelow(a, labels);
    RankBelow(b, labels);
    var d := (|labels| - 1) as real;
    UnitRatio(Rank(a, labels) as real, d, d);
    if LexLess(a, b) {
      RankIncreasing(a, b, labels);
      DivStrict(Rank(a, labels) as real, Rank(b, labels) as real, d);
    }
  }

  /** Whether the dimension can be drawn: numeric, or categorical with
      labels of the reference and a reference of more than one label when
      any label is allowed. */
  predicate Plottable(l: Limit, l0: Limit)
  {
    l0.Num? || (l.Cat? && l0.Cat? && l.labels <= l0.labels && (l.labels == {} || |l0.labels| != 1))
  }

  /** The mark of limit `l` at height `y`, given the reference limit `l0`
      and the normalized ends `norm`. */
  function PlotUnc(l: Limit, l0: Limit, norm: (real, real), y: real): (r: Result<Mark, DisplayError>)
    requires SameKind(l, l0)
    ensures r.Ok? <==> Plottable(l, l0)
    ensures r.Ok? ==> r.value.y == y && (r.value.Dots? <==> l.Cat?)
    ensures r.Ok? && l.Cat? ==> forall p :: p in r.value.xs ==> 0.0 <= p <= 1.0
  {
    match l0
    case Num(_, _) => Ok(Segment(norm.0, norm.1, y))
    case Cat(s0) =>
      if !(l.labels <= s0) then Err(LabelNotInReference)
      else if l.labels != {} && |s0| == 1 then Err(SingleReferenceLabel)
      else
        var xs := set e | e in l.labels :: DotPosition(e, s0);
        assert forall e :: e in l.labels ==> 0.0 <= DotPosition(e, s0) <= 1.0 by {
          forall e | e in l.labels ensures 0.0 <= DotPosition(e, s0) <= 1.0 {
            DotPositions(e, e, s0);
          }
        }
        Ok(Dots(xs, y))
  }

  /** The dimensions in reverse order: the tick label of each row, row 0
      first. */
  function Reverse(s: seq<string>): (r: seq<string>)
    ensures |r| == |s| && forall k :: 0 <= k < |s| ==> r[k] == s[|s| - 1 - k]
  {
    seq(|s|, k requires 0 <= k < |s| => s[|s| - 1 - k])
  }

  /** The mark for dimension `u` of `box`, drawn on row `xi` and shifted
      down by 0.1 for the `j`-th box of a combined figure. */
  function MarkFor(box: Box, init: Box, uncs: seq<string>, u: string, xi: nat, j: nat): Result<Mark, DisplayError>
    requires Normalizable(box, init, uncs) && u in uncs
  {
    var l, l0 := Lookup(box, u), Lookup(init, u);
    PlotUnc(l, l0, NormLimit(l, l0), xi as real - j as real * 0.1)
  }

  /** Every box is normalizable over `uncs`. */
  predicate AllNormalizable(boxes: seq<Box>, init: Box, uncs: seq<string>)
  {
    forall j :: 0 <= j < |boxes| ==> Normalizable(boxes[j], init, uncs)
  }

  /** No box but the last holds a dimension of `uncs` that cannot be drawn. */
  predicate DisplayableBoxes(boxes: seq<Box>, init: Box, uncs: seq<string>)
    requires AllNormalizable(boxes, init, uncs)
  {
    forall i, j :: 0 <= i < |uncs| && 0 <= j < |boxes| - 1 ==>
      Plottable(Lookup(boxes[j], uncs[i]), Lookup(init, uncs[i]))
  }

  /** The figures of the boxes, all but the last (which is the reference
      box, shown as the grey background). Together, one untitled figure
      where box j of dimension i is drawn at height (n - i - 1) - 0.1 j;
      separately, one figure per box titled by its 0-based position, with
      dimension i at height n - i - 1. Either way the tick label at the row
      of dimension i is the name of dimension i. */
  method DisplayBoxes(x: Frame, boxes: seq<Box>, together: bool)
      returns (r: Result<seq<Figure>, DisplayError>, uncs: seq<string>)
    requires ValidFrame(x) && x.n > 0 && |boxes| > 0
    requires SameLayout(boxes, MakeBox(x)) && Scalable(boxes, MakeBox(x))
    ensures forall u :: u in uncs <==> u in UnionRestricted(boxes, MakeBox(x))
    ensures Distinct(uncs) && AllNormalizable(boxes, MakeBox(x), uncs)
    ensures ByWidth(boxes[0], MakeBox(x), uncs)
    ensures r.Err? <==> !DisplayableBoxes(boxes, MakeBox(x), uncs)
    ensures r.Ok? ==> Drawn(r.value, boxes, MakeBox(x), uncs, together)
  {
    r, uncs := Display(boxes, MakeBox(x), together);
  }

  /** The figures hold exactly the marks of every dimension of every box
      but the last, laid out as described for `DisplayBoxes`. */
  predicate Drawn(figs: seq<Figure>, boxes: seq<Box>, init: Box, uncs: seq<string>, together: bool)
    requires |boxes| > 0 && AllNormalizable(boxes, init, uncs) && DisplayableBoxes(boxes, init, uncs)
  {
    var n := |uncs|;
    if together then
      |figs| == 1 && figs[0].title == None && figs[0].ticks == Reverse(uncs) &&
      |figs[0].rows| == n &&
      forall i :: 0 <= i < n ==>
        |figs[0].rows[i]| == |boxes| - 1 &&
        forall j :: 0 <= j < |boxes| - 1 ==>
          figs[0].rows[i][j] == MarkFor(boxes[j], init, uncs, uncs[i], n - i - 1, j).value
    else
      |figs| == |boxes| - 1 &&
      forall j :: 0 <= j < |boxes| - 1 ==> SeparateFigure(figs[j], boxes, init, uncs, j)
  }

  /** Every dimension of box `j` can be drawn. */
  predicate BoxPlottable(boxes: seq<Box>, init: Box, uncs: seq<string>, j: nat)
    requires j < |boxes| && AllNormalizable(boxes, init, uncs)
  {
    forall i :: 0 <= i < |uncs| ==> Plottable(Lookup(boxes[j], uncs[i]), Lookup(init, uncs[i]))
  }

  /** `fig` is the figure of box `j` on its own: titled with its 0-based
      position, dimension i at height n - i - 1. */
  predicate SeparateFigure(fig: Figure, boxes: seq<Box>, init: Box, uncs: seq<string>, j: nat)
    requires j < |boxes| && AllNormalizable(boxes, init, uncs) && BoxPlottable(boxes, init, uncs, j)
  {
    fig.title == Some("box " + NatToString(j)) && fig.ticks == Reverse(uncs) &&
    |fig.rows| == |uncs| &&
    forall i :: 0 <= i < |uncs| ==> fig.rows[i] == [MarkFor(boxes[j], init, uncs, uncs[i], |uncs| - i - 1, 0).value]
  }

  /** `DisplayBoxes` against a given reference box. */
  method Display(boxes: seq<Box>, init: Box, together: bool)
      returns (r: Result<seq<Figure>, DisplayError>, uncs: seq<string>)
    requires |boxes| > 0 && SameLayout(boxes, init) && Scalable(boxes, init)
    ensures forall u :: u in uncs <==> u in UnionRestricted(boxes, init)
    ensures Distinct(uncs) && AllNormalizable(boxes, init, uncs)
    ensures ByWidth(boxes[0], init, uncs)
    ensures r.Err? <==> !DisplayableBoxes(boxes, init, uncs)
    ensures r.Ok? ==> Drawn(r.value, boxes, init, uncs, together)
  {
    var boxLims;
    boxLims, uncs := SortedBoxLims(boxes, init);
    forall j | 0 <= j < |boxes| ensures Normalizable(boxes[j], init, uncs) {
      UnionNormalizable(boxes, init, uncs, j);
    }
    var normBoxLims := NormalizeAll(boxLims[..|boxLims| - 1], init, uncs);
    if together {
      r := DrawTogether(boxes, init, uncs, normBoxLims);
    } else {
      r := DrawSeparately(boxes, init, uncs, normBoxLims);
    }
  }

  /** The normalized limits of every given box over `uncs`. */
  method NormalizeAll(boxes: seq<Box>, init: Box, uncs: seq<string>) returns (norms: seq<seq<(real, real)>>)
    requires AllNormalizable(boxes, init, uncs)
    ensures |norms| == |boxes|
    ensures forall j :: 0 <= j < |boxes| ==> (|norms[j]| == |uncs| &&
      forall i :: 0 <= i < |uncs| ==> norms[j][i] == NormLimit(Lookup(boxes[j], uncs[i]), Lookup(init, uncs[i])))
  {
    norms := [];
    for j := 0 to |boxes|
      invariant |norms| == j
      invariant forall q :: 0 <= q < j ==> (|norms[q]| == |uncs| &&
        forall i :: 0 <= i < |uncs| ==> norms[q][i] == NormLimit(Lookup(boxes[q], uncs[i]), Lookup(init, uncs[i])))
    {
      var nbl := Normalize(boxes[j], init, uncs);
      norms := norms + [nbl];
    }
  }

  /** `norms` holds the normalized limits of every box but the last. */
  predicate NormsOf(norms: seq<seq<(real, real)>>, boxes: seq<Box>, init: Box, uncs: seq<string>)
    requires AllNormalizable(boxes, init, uncs)
  {
    |norms| == |boxes| - 1 &&
    forall j :: 0 <= j < |norms| ==> (|norms[j]| == |uncs| &&
      forall i :: 0 <= i < |uncs| ==> norms[j][i] == NormLimit(Lookup(boxes[j], uncs[i]), Lookup(init, uncs[i])))
  }

  /** One figure with the marks of every box for every dimension. */
  method DrawTogether(boxes: seq<Box>, init: Box, uncs: seq<string>, norms: seq<seq<(real, real)>>)
      returns (r: Result<seq<Figure>, DisplayError>)
    requires |boxes| > 0 && AllNormalizable(boxes, init, uncs) && NormsOf(norms, boxes, init, uncs)
    ensures r.Err? <==> !DisplayableBoxes(boxes, init, uncs)
    ensures r.Ok? ==> Drawn(r.value, boxes, init, uncs, true)
  {
    var rows: seq<seq<Mark>> := [];
    for i := 0 to |uncs|
      invariant |rows| == i
      invariant forall q :: 0 <= q < i ==> (|rows[q]| == |boxes| - 1 &&
        forall j :: 0 <= j < |boxes| - 1 ==>
          Plottable(Lookup(boxes[j], uncs[q]), Lookup(init, uncs[q])) &&
          rows[q][j] == MarkFor(boxes[j], init, uncs, uncs[q], |uncs| - q - 1, j).value)
    {
      var row := DrawRow(boxes, init, uncs, norms, i);
      if row.Err? {
        r := Err(row.error);
        return;
      }
      rows := rows + [row.value];
    }
    r := Ok([Figure(None, Reverse(uncs), rows)]);
  }

  /** The marks of every box but the last for dimension `i`. */
  method DrawRow(boxes: seq<Box>, init: Box, uncs: seq<string>, norms: seq<seq<(real, real)>>, i: nat)
      returns (r: Result<seq<Mark>, DisplayError>)
    requires |boxes| > 0 && AllNormalizable(boxes, init, uncs) && NormsOf(norms, boxes, init, uncs)
    requires i < |uncs|
    ensures r.Ok? <==> forall j :: 0 <= j < |boxes| - 1 ==> Plottable(Lookup(boxes[j], uncs[i]), Lookup(init, uncs[i]))
    ensures r.Ok? ==> (|r.value| == |boxes| - 1 &&
      forall j :: 0 <= j < |boxes| - 1 ==> r.value[j] == MarkFor(boxes[j], init, uncs, uncs[i], |uncs| - i - 1, j).value)
  {
    var xi := |uncs| - i - 1;
    var u := uncs[i];
    var row: seq<Mark> := [];
    for j := 0 to |norms|
      invariant |row| == j
      invariant forall q :: 0 <= q < j ==>
        Plottable(Lookup(boxes[q], u), Lookup(init, u)) &&
        row[q] == MarkFor(boxes[q], init, uncs, u, xi, q).value
    {
      assert Normalizable(boxes[j], init, uncs);
      var m := PlotUnc(Lookup(boxes[j], u), Lookup(init, u), norms[j][i], xi as real - j as real * 0.1);
      if m.Err? {
        r := Err(m.error);
        return;
      }
      row := row + [m.value];
    }
    r := Ok(row);
  }

  /** One figure per box but the last. */
  method DrawSeparately(boxes: seq<Box>, init: Box, uncs: seq<string>, norms: seq<seq<(real, real)>>)
      returns (r: Result<seq<Figure>, DisplayError>)
    requires |boxes| > 0 && AllNormalizable(boxes, init, uncs) && NormsOf(norms, boxes, init, uncs)
    ensures r.Err? <==> !DisplayableBoxes(boxes, init, uncs)
    ensures r.Ok? ==> Drawn(r.value, boxes, init, uncs, false)
  {
    var figs: seq<Figure> := [];
    for j := 0 to |norms|
      invariant |figs| == j
      invariant forall q :: 0 <= q < j ==>
        BoxPlottable(boxes, init, uncs, q) && SeparateFigure(figs[q], boxes, init, uncs, q)
    {
      var fig := DrawFigure(boxes, init, uncs, norms, j);
      if fig.Err? {
        var i :| 0 <= i < |uncs| && !Plottable(Lookup(boxes[j], uncs[i]), Lookup(init, uncs[i]));
        r := Err(fig.error);
        return;
      }
      figs := figs + [fig.value];
    }
    assert DisplayableBoxes(boxes, init, uncs) by {
      forall i, q | 0 <= i < |uncs| && 0 <= q < |boxes| - 1
        ensures Plottable(Lookup(boxes[q], uncs[i]), Lookup(init, uncs[i]))
      {
        assert BoxPlottable(boxes, init, uncs, q);
      }
    }
    r := Ok(figs);
  }

  /** The figure of box `j`, titled with its 0-based position. */
  method DrawFigure(boxes: seq<Box>, init: Box, uncs: seq<string>, norms: seq<seq<(real, real)>>, j: nat)
      returns (r: Result<Figure, DisplayError>)
    requires |boxes| > 0 && AllNormalizable(boxes, init, uncs) && NormsOf(norms, boxes, init, uncs)
    requires j < |boxes| - 1
    ensures r.Ok? <==> BoxPlottable(boxes, init, uncs, j)
    ensures r.Ok? ==> SeparateFigure(r.value, boxes, init, uncs, j)
  {
    assert Normalizable(boxes[j], init, uncs);
    var rows: seq<seq<Mark>> := [];
    for i := 0 to |uncs|
      invariant |rows| == i
      invariant forall q :: 0 <= q < i ==>
        Plottable(Lookup(boxes[j], uncs[q]), Lookup(init, uncs[q])) &&
        rows[q] == [MarkFor(boxes[j], init, uncs, uncs[q], |uncs| - q - 1, 0).value]
    {
      var xi := |uncs| - i - 1;
      var u := uncs[i];
      var m := PlotUnc(Lookup(boxes[j], u), Lookup(init, u), norms[j][i], xi as real);
      if m.Err? {
        r := Err(m.error);
        return;
      }
      rows := rows + [[m.value]];
    }
    r := Ok(Figure(Some("box " + NatToString(j)), Reverse(uncs), rows));
  }
}
