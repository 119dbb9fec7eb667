/** Utilities on sets of experiments: turning the rows of an experiment
    table into distinct cases, and merging two result sets. */
module ExperimentUtil {
  import opened Common

  /** One entry of the experiment table: a number, or a name (the policy
      and model fields hold names). */
  datatype Entry = Number(v: real) | Text(s: string)

  /** A structured array of experiments: its field names, in declaration
      order, and one row of entries per experiment. */
  datatype Experiments = Experiments(fields: seq<string>, rows: seq<seq<Entry>>)

  predicate ValidExperiments(e: Experiments)
  {
    Distinct(e.fields) && forall i :: 0 <= i < |e.rows| ==> |e.rows[i]| == |e.fields|
  }

  /** `s` without its element at position `i`. */
  function RemoveAt(s: seq<string>, i: nat): (r: seq<string>)
    requires i < |s|
    ensures |r| == |s| - 1
    ensures forall u :: u in r ==> u in s
    ensures Distinct(s) ==> Distinct(r) && forall u :: u in r <==> u in s && u != s[i]
  {
    var r := s[..i] + s[i + 1..];
    assert forall k :: 0 <= k < |r| ==> r[k] == if k < i then s[k] else s[k + 1];
    r
  }

  /** The fields that describe a case: "policy" is dropped and then
      "model"; when "policy" is missing the failed lookup ends the removal,
      so "model" stays. */
  function CaseFields(fields: seq<string>): (r: seq<string>)
    ensures forall u :: u in r ==> u in fields
    ensures Distinct(fields) ==> (Distinct(r) &&
      ("policy" !in r) &&
      ("model" in r <==> "model" in fields && "policy" !in fields) &&
      (forall u :: u != "policy" && u != "model" ==> (u in r <==> u in fields)))
  {
    if "policy" !in fields then fields
    else
      var dropped := RemoveAt(fields, IndexOf(fields, "policy"));
      if "model" in dropped then RemoveAt(dropped, IndexOf(dropped, "model")) else dropped
  }

  /** The entry of field `u` in `row`. */
  function EntryOf(fields: seq<string>, row: seq<Entry>, u: string): Entry
    requires |row| == |fields| && u in fields
  {
    row[IndexOf(fields, u)]
  }

  /** The entries of the fields `uncs`, in that order: the tuple that
      identifies a case. */
  function TupleOf(fields: seq<string>, row: seq<Entry>, uncs: seq<string>): (t: seq<Entry>)
    requires |row| == |fields| && forall u :: u in uncs ==> u in fields
    ensures |t| == |uncs| && forall k :: 0 <= k < |uncs| ==> t[k] == EntryOf(fields, row, uncs[k])
  {
    seq(|uncs|, k requires 0 <= k < |uncs| => EntryOf(fields, row, uncs[k]))
  }

  /** The case of `row`: each field of `uncs` mapped to its entry. */
  function CaseOf(fields: seq<string>, row: seq<Entry>, uncs: seq<string>): (c: map<string, Entry>)
    requires |row| == |fields| && forall u :: u in uncs ==> u in fields
    ensures c.Keys == set u | u in uncs
    ensures forall u :: u in uncs ==> c[u] == EntryOf(fields, row, u)
  {
    map u | u in uncs :: EntryOf(fields, row, u)
  }

  /** Two rows give the same case exactly when they give the same tuple. */
  lemma CaseOfTuple(fields: seq<string>, row1: seq<Entry>, row2: seq<Entry>, uncs: seq<string>)
    requires |row1| == |fields| && |row2| == |fields| && forall u :: u in uncs ==> u in fields
    ensures CaseOf(fields, row1, uncs) == CaseOf(fields, row2, uncs) <==>
      TupleOf(fields, row1, uncs) == TupleOf(fields, row2, uncs)
  {
    var c1, c2 := CaseOf(fields, row1, uncs), CaseOf(fields, row2, uncs);
    var t1, t2 := TupleOf(fields, row1, uncs), TupleOf(fields, row2, uncs);
    if c1 == c2 {
      forall k | 0 <= k < |uncs| ensures t1[k] == t2[k] {
        assert c1[uncs[k]] == c2[uncs[k]];
      }
    }
    if t1 == t2 {
      forall u | u in uncs ensures c1[u] == c2[u] {
        var k :| 0 <= k < |uncs| && uncs[k] == u;
        assert t1[k] == t2[k];
      }
    }
  }

  /** The positions of the first occurrence of every distinct element, in
      increasing order. */
  function FirstIndices<T(==)>(ts: seq<T>): (idx: seq<nat>)
    ensures |idx| <= |ts|
    ensures forall k :: 0 <= k < |idx| ==> idx[k] < |ts| && ts[idx[k]] !in ts[..idx[k]]
    ensures forall a, b :: 0 <= a < b < |idx| ==> idx[a] < idx[b]
  {
    if |ts| == 0 then []
    else
      var last := |ts| - 1;
      var idx := FirstIndices(ts[..last]);
      assert forall k :: 0 <= k < |idx| ==> ts[..last][idx[k]] == ts[idx[k]] && ts[..last][..idx[k]] == ts[..idx[k]];
      if ts[last] in ts[..last] then idx else idx + [last]
  }

  /** The elements at the first occurrences are pairwise different. */
  lemma FirstIndicesDistinct<T>(ts: seq<T>, a: nat, b: nat)
    requires a < b < |FirstIndices(ts)|
    ensures ts[FirstIndices(ts)[a]] != ts[FirstIndices(ts)[b]]
  {
    var idx := FirstIndices(ts);
    assert ts[idx[a]] == ts[..idx[b]][idx[a]];
  }

  /** Every element has its first occurrence among the indices. */
  lemma {:induction false} FirstIndicesCover<T>(ts: seq<T>, i: nat)
    requires i < |ts|
    ensures exists k :: 0 <= k < |FirstIndices(ts)| && ts[FirstIndices(ts)[k]] == ts[i]
  {
    var last := |ts| - 1;
    var front := ts[..last];
    var idx := FirstIndices(front);
    var r := FirstIndices(ts);
    if i < last {
      FirstIndicesCover(front, i);
      var k :| 0 <= k < |idx| && front[idx[k]] == front[i];
      assert r[k] == idx[k];
      assert ts[r[k]] == ts[i];
    } else if ts[last] in front {
      var j :| 0 <= j < last && front[j] == ts[last];
      FirstIndicesCover(front, j);
      var k :| 0 <= k < |idx| && front[idx[k]] == front[j];
      assert r[k] == idx[k];
      assert ts[r[k]] == ts[i];
    } else {
      assert r[|idx|] == last;
    }
  }

  /** The cases of the experiments: for every distinct tuple of case
      fields, in order of first occurrence, the case of the row where it
      first occurs. */
  method ExperimentsToCases(e: Experiments) returns (cases: seq<map<string, Entry>>)
    requires ValidExperiments(e)
    ensures var uncs := CaseFields(e.fields);
      var idx := FirstIndices(Tuples(e, uncs));
      |cases| == |idx| <= |e.rows| &&
      forall k :: 0 <= k < |idx| ==> cases[k] == CaseOf(e.fields, e.rows[idx[k]], uncs)
    ensures Distinct(cases)
    ensures forall i :: 0 <= i < |e.rows| ==> CaseOf(e.fields, e.rows[i], CaseFields(e.fields)) in cases
  {
    var uncs := CaseFields(e.fields);
    ghost var ts := Tuples(e, uncs);
    cases := [];
    var cache: set<seq<Entry>> := {};
    ghost var idx: seq<nat> := [];
    for i := 0 to |e.rows|
      invariant idx == FirstIndices(ts[..i])
      invariant cache == set t | t in ts[..i]
      invariant |cases| == |idx| && forall k :: 0 <= k < |idx| ==> cases[k] == CaseOf(e.fields, e.rows[idx[k]], uncs)
    {
      var c, t := RowCase(e, uncs, i);
      assert ts[..i + 1][..i] == ts[..i] && ts[..i + 1][i] == t;
      if t !in cache {
        cases := cases + [c];
        cache := cache + {t};
        idx := idx + [i];
      } else {
        assert t in ts[..i];
      }
    }
    assert ts[..|e.rows|] == ts;
    CasesOfFirstRows(e, uncs, cases);
  }

  /** The cases of the first occurrences are pairwise different and
      include the case of every row. */
  lemma CasesOfFirstRows(e: Experiments, uncs: seq<string>, cases: seq<map<string, Entry>>)
    requires ValidExperiments(e) && forall u :: u in uncs ==> u in e.fields
    requires var idx := FirstIndices(Tuples(e, uncs));
      |cases| == |idx| && forall k :: 0 <= k < |idx| ==> cases[k] == CaseOf(e.fields, e.rows[idx[k]], uncs)
    ensures Distinct(cases)
    ensures forall i :: 0 <= i < |e.rows| ==> CaseOf(e.fields, e.rows[i], uncs) in cases
  {
    var ts := Tuples(e, uncs);
    var idx := FirstIndices(ts);
    forall a, b | 0 <= a < b < |cases| ensures cases[a] != cases[b] {
      FirstIndicesDistinct(ts, a, b);
      CaseOfTuple(e.fields, e.rows[idx[a]], e.rows[idx[b]], uncs);
    }
    forall i | 0 <= i < |e.rows| ensures CaseOf(e.fields, e.rows[i], uncs) in cases {
      FirstIndicesCover(ts, i);
      var k :| 0 <= k < |idx| && ts[idx[k]] == ts[i];
      CaseOfTuple(e.fields, e.rows[idx[k]], e.rows[i], uncs);
      assert cases[k] == CaseOf(e.fields, e.rows[i], uncs);
    }
  }

  /** The case tuple of every row. */
  function Tuples(e: Experiments, uncs: seq<string>): (ts: seq<seq<Entry>>)
    requires ValidExperiments(e) && forall u :: u in uncs ==> u in e.fields
    ensures |ts| == |e.rows| && forall i :: 0 <= i < |e.rows| ==> ts[i] == TupleOf(e.fields, e.rows[i], uncs)
  {
    seq(|e.rows|, i requires 0 <= i < |e.rows| => TupleOf(e.fields, e.rows[i], uncs))
  }

  /** The case and the tuple of row `i`, built field by field. */
  method RowCase(e: Experiments, uncs: seq<string>, i: nat) returns (c: map<string, Entry>, t: seq<Entry>)
    requires ValidExperiments(e) && i < |e.rows| && forall u :: u in uncs ==> u in e.fields
    ensures c == CaseOf(e.fields, e.rows[i], uncs) && t == TupleOf(e.fields, e.rows[i], uncs)
  {
    c := map[];
    t := [];
    for k := 0 to |uncs|
      invariant c.Keys == set u | u in uncs[..k]
      invariant forall u :: u in uncs[..k] ==> c[u] == EntryOf(e.fields, e.rows[i], u)
      invariant t == TupleOf(e.fields, e.rows[i], uncs)[..k]
    {
      var entry := EntryOf(e.fields, e.rows[i], uncs[k]);
      c := c[uncs[k] := entry];
      t := t + [entry];
      assert uncs[..k + 1] == uncs[..k] + [uncs[k]];
    }
    assert uncs[..|uncs|] == uncs;
  }

  /** A two-dimensional outcome: `rows` experiments by `cols` time steps. */
  datatype Outcome = Outcome(rows: nat, cols: nat, data: seq<seq<real>>)

  predicate Shaped(o: Outcome)
  {
    |o.data| == o.rows && forall r :: 0 <= r < o.rows ==> |o.data[r]| == o.cols
  }

  /** The slicing step for a down-sampling argument: 0 stands for "no
      down-sampling" (the original tests the argument for truth). */
  function Step(downsample: nat): (step: nat)
    ensures step >= 1
  {
    if downsample == 0 then 1 else downsample
  }

  /** The number of columns kept from `cols` columns: ceil(cols / d). */
  function Width(cols: nat, downsample: nat): (w: nat)
    ensures downsample == 0 ==> w == cols
  {
    if downsample == 0 then cols else (cols + downsample - 1) / downsample
  }

  /** `Width` is the ceiling of the quotient: the least w with w * d >= cols. */
  lemma WidthIsCeiling(cols: nat, d: nat)
    requires d >= 1
    ensures var w := Width(cols, d); w * d >= cols && (w - 1) * d < cols
  {
    var w := Width(cols, d);
    assert w * d + (cols + d - 1) % d == cols + d - 1;
  }

  /** Below the kept width, every picked index is a column. */
  lemma StrideIndex(k: nat, n: nat, d: nat)
    requires d >= 1 && k < Width(n, d)
    ensures k * Step(d) < n
  {
    WidthIsCeiling(n, d);
    assert (Width(n, d) - 1 - k) * d >= 0;
  }

  /** Every `step`-th entry of `s`, from the first: s[::step]. */
  function Stride(s: seq<real>, downsample: nat): (r: seq<real>)
    ensures |r| == Width(|s|, downsample)
    ensures forall k :: 0 <= k < |r| ==> k * Step(downsample) < |s| && r[k] == s[k * Step(downsample)]
  {
    if downsample == 0 then s
    else
      var w := Width(|s|, downsample);
      assert forall k :: 0 <= k < w ==> k * downsample < |s| by {
        forall k | 0 <= k < w ensures k * downsample < |s| {
          StrideIndex(k, |s|, downsample);
        }
      }
      seq(w, k requires 0 <= k < w => s[k * downsample])
  }

  /** A row of width `w`, or a single value repeated `w` times (NumPy
      broadcasting of a one-column array). */
  function Fit(row: seq<real>, w: nat): (r: seq<real>)
    requires |row| == w || |row| == 1
    ensures |r| == w && forall k :: 0 <= k < w ==> r[k] == if |row| == w then row[k] else row[0]
  {
    if |row| == w then row else seq(w, _ => row[0])
  }

  /** The down-sampled new outcome fits under the down-sampled old one:
      same width, or a single column that is broadcast. */
  predicate Mergeable(oldValue: Outcome, newValue: Outcome, downsample: nat)
  {
    var w := Width(newValue.cols, downsample);
    w == Width(oldValue.cols, downsample) || w == 1
  }

  /** `m` stacks the down-sampled rows of `oldValue` above the down-sampled
      rows of `newValue`. */
  predicate MergedFrom(m: Outcome, oldValue: Outcome, newValue: Outcome, downsample: nat)
    requires Shaped(oldValue) && Shaped(newValue) && Mergeable(oldValue, newValue, downsample)
  {
    Shaped(m) && m.rows == oldValue.rows + newValue.rows && m.cols == Width(oldValue.cols, downsample) &&
    (forall r :: 0 <= r < oldValue.rows ==> m.data[r] == Stride(oldValue.data[r], downsample)) &&
    forall r :: 0 <= r < newValue.rows ==> m.data[oldValue.rows + r] == Fit(Stride(newValue.data[r], downsample), m.cols)
  }

  /** Merging one outcome: an array of `oldValue.rows + newValue.rows` rows
      filled with the down-sampled old rows, then the down-sampled new rows;
      fails when the new rows cannot be broadcast to the width of the old ones. */
  method MergeValue(oldValue: Outcome, newValue: Outcome, downsample: nat) returns (r: Option<Outcome>)
    requires Shaped(oldValue) && Shaped(newValue)
    ensures r.Some? <==> Mergeable(oldValue, newValue, downsample)
    ensures r.Some? ==> MergedFrom(r.value, oldValue, newValue, downsample)
  {
    var i := oldValue.rows + newValue.rows;
    var j := Width(oldValue.cols, downsample);
    if !Mergeable(oldValue, newValue, downsample) {
      return None;
    }
    var data: seq<seq<real>> := [];
    for r := 0 to oldValue.rows
      invariant |data| == r
      invariant forall q :: 0 <= q < r ==> |data[q]| == j
      invariant forall q :: 0 <= q < r ==> data[q] == Stride(oldValue.data[q], downsample)
    {
      data := data + [Stride(oldValue.data[r], downsample)];
    }
    for r := 0 to newValue.rows
      invariant |data| == oldValue.rows + r
      invariant forall q :: 0 <= q < |data| ==> |data[q]| == j
      invariant forall q :: 0 <= q < oldValue.rows ==> data[q] == Stride(oldValue.data[q], downsample)
      invariant forall q :: 0 <= q < r ==> data[oldValue.rows + q] == Fit(Stride(newValue.data[q], downsample), j)
    {
      data := data + [Fit(Stride(newValue.data[r], downsample), j)];
    }
    r := Some(Outcome(i, j, data));
  }

  /** Without down-sampling, outcomes of equal width are simply stacked. */
  lemma MergeWithoutDownsampling(m: Outcome, oldValue: Outcome, newValue: Outcome)
    requires Shaped(oldValue) && Shaped(newValue) && oldValue.cols == newValue.cols
    requires Mergeable(oldValue, newValue, 0) && MergedFrom(m, oldValue, newValue, 0)
    ensures m.data == oldValue.data + newValue.data
  {
    forall r | 0 <= r < m.rows ensures m.data[r] == (oldValue.data + newValue.data)[r] {
      if r >= oldValue.rows {
        assert m.data[oldValue.rows + (r - oldValue.rows)] == Fit(Stride(newValue.data[r - oldValue.rows], 0), m.cols);
      }
    }
  }

  /** A result set: the experiments and an outcome per name. */
  datatype Results = Results(experiments: seq<seq<Entry>>, outcomes: map<string, Outcome>)

  predicate ValidResults(res: Results)
  {
    forall key :: key in res.outcomes ==> Shaped(res.outcomes[key])
  }

  /** Why a merge fails: an outcome one result set lacks (the original
      dereferences None), or a width that does not broadcast. */
  datatype MergeError = MissingOutcome(key: string) | ShapeMismatch(key: string)

  /** Every merged key names an outcome of both result sets, and each such
      outcome pair can be merged. */
  predicate KeysMergeable(res1: Results, res2: Results, keys: set<string>, downsample: nat)
  {
    forall key :: key in keys ==>
      key in res1.outcomes && key in res2.outcomes &&
      Mergeable(res1.outcomes[key], res2.outcomes[key], downsample)
  }

  /** The outcomes named by `keys`, each merged; the keys are visited in an
      unspecified order, as a Python set is. */
  method MergeOutcomes(res1: Results, res2: Results, keys: set<string>, downsample: nat)
      returns (r: Result<map<string, Outcome>, MergeError>)
    requires ValidResults(res1) && ValidResults(res2)
    ensures r.Ok? <==> KeysMergeable(res1, res2, keys, downsample)
    ensures (forall key :: key in keys ==> key in res1.outcomes && key in res2.outcomes) ==>
      (r.Err? ==> r.error.ShapeMismatch?)
    ensures r.Ok? ==> (r.value.Keys == keys &&
      forall key :: key in keys ==>
        MergedFrom(r.value[key], res1.outcomes[key], res2.outcomes[key], downsample))
  {
    var merged: map<string, Outcome> := map[];
    var rest := keys;
    while rest != {}
      invariant rest <= keys && merged.Keys == keys - rest
      invariant KeysMergeable(res1, res2, keys - rest, downsample)
      invariant forall key :: key in merged ==>
        MergedFrom(merged[key], res1.outcomes[key], res2.outcomes[key], downsample)
      decreases |rest|
    {
      var key :| key in rest;
      if key !in res1.outcomes || key !in res2.outcomes {
        return Err(MissingOutcome(key));
      }
      var value := MergeValue(res1.outcomes[key], res2.outcomes[key], downsample);
      if value.None? {
        return Err(ShapeMismatch(key));
      }
      merged := merged[key := value.value];
      rest := rest - {key};
    }
    r := Ok(merged);
  }

  /** The keys the original merges: every key of either result set. */
  function MergeKeysAsWritten(res1: Results, res2: Results): (keys: set<string>)
    ensures forall key :: key in keys <==> key in res1.outcomes || key in res2.outcomes
  {
    res1.outcomes.Keys + res2.outcomes.Keys
  }

  /** The keys its comment and log message promise: those in both. */
  function SharedKeys(res1: Results, res2: Results): (keys: set<string>)
    ensures forall key :: key in keys <==> key in res1.outcomes && key in res2.outcomes
  {
    res1.outcomes.Keys * res2.outcomes.Keys
  }

  /** Merging over all keys can only succeed when both result sets have the
      same outcomes. */
  lemma AsWrittenNeedsSameKeys(res1: Results, res2: Results, downsample: nat)
    requires KeysMergeable(res1, res2, MergeKeysAsWritten(res1, res2), downsample)
    ensures res1.outcomes.Keys == res2.outcomes.Keys
  {
  }

  /** Result sets whose outcomes differ by one name: the merge over all keys
      fails, the merge over shared keys does not. */
  lemma OneSidedOutcomeFails()
    ensures var o := Outcome(1, 1, [[0.0]]);
      var res1 := Results([], map["a" := o]);
      var res2 := Results([], map["a" := o, "b" := o]);
      !KeysMergeable(res1, res2, MergeKeysAsWritten(res1, res2), 0) &&
      KeysMergeable(res1, res2, SharedKeys(res1, res2), 0) && SharedKeys(res1, res2) == {"a"}
  {
    var o := Outcome(1, 1, [[0.0]]);
    var res1 := Results([], map["a" := o]);
    var res2 := Results([], map["a" := o, "b" := o]);
    assert "b" in MergeKeysAsWritten(res1, res2) && "b" !in res1.outcomes;
    assert SharedKeys(res1, res2) == {"a"} by {
      assert "b" !in SharedKeys(res1, res2);
    }
  }

  /** The experiments of both sets, the old ones first. */
  function MergeExperiments(oldExp: seq<seq<Entry>>, newExp: seq<seq<Entry>>): (m: seq<seq<Entry>>)
    ensures |m| == |oldExp| + |newExp| && m[..|oldExp|] == oldExp && m[|oldExp|..] == newExp
  {
    oldExp + newExp
  }

  /** `merge_results` as written: every key of either set is merged, so an
      outcome present in one set only makes it fail. */
  method MergeResultsAsWritten(res1: Results, res2: Results, downsample: nat) returns (r: Result<Results, MergeError>)
    requires ValidResults(res1) && ValidResults(res2)
    ensures res1.outcomes.Keys != res2.outcomes.Keys ==> r.Err?
    ensures r.Ok? <==> KeysMergeable(res1, res2, MergeKeysAsWritten(res1, res2), downsample)
    ensures r.Ok? ==> (r.value.experiments == res1.experiments + res2.experiments &&
      r.value.outcomes.Keys == res1.outcomes.Keys &&
      forall key :: key in r.value.outcomes ==>
        MergedFrom(r.value.outcomes[key], res1.outcomes[key], res2.outcomes[key], downsample))
  {
    var merged := MergeOutcomes(res1, res2, MergeKeysAsWritten(res1, res2), downsample);
    if merged.Err? {
      return Err(merged.error);
    }
    AsWrittenNeedsSameKeys(res1, res2, downsample);
    r := Ok(Results(MergeExperiments(res1.experiments, res2.experiments), merged.value));
  }

  /** `merge_results` as intended: the outcomes both sets have are merged,
      each stacked old above new and down-sampled, and the experiments are
      concatenated. It fails only on a width that does not broadcast. */
  method MergeResults(res1: Results, res2: Results, downsample: nat) returns (r: Result<Results, MergeError>)
    requires ValidResults(res1) && ValidResults(res2)
    ensures r.Err? <==> exists key :: (key in res1.outcomes && key in res2.outcomes &&
      !Mergeable(res1.outcomes[key], res2.outcomes[key], downsample))
    ensures r.Err? ==> r.error.ShapeMismatch?
    ensures r.Ok? ==> (r.value.experiments == res1.experiments + res2.experiments &&
      (forall key :: key in r.value.outcomes <==> key in res1.outcomes && key in res2.outcomes) &&
      forall key :: key in r.value.outcomes ==>
        MergedFrom(r.value.outcomes[key], res1.outcomes[key], res2.outcomes[key], downsample))
  {
    var keys := SharedKeys(res1, res2);
    var merged := MergeOutcomes(res1, res2, keys, downsample);
    if merged.Err? {
      return Err(merged.error);
    }
    r := Ok(Results(MergeExperiments(res1.experiments, res2.experiments), merged.value));
  }
}
