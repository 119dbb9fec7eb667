/** Preparing a table and an outcome vector for PRIM or CART. */
module DatasetAdapter {
  import opened Common
  import opened Boxes

  /** The analysis modes. Only the first two are ever chosen by `Setup`. */
  datatype Mode = Regression | Binary | Classification

  /** The outcomes of the experiments, by outcome name. */
  type Outcomes = map<string, seq<real>>

  /** What the caller passes to choose the target: the name of an outcome,
      a callable that classifies the outcomes (its flags as 0/1 values), or
      a value of any other type. */
  datatype Classifier = OutcomeName(name: string) | Rule(classify: Outcomes -> seq<real>) | Unsupported

  /** A TypeError for an unsupported classifier, a KeyError for an unknown
      outcome name. */
  datatype SetupError = UnknownClassifierType | MissingOutcome(name: string)

  datatype Prepared = Prepared(x: Frame, y: seq<real>, mode: Mode)

  /** The columns of `names`/`cols` listed in `incl`, in table order. */
  function KeepListed(names: seq<string>, cols: seq<Column>, incl: seq<string>): (r: (seq<string>, seq<Column>))
    requires |names| == |cols|
    ensures |r.0| == |r.1|
    ensures forall u :: u in r.0 <==> u in names && u in incl
    ensures forall k :: 0 <= k < |r.0| ==>
      exists c :: 0 <= c < |names| && names[c] == r.0[k] && cols[c] == r.1[k]
    ensures Distinct(names) ==> Distinct(r.0)
  {
    if |names| == 0 then ([], [])
    else
      var rest := KeepListed(names[1..], cols[1..], incl);
      var r := if names[0] in incl then ([names[0]] + rest.0, [cols[0]] + rest.1) else rest;
      assert forall k :: 0 <= k < |r.0| ==>
        exists c :: 0 <= c < |names| && names[c] == r.0[k] && cols[c] == r.1[k] by {
        forall k | 0 <= k < |r.0|
          ensures exists c :: 0 <= c < |names| && names[c] == r.0[k] && cols[c] == r.1[k]
        {
          if names[0] in incl && k == 0 {
            assert names[0] == r.0[0] && cols[0] == r.1[0];
          } else {
            var k' := if names[0] in incl then k - 1 else k;
            assert r.0[k] == rest.0[k'] && r.1[k] == rest.1[k'];
            var c :| 0 <= c < |names| - 1 && names[1..][c] == rest.0[k'] && cols[1..][c] == rest.1[k'];
            assert names[c + 1] == r.0[k] && cols[c + 1] == r.1[k];
          }
        }
      }
      assert Distinct(names) ==> Distinct(r.0) by {
        if Distinct(names) {
          assert Distinct(names[1..]) && names[0] !in rest.0;
        }
      }
      r
  }

  /** The table without the columns not listed in `incl`. */
  function KeepColumns(x: Frame, incl: seq<string>): (r: Frame)
    requires ValidFrame(x)
    ensures ValidFrame(r) && r.n == x.n
    ensures forall u :: u in r.names <==> u in x.names && u in incl
    ensures forall k :: 0 <= k < |r.names| ==> r.cols[k] == x.cols[IndexOf(x.names, r.names[k])]
  {
    var kept := KeepListed(x.names, x.cols, incl);
    var r := Frame(x.n, kept.0, kept.1);
    assert forall k :: 0 <= k < |r.names| ==>
      r.cols[k] == x.cols[IndexOf(x.names, r.names[k])] && ValidColumn(r.cols[k], x.n) by {
      forall k | 0 <= k < |r.names|
        ensures r.cols[k] == x.cols[IndexOf(x.names, r.names[k])] && ValidColumn(r.cols[k], x.n)
      {
        var c :| 0 <= c < |x.names| && x.names[c] == r.names[k] && x.cols[c] == r.cols[k];
        IndexOfDistinct(x.names, c);
      }
    }
    r
  }

  /** The table, target vector and mode for an analysis. A non-empty
      `incl` keeps only the listed columns; an outcome name selects that
      outcome for regression, a rule is applied to the outcomes for binary
      classification, anything else is a type error. */
  function Setup(x: Frame, outcomes: Outcomes, classify: Classifier, incl: seq<string>): (r: Result<Prepared, SetupError>)
    requires ValidFrame(x)
    ensures classify.Unsupported? <==> r == Err(UnknownClassifierType)
    ensures classify.OutcomeName? ==>
      if classify.name in outcomes
      then r.Ok? && r.value.mode == Regression && r.value.y == outcomes[classify.name]
      else r == Err(MissingOutcome(classify.name))
    ensures classify.Rule? ==>
      r.Ok? && r.value.mode == Binary && r.value.y == classify.classify(outcomes)
    ensures r.Ok? ==> ValidFrame(r.value.x) && r.value.x.n == x.n
    ensures r.Ok? && |incl| == 0 ==> r.value.x == x
    ensures r.Ok? && |incl| > 0 ==>
      forall u :: u in r.value.x.names <==> u in x.names && u in incl
    ensures r.Ok? && |incl| > 0 ==>
      forall k :: 0 <= k < |r.value.x.names| ==> r.value.x.cols[k] == x.cols[IndexOf(x.names, r.value.x.names[k])]
  {
    var x' := if |incl| > 0 then KeepColumns(x, incl) else x;
    match classify
    case OutcomeName(name) =>
      if name in outcomes then Ok(Prepared(x', outcomes[name], Regression))
      else Err(MissingOutcome(name))
    case Rule(f) => Ok(Prepared(x', f(outcomes), Binary))
    case Unsupported => Err(UnknownClassifierType)
  }
}
