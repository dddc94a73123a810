/** The structural part of converting a JSON model description into a layer
    stack: the up-front check of layer types, the per-layer dispatch, the
    resolution of each runtime parameter name to a JSON parameter array, and the
    collapse alphabet of the modified-base flip-flop layer. Constructing the
    runtime layers and checking parameter shapes belong to the ML library and
    are represented only by the layer's type tag and its list of parameter
    names. */
module JsonToCheckpoint {
  import opened Wrappers

  /** The layer types the converter accepts. */
  const CompatibleLayers: set<string> :=
    {"convolution", "GruMod", "reverse", "GlobalNormTwoState", "GlobalNormTwoStateCatMod"}

  /** A parameter array as the JSON document holds it: a number or a list of arrays. */
  datatype NdArray = Scalar(x: real) | List(items: seq<NdArray>)

  /** One entry of the JSON `sublayers` list, with the fields the conversion reads. */
  datatype JsonLayer = JsonLayer(
    kind: string,
    activation: Option<string>,
    sublayers: Option<JsonLayer>,
    outputAlphabet: Option<string>,
    canNmods: Option<seq<nat>>,
    params: map<string, NdArray>)

  predicate Distinct(names: seq<string>)
  {
    forall i, j :: 0 <= i < j < |names| ==> names[i] != names[j]
  }

  /** The parameter names of a runtime layer's state dictionary, in its order. */
  type StateDictKeys = names: seq<string> | Distinct(names) witness []

  /** Why a conversion stops. Every one of them ends the run with exit status 1. */
  datatype ConvertError =
    | IncompatibleLayerTypes(types: set<string>)
    | IncompatibleActivation(activation: string)
    | IncompatibleParameter(name: string)
    | UnboundParameterValue(name: string)
    | ConcatenateError(name: string)
    | MissingField(field: string)
    | AlphabetIndexError
    | UnboundLayer(kind: string)

  /** `re.search(pattern, s)` for a pattern without special characters. */
  predicate Contains(s: string, pattern: string): (b: bool)
    ensures b ==> |pattern| <= |s|
    ensures |pattern| == 0 ==> b
  {
    assert |pattern| == 0 ==> MatchesAt(s, pattern, 0);
    exists i :: 0 <= i <= |s| - |pattern| && MatchesAt(s, pattern, i)
  }

  predicate MatchesAt(s: string, pattern: string, i: int)
  {
    0 <= i <= |s| - |pattern| && s[i..i + |pattern|] == pattern
  }

  /** `Contains` is the usual substring relation: the name splits around an
      occurrence of the pattern. */
  lemma ContainsIffSplit(s: string, pattern: string)
    ensures Contains(s, pattern) <==>
              exists i :: 0 <= i <= |s| - |pattern| && s == s[..i] + pattern + s[i + |pattern|..]
  {
    if Contains(s, pattern) {
      var i :| 0 <= i <= |s| - |pattern| && MatchesAt(s, pattern, i);
      assert s == s[..i] + s[i..i + |pattern|] + s[i + |pattern|..];
    }
    if exists i :: 0 <= i <= |s| - |pattern| && s == s[..i] + pattern + s[i + |pattern|..] {
      var i :| 0 <= i <= |s| - |pattern| && s == s[..i] + pattern + s[i + |pattern|..];
      assert s[i..i + |pattern|] == pattern;
      assert MatchesAt(s, pattern, i);
    }
  }

  lemma NotContainedWithoutFirstChar(s: string, pattern: string)
    requires |pattern| > 0 && pattern[0] !in s
    ensures !Contains(s, pattern)
  {
    forall i | 0 <= i <= |s| - |pattern| ensures !MatchesAt(s, pattern, i) {
      assert s[i..i + |pattern|][0] == s[i];
    }
  }

  // ---------------------------------------------------------------------------
  // Concatenating groups along axis 0 (np.concatenate)
  // ---------------------------------------------------------------------------

  function Rows(a: NdArray): nat
  {
    if a.List? then |a.items| else 0
  }

  /** Total number of rows of a list of groups. */
  function RowCount(groups: seq<NdArray>): nat
  {
    if |groups| == 0 then 0 else RowCount(groups[..|groups| - 1]) + Rows(groups[|groups| - 1])
  }

  predicate AllLists(groups: seq<NdArray>)
  {
    forall i :: 0 <= i < |groups| ==> groups[i].List?
  }

  /** The rows of every group, one group after the other. */
  function JoinRows(groups: seq<NdArray>): (rows: seq<NdArray>)
    requires AllLists(groups)
    ensures |rows| == RowCount(groups)
  {
    if |groups| == 0 then []
    else JoinRows(groups[..|groups| - 1]) + groups[|groups| - 1].items
  }

  /** Row `row` of group `i` is row `RowCount(groups[..i]) + row` of the result. */
  lemma {:induction false} JoinRowsAt(groups: seq<NdArray>, i: nat, row: nat)
    requires AllLists(groups) && i < |groups| && row < Rows(groups[i])
    ensures RowCount(groups[..i]) + row < |JoinRows(groups)|
    ensures JoinRows(groups)[RowCount(groups[..i]) + row] == groups[i].items[row]
  {
    var n := |groups|;
    if i < n - 1 {
      assert groups[..n - 1][..i] == groups[..i];
      JoinRowsAt(groups[..n - 1], i, row);
    } else {
      assert groups[..i] == groups[..n - 1];
    }
  }

  /** `np.concatenate(v)`: fails unless `v` is a non-empty list of lists. */
  function Concatenate(v: NdArray): (r: Option<NdArray>)
    ensures r.Some? <==> v.List? && |v.items| > 0 && AllLists(v.items)
    ensures r.Some? ==> r.value.List? && |r.value.items| == RowCount(v.items)
  {
    if v.List? && |v.items| > 0 && AllLists(v.items) then Some(List(JoinRows(v.items))) else None
  }

  // ---------------------------------------------------------------------------
  // Resolving parameter names (set_params)
  // ---------------------------------------------------------------------------

  /** How one runtime parameter name is matched to the JSON parameters. */
  datatype Rule = ExactKey | ConcatGroups(key: string) | KeepPrevious | UseDirect(key: string)

  /** The name contains `pattern` and the JSON parameters have `key`. */
  predicate Guard(name: string, params: map<string, NdArray>, pattern: string, key: string)
  {
    Contains(name, pattern) && key in params
  }

  /** The rule table, first match wins; None when no rule applies. Each rule is
      chosen exactly when its own test passes and every earlier test fails. */
  function RuleFor(name: string, params: map<string, NdArray>): (r: Option<Rule>)
    ensures r == Some(ExactKey) <==> name in params
    ensures r == Some(ConcatGroups("iW")) <==> name !in params && Guard(name, params, "weight_ih", "iW")
    ensures r == Some(ConcatGroups("sW")) <==>
              && name !in params && !Guard(name, params, "weight_ih", "iW")
              && Guard(name, params, "weight_hh", "sW")
    ensures r == Some(ConcatGroups("b")) <==>
              && name !in params && !Guard(name, params, "weight_ih", "iW")
              && !Guard(name, params, "weight_hh", "sW") && Guard(name, params, "bias_ih", "b")
    ensures r == Some(KeepPrevious) <==>
              && name !in params && !Guard(name, params, "weight_ih", "iW")
              && !Guard(name, params, "weight_hh", "sW") && !Guard(name, params, "bias_ih", "b")
              && Contains(name, "bias_hh")
    ensures r == Some(UseDirect("W")) <==>
              && name !in params && !Guard(name, params, "weight_ih", "iW")
              && !Guard(name, params, "weight_hh", "sW") && !Guard(name, params, "bias_ih", "b")
              && !Contains(name, "bias_hh") && Guard(name, params, "weight", "W")
    ensures r == Some(UseDirect("b")) <==>
              && name !in params && !Guard(name, params, "weight_ih", "iW")
              && !Guard(name, params, "weight_hh", "sW") && !Guard(name, params, "bias_ih", "b")
              && !Contains(name, "bias_hh") && !Guard(name, params, "weight", "W")
              && Guard(name, params, "bias", "b")
    ensures r.None? <==>
              && name !in params && !Guard(name, params, "weight_ih", "iW")
              && !Guard(name, params, "weight_hh", "sW") && !Guard(name, params, "bias_ih", "b")
              && !Contains(name, "bias_hh") && !Guard(name, params, "weight", "W")
              && !Guard(name, params, "bias", "b")
    ensures r.Some? && (r.value.ConcatGroups? || r.value.UseDirect?) ==> r.value.key in params
    ensures Contains(name, "bias_hh") ==> r.Some?
  {
    if name in params then Some(ExactKey)
    else if Contains(name, "weight_ih") && "iW" in params then Some(ConcatGroups("iW"))
    else if Contains(name, "weight_hh") && "sW" in params then Some(ConcatGroups("sW"))
    else if Contains(name, "bias_ih") && "b" in params then Some(ConcatGroups("b"))
    else if Contains(name, "bias_hh") then Some(KeepPrevious)
    else if Contains(name, "weight") && "W" in params then Some(UseDirect("W"))
    else if Contains(name, "bias") && "b" in params then Some(UseDirect("b"))
    else None
  }

  /** The four parameters of a recurrent layer, with the grouped JSON keys
      present: the two weights and the input bias are concatenated from their
      groups, and `bias_hh` keeps the previous value. */
  lemma GruParameterRules(iW: NdArray, sW: NdArray, b: NdArray)
    ensures var params := map["iW" := iW, "sW" := sW, "b" := b];
            && RuleFor("weight_ih_l0", params) == Some(ConcatGroups("iW"))
            && RuleFor("weight_hh_l0", params) == Some(ConcatGroups("sW"))
            && RuleFor("bias_ih_l0", params) == Some(ConcatGroups("b"))
            && RuleFor("bias_hh_l0", params) == Some(KeepPrevious)
  {
    assert MatchesAt("weight_ih_l0", "weight_ih", 0);
    assert MatchesAt("weight_hh_l0", "weight_hh", 0);
    assert MatchesAt("bias_ih_l0", "bias_ih", 0);
    assert MatchesAt("bias_hh_l0", "bias_hh", 0);
    forall i | 0 <= i <= 3 ensures !MatchesAt("weight_hh_l0", "weight_ih", i) {
      assert "weight_hh_l0"[i..i + 9][0] == "weight_hh_l0"[i];
      assert "weight_hh_l0"[i..i + 9][7] == "weight_hh_l0"[i + 7];
    }
    NotContainedWithoutFirstChar("bias_ih_l0", "weight_ih");
    NotContainedWithoutFirstChar("bias_ih_l0", "weight_hh");
    NotContainedWithoutFirstChar("bias_hh_l0", "weight_ih");
    NotContainedWithoutFirstChar("bias_hh_l0", "weight_hh");
    forall i | 0 <= i <= 3 ensures !MatchesAt("bias_hh_l0", "bias_ih", i) {
      assert "bias_hh_l0"[i..i + 7][0] == "bias_hh_l0"[i];
      assert "bias_hh_l0"[i..i + 7][5] == "bias_hh_l0"[i + 5];
    }
  }

  /** The name's rule gives the carried parameter array a new value. */
  predicate Assigns(name: string, params: map<string, NdArray>)
  {
    var r := RuleFor(name, params);
    r.Some? && (r.value.ConcatGroups? || r.value.UseDirect?)
  }

  /** The array an assigning rule produces; None when concatenation fails or
      the rule assigns nothing. */
  function Produced(name: string, params: map<string, NdArray>): Option<NdArray>
  {
    match RuleFor(name, params)
    case Some(ConcatGroups(key)) => Concatenate(params[key])
    case Some(UseDirect(key)) => Some(params[key])
    case _ => None
  }

  /** The last of the first `n` names that assigns a value. */
  function LatestAssigner(names: seq<string>, params: map<string, NdArray>, n: nat): (r: Option<nat>)
    requires n <= |names|
    ensures r.Some? ==> r.value < n && Assigns(names[r.value], params)
    ensures r.Some? ==> forall j :: r.value < j < n ==> !Assigns(names[j], params)
    ensures r.None? ==> forall j :: 0 <= j < n ==> !Assigns(names[j], params)
  {
    if n == 0 then None
    else if Assigns(names[n - 1], params) then Some(n - 1)
    else LatestAssigner(names, params, n - 1)
  }

  /** Name `k` stops the loop: no rule matches, its concatenation fails, or it
      assigns nothing while no earlier name has assigned a value. */
  predicate FailsAt(names: seq<string>, params: map<string, NdArray>, k: nat)
    requires k < |names|
  {
    || RuleFor(names[k], params).None?
    || (Assigns(names[k], params) && Produced(names[k], params).None?)
    || (!Assigns(names[k], params) && LatestAssigner(names, params, k).None?)
  }

  function ErrorAt(names: seq<string>, params: map<string, NdArray>, k: nat): ConvertError
    requires k < |names|
  {
    if RuleFor(names[k], params).None? then IncompatibleParameter(names[k])
    else if Assigns(names[k], params) then ConcatenateError(names[k])
    else UnboundParameterValue(names[k])
  }

  /** The first failing name at or after `from`. */
  function FirstFailure(names: seq<string>, params: map<string, NdArray>, from: nat): (r: Option<nat>)
    requires from <= |names|
    decreases |names| - from
    ensures r.Some? ==> from <= r.value < |names| && FailsAt(names, params, r.value)
    ensures r.Some? ==> forall j :: from <= j < r.value ==> !FailsAt(names, params, j)
    ensures r.None? ==> forall j :: from <= j < |names| ==> !FailsAt(names, params, j)
  {
    if from == |names| then None
    else if FailsAt(names, params, from) then Some(from)
    else FirstFailure(names, params, from + 1)
  }

  lemma {:induction false} FirstFailureIs(names: seq<string>, params: map<string, NdArray>, from: nat, k: nat)
    requires from <= k < |names| && FailsAt(names, params, k)
    requires forall j :: from <= j < k ==> !FailsAt(names, params, j)
    ensures FirstFailure(names, params, from) == Some(k)
    decreases k - from
  {
    if from < k {
      FirstFailureIs(names, params, from + 1, k);
    }
  }

  /** The array variable before name `n` is handled: the array of the latest
      assigning name before `n`, if there is one. */
  function Carried(names: seq<string>, params: map<string, NdArray>, n: nat): Option<NdArray>
    requires n <= |names|
  {
    match LatestAssigner(names, params, n)
    case Some(j) => Produced(names[j], params)
    case None => None
  }

  lemma CarriedStep(names: seq<string>, params: map<string, NdArray>, i: nat)
    requires i < |names|
    ensures Carried(names, params, i + 1) ==
            if Assigns(names[i], params) then Produced(names[i], params) else Carried(names, params, i)
  {
  }

  lemma CarriedDefined(names: seq<string>, params: map<string, NdArray>, n: nat)
    requires n <= |names|
    requires forall j :: 0 <= j < n ==> !FailsAt(names, params, j)
    ensures Carried(names, params, n).Some? <==> LatestAssigner(names, params, n).Some?
  {
    var latest := LatestAssigner(names, params, n);
    if latest.Some? {
      assert !FailsAt(names, params, latest.value);
    }
  }

  /** The array stored under name `k`: that of the latest assigning name up to `k`. */
  function StoredValue(names: seq<string>, params: map<string, NdArray>, k: nat): NdArray
    requires k < |names|
    requires forall j :: 0 <= j <= k ==> !FailsAt(names, params, j)
  {
    assert !FailsAt(names, params, k);
    CarriedDefined(names, params, k + 1);
    Carried(names, params, k + 1).value
  }

  /** The ordered parameter list set_params builds, or the error at the first
      failing name. An assigning name stores its own array; any other name
      stores the array stored for the name before it. */
  function ResolveParams(names: seq<string>, params: map<string, NdArray>)
    : (r: Result<seq<(string, NdArray)>, ConvertError>)
    ensures r.Success? <==> forall k :: 0 <= k < |names| ==> !FailsAt(names, params, k)
    ensures r.Success? ==> |r.value| == |names| && forall k :: 0 <= k < |names| ==> r.value[k].0 == names[k]
    ensures r.Success? ==> forall k :: 0 <= k < |names| && Assigns(names[k], params) ==>
              Produced(names[k], params) == Some(r.value[k].1)
    ensures r.Success? ==> forall k :: 0 <= k < |names| && !Assigns(names[k], params) ==>
              k > 0 && r.value[k].1 == r.value[k - 1].1
    ensures r.Failure? ==>
              exists k :: (0 <= k < |names| && FailsAt(names, params, k)
                           && (forall j :: 0 <= j < k ==> !FailsAt(names, params, j))
                           && r.error == ErrorAt(names, params, k))
  {
    match FirstFailure(names, params, 0)
    case Some(k) => Failure(ErrorAt(names, params, k))
    case None =>
      var od := Resolved(names, params, |names|);
      assert forall k :: 0 <= k < |names| && Assigns(names[k], params) ==> Produced(names[k], params) == Some(od[k].1) by {
        forall k | 0 <= k < |names| && Assigns(names[k], params)
          ensures Produced(names[k], params) == Some(od[k].1)
        {
          assert LatestAssigner(names, params, k + 1) == Some(k);
          assert !FailsAt(names, params, k);
        }
      }
      assert forall k :: 0 <= k < |names| && !Assigns(names[k], params) ==> k > 0 && od[k].1 == od[k - 1].1 by {
        forall k | 0 <= k < |names| && !Assigns(names[k], params)
          ensures k > 0 && od[k].1 == od[k - 1].1
        {
          assert !FailsAt(names, params, k);
          assert LatestAssigner(names, params, k + 1) == LatestAssigner(names, params, k);
        }
      }
      Success(od)
  }

  /** The stored list for the first `n` names, when none of them fails. */
  function Resolved(names: seq<string>, params: map<string, NdArray>, n: nat): (od: seq<(string, NdArray)>)
    requires n <= |names| && forall j :: 0 <= j < n ==> !FailsAt(names, params, j)
    ensures |od| == n
    ensures forall k :: 0 <= k < n ==> od[k] == (names[k], StoredValue(names, params, k))
  {
    if n == 0 then [] else Resolved(names, params, n - 1) + [(names[n - 1], StoredValue(names, params, n - 1))]
  }

  lemma ResolvedAll(names: seq<string>, params: map<string, NdArray>)
    requires forall j :: 0 <= j < |names| ==> !FailsAt(names, params, j)
    ensures ResolveParams(names, params) == Success(Resolved(names, params, |names|))
  {
    assert FirstFailure(names, params, 0).None?;
  }

  /** One iteration of set_params: resolves name `i` through the rule table,
      given the array variable as the previous names left it. Returns the
      variable's new value, or the error that stops the loop. */
  method ResolveName(names: StateDictKeys, params: map<string, NdArray>, i: nat, carried: Option<NdArray>)
    returns (next: Option<NdArray>, err: Option<ConvertError>)
    requires i < |names| && carried == Carried(names, params, i)
    requires forall j :: 0 <= j < i ==> !FailsAt(names, params, j)
    ensures err.Some? <==> FailsAt(names, params, i)
    ensures err.Some? ==> err.value == ErrorAt(names, params, i)
    ensures err.None? ==> next.Some? && next == Carried(names, params, i + 1)
  {
    var layerName := names[i];
    CarriedStep(names, params, i);
    CarriedDefined(names, params, i);
    next := carried;
    match RuleFor(layerName, params) {
      case None =>
        return next, Some(IncompatibleParameter(layerName));
      case Some(ExactKey) =>
      case Some(KeepPrevious) =>
      case Some(ConcatGroups(key)) =>
        var joined := Concatenate(params[key]);
        if joined.None? {
          return next, Some(ConcatenateError(layerName));
        }
        next := joined;
      case Some(UseDirect(key)) =>
        next := Some(params[key]);
    }
    if next.None? {
      return next, Some(UnboundParameterValue(layerName));
    }
    err := None;
  }

  /** Walks the state-dictionary names in order, resolving each through the
      rule table; the array variable is carried from one name to the next, so
      a name matched by its exact key or a `bias_hh` name stores whatever the
      previous name resolved to. */
  method SetParams(names: StateDictKeys, params: map<string, NdArray>)
    returns (r: Result<seq<(string, NdArray)>, ConvertError>)
    ensures r == ResolveParams(names, params)
  {
    var paramsOd: seq<(string, NdArray)> := [];
    var jsnLayerParams: Option<NdArray> := None;
    for i := 0 to |names|
      invariant forall j :: 0 <= j < i ==> !FailsAt(names, params, j)
      invariant jsnLayerParams == Carried(names, params, i)
      invariant paramsOd == Resolved(names, params, i)
    {
      var next, err := ResolveName(names, params, i, jsnLayerParams);
      if err.Some? {
        FirstFailureIs(names, params, 0, i);
        return Failure(err.value);
      }
      jsnLayerParams := next;
      paramsOd := paramsOd + [(names[i], jsnLayerParams.value)];
    }
    ResolvedAll(names, params);
    r := Success(paramsOd);
  }

  /** A name that is itself a JSON key stores the array of the name before it,
      not its own: here "linear.bias" stores the weight matrix. */
  lemma ExactKeyStoresPreviousArray(w: NdArray, b: NdArray)
    requires w != b
    ensures var r := ResolveParams(["linear.weight", "linear.bias"], map["W" := w, "linear.bias" := b]);
            r == Success([("linear.weight", w), ("linear.bias", w)])
  {
    var names := ["linear.weight", "linear.bias"];
    var params := map["W" := w, "linear.bias" := b];
    NotContainedWithoutFirstChar(names[0], "bias_hh");
    assert names[0][7..7 + |"weight"|] == "weight";
    assert MatchesAt(names[0], "weight", 7);
    assert RuleFor(names[0], params) == Some(UseDirect("W"));
    assert RuleFor(names[1], params) == Some(ExactKey);
    assert !FailsAt(names, params, 0);
    assert !FailsAt(names, params, 1);
    var r := ResolveParams(names, params);
    assert r.value[0].1 == w;
    assert r.value[1].1 == w;
    assert r.value == [("linear.weight", w), ("linear.bias", w)];
  }

  /** A first name matched by its exact key has no array to store. */
  lemma ExactKeyFirstIsUnbound(b: NdArray)
    ensures ResolveParams(["bias"], map["bias" := b]) == Failure(UnboundParameterValue("bias"))
  {
    var names := ["bias"];
    var params := map["bias" := b];
    assert FailsAt(names, params, 0);
  }

  // ---------------------------------------------------------------------------
  // Collapse alphabet of the modified-base flip-flop layer
  // ---------------------------------------------------------------------------

  /** Position of canonical base `i` in the output alphabet: the sum of
      `canNmods[j] + 1` over the bases before it. */
  function Start(canNmods: seq<nat>, i: nat): (r: nat)
    requires i <= |canNmods|
    ensures i <= r
  {
    if i == 0 then 0 else Start(canNmods, i - 1) + canNmods[i - 1] + 1
  }

  function Total(canNmods: seq<nat>): nat
  {
    Start(canNmods, |canNmods|)
  }

  lemma {:induction false} StartPrefix(canNmods: seq<nat>, m: nat, i: nat)
    requires i <= m <= |canNmods|
    ensures Start(canNmods[..m], i) == Start(canNmods, i)
  {
    if i > 0 {
      StartPrefix(canNmods, m, i - 1);
    }
  }

  lemma {:induction false} StartMonotone(canNmods: seq<nat>, i: nat, j: nat)
    requires i <= j <= |canNmods|
    ensures Start(canNmods, i) + (j - i) <= Start(canNmods, j)
  {
    if i < j {
      StartMonotone(canNmods, i, j - 1);
    }
  }

  /** The last canonical base's position lies inside the output alphabet (and so,
      by `FitsEvery`, every base's position does). */
  predicate Fits(outputAlphabet: string, canNmods: seq<nat>)
  {
    |canNmods| == 0 || Start(canNmods, |canNmods| - 1) < |outputAlphabet|
  }

  /** `Fits` holds exactly when every canonical base's position lies inside the
      output alphabet, which is what each step of the loop indexes. */
  lemma FitsEvery(outputAlphabet: string, canNmods: seq<nat>)
    ensures Fits(outputAlphabet, canNmods) <==>
            forall i :: 0 <= i < |canNmods| ==> Start(canNmods, i) < |outputAlphabet|
  {
    var n := |canNmods|;
    if Fits(outputAlphabet, canNmods) {
      forall i | 0 <= i < n ensures Start(canNmods, i) < |outputAlphabet| {
        StartMonotone(canNmods, i, n - 1);
      }
    } else {
      assert Start(canNmods, n - 1) >= |outputAlphabet|;
    }
  }

  /** Under `Fits`, each canonical base's position lies inside the output alphabet. */
  lemma {:induction false} FitsAt(outputAlphabet: string, canNmods: seq<nat>, i: nat)
    requires i < |canNmods| && Fits(outputAlphabet, canNmods)
    ensures Start(canNmods, i) < |outputAlphabet|
  {
    StartMonotone(canNmods, i, |canNmods| - 1);
  }

  function Repeat(c: char, n: nat): (r: string)
    ensures |r| == n && forall k :: 0 <= k < n ==> r[k] == c
  {
    seq(n, _ => c)
  }

  /** Each canonical base, repeated once for itself and once per modification. */
  function Expand(outputAlphabet: string, canNmods: seq<nat>): (r: string)
    requires Fits(outputAlphabet, canNmods)
    ensures |r| == Total(canNmods)
  {
    var n := |canNmods|;
    if n == 0 then ""
    else
      var prefix := canNmods[..n - 1];
      FitsPrefix(outputAlphabet, canNmods, n - 1);
      StartPrefix(canNmods, n - 1, n - 1);
      Expand(outputAlphabet, prefix) + Repeat(outputAlphabet[Start(canNmods, n - 1)], canNmods[n - 1] + 1)
  }

  lemma FitsPrefix(outputAlphabet: string, canNmods: seq<nat>, m: nat)
    requires m <= |canNmods| && Fits(outputAlphabet, canNmods)
    ensures Fits(outputAlphabet, canNmods[..m])
  {
    if m > 0 {
      StartPrefix(canNmods, m, m - 1);
      FitsAt(outputAlphabet, canNmods, m - 1);
    }
  }

  lemma FitsExtend(outputAlphabet: string, canNmods: seq<nat>, i: nat)
    requires i < |canNmods| && Start(canNmods, i) < |outputAlphabet|
    ensures Fits(outputAlphabet, canNmods[..i + 1])
  {
    StartPrefix(canNmods, i + 1, i);
  }

  /** Letter `row` of block `i` of the collapse alphabet is canonical base `i`. */
  lemma {:induction false} ExpandBlock(outputAlphabet: string, canNmods: seq<nat>, i: nat, row: nat)
    requires Fits(outputAlphabet, canNmods) && i < |canNmods| && row <= canNmods[i]
    ensures Start(canNmods, i) < |outputAlphabet|
    ensures Start(canNmods, i) + row < |Expand(outputAlphabet, canNmods)|
    ensures Expand(outputAlphabet, canNmods)[Start(canNmods, i) + row] == outputAlphabet[Start(canNmods, i)]
    decreases |canNmods|, 1
  {
    FitsAt(outputAlphabet, canNmods, i);
    if i < |canNmods| - 1 {
      ExpandBlockEarlier(outputAlphabet, canNmods, i, row);
    } else {
      ExpandBlockLast(outputAlphabet, canNmods, row);
    }
  }

  /** The last block of the collapse alphabet follows all earlier ones. */
  lemma ExpandSnoc(outputAlphabet: string, canNmods: seq<nat>)
    requires Fits(outputAlphabet, canNmods) && |canNmods| > 0
    ensures Fits(outputAlphabet, canNmods[..|canNmods| - 1])
    ensures Start(canNmods, |canNmods| - 1) < |outputAlphabet|
    ensures Expand(outputAlphabet, canNmods) ==
            Expand(outputAlphabet, canNmods[..|canNmods| - 1])
            + Repeat(outputAlphabet[Start(canNmods, |canNmods| - 1)], canNmods[|canNmods| - 1] + 1)
    ensures |Expand(outputAlphabet, canNmods[..|canNmods| - 1])| == Start(canNmods, |canNmods| - 1)
  {
    var n := |canNmods|;
    FitsPrefix(outputAlphabet, canNmods, n - 1);
    StartPrefix(canNmods, n - 1, n - 1);
  }

  lemma ExpandBlockLast(outputAlphabet: string, canNmods: seq<nat>, row: nat)
    requires Fits(outputAlphabet, canNmods) && |canNmods| > 0 && row <= canNmods[|canNmods| - 1]
    ensures Start(canNmods, |canNmods| - 1) < |outputAlphabet|
    ensures Start(canNmods, |canNmods| - 1) + row < |Expand(outputAlphabet, canNmods)|
    ensures Expand(outputAlphabet, canNmods)[Start(canNmods, |canNmods| - 1) + row]
            == outputAlphabet[Start(canNmods, |canNmods| - 1)]
  {
    ExpandSnoc(outputAlphabet, canNmods);
  }

  lemma {:induction false} ExpandBlockEarlier(outputAlphabet: string, canNmods: seq<nat>, i: nat, row: nat)
    requires Fits(outputAlphabet, canNmods) && i < |canNmods| - 1 && row <= canNmods[i]
    ensures Start(canNmods, i) < |outputAlphabet|
    ensures Start(canNmods, i) + row < |Expand(outputAlphabet, canNmods)|
    ensures Expand(outputAlphabet, canNmods)[Start(canNmods, i) + row] == outputAlphabet[Start(canNmods, i)]
    decreases |canNmods|, 0
  {
    var n := |canNmods|;
    var prefix := canNmods[..n - 1];
    ExpandSnoc(outputAlphabet, canNmods);
    StartPrefix(canNmods, n - 1, i);
    StartPrefix(canNmods, n - 1, i + 1);
    StartMonotone(prefix, i + 1, n - 1);
    ExpandBlock(outputAlphabet, prefix, i, row);
  }

  /** With no modifications the collapse alphabet is the first letters of the
      output alphabet, one per canonical base. */
  lemma {:induction false} NoModificationsIsPrefix(outputAlphabet: string, canNmods: seq<nat>)
    requires |canNmods| <= |outputAlphabet|
    requires forall i :: 0 <= i < |canNmods| ==> canNmods[i] == 0
    ensures Fits(outputAlphabet, canNmods)
    ensures Expand(outputAlphabet, canNmods) == outputAlphabet[..|canNmods|]
  {
    var n := |canNmods|;
    assert forall i :: 0 <= i <= n ==> Start(canNmods, i) == i by {
      forall i | 0 <= i <= n ensures Start(canNmods, i) == i {
        StartIsIndex(canNmods, i);
      }
    }
    if n > 0 {
      var prefix := canNmods[..n - 1];
      NoModificationsIsPrefix(outputAlphabet, prefix);
      FitsPrefix(outputAlphabet, canNmods, n - 1);
    }
  }

  lemma {:induction false} StartIsIndex(canNmods: seq<nat>, i: nat)
    requires i <= |canNmods|
    requires forall j :: 0 <= j < |canNmods| ==> canNmods[j] == 0
    ensures Start(canNmods, i) == i
  {
    if i > 0 {
      StartIsIndex(canNmods, i - 1);
    }
  }

  /** The two small alphabets: "ACGT" with no modifications, and "AYCGT" with one
      modification of A. "ACGT" with one modification of A runs off the end. */
  lemma CollapseExamples()
    ensures Fits("ACGT", [0, 0, 0, 0]) && Expand("ACGT", [0, 0, 0, 0]) == "ACGT"
    ensures Fits("AYCGT", [1, 0, 0, 0]) && Expand("AYCGT", [1, 0, 0, 0]) == "AACGT"
    ensures !Fits("ACGT", [1, 0, 0, 0])
  {
    NoModificationsIsPrefix("ACGT", [0, 0, 0, 0]);
    assert "ACGT"[..4] == "ACGT";
    OneModificationOfA();
    var m: seq<nat> := [1, 0, 0, 0];
    assert Start(m, 3) == 4;
  }

  lemma OneModificationOfA()
    ensures Fits("AYCGT", [1, 0, 0, 0]) && Expand("AYCGT", [1, 0, 0, 0]) == "AACGT"
  {
    var m: seq<nat> := [1, 0, 0, 0];
    assert Start(m, 0) == 0 && Start(m, 1) == 2 && Start(m, 2) == 3 && Start(m, 3) == 4;
    var e := Expand("AYCGT", m);
    ExpandBlock("AYCGT", m, 0, 0);
    ExpandBlock("AYCGT", m, 0, 1);
    ExpandBlock("AYCGT", m, 1, 0);
    ExpandBlock("AYCGT", m, 2, 0);
    ExpandBlock("AYCGT", m, 3, 0);
    assert e == "AACGT";
  }

  /** Builds the collapse alphabet letter block by letter block, advancing a
      cursor through the output alphabet; None when the cursor runs past its
      end (an IndexError). */
  method BuildCollapseAlphabet(outputAlphabet: string, canNmods: seq<nat>)
    returns (collapse: Option<string>, currCanBase: nat)
    ensures collapse.Some? <==> Fits(outputAlphabet, canNmods)
    ensures collapse.Some? ==> collapse.value == Expand(outputAlphabet, canNmods)
    ensures collapse.Some? ==> |collapse.value| == currCanBase == Total(canNmods)
  {
    currCanBase := 0;
    var collapseAlphabet := "";
    for i := 0 to |canNmods|
      invariant currCanBase == Start(canNmods, i)
      invariant Fits(outputAlphabet, canNmods[..i])
      invariant collapseAlphabet == Expand(outputAlphabet, canNmods[..i])
    {
      var canINmod := canNmods[i];
      if currCanBase >= |outputAlphabet| {
        StartMonotone(canNmods, i, |canNmods| - 1);
        return None, currCanBase;
      }
      assert canNmods[..i + 1][..i] == canNmods[..i];
      FitsExtend(outputAlphabet, canNmods, i);
      StartPrefix(canNmods, i + 1, i);
      collapseAlphabet := collapseAlphabet + Repeat(outputAlphabet[currCanBase], canINmod + 1);
      currCanBase := currCanBase + canINmod + 1;
    }
    assert canNmods[..|canNmods|] == canNmods;
    collapse := Some(collapseAlphabet);
  }

  // ---------------------------------------------------------------------------
  // Layers (parse_sublayer) and the whole model (main)
  // ---------------------------------------------------------------------------

  datatype LayerKind =
    | Convolution
    | GruMod
    | ReverseGruMod
    | GlobalNormFlipFlop
    | GlobalNormFlipFlopCatMod(collapseAlphabet: string)

  /** The JSON `type` each runtime layer kind is built from. */
  function TypeTag(kind: LayerKind): string
  {
    match kind
    case Convolution => "convolution"
    case GruMod => "GruMod"
    case ReverseGruMod => "reverse"
    case GlobalNormFlipFlop => "GlobalNormTwoState"
    case GlobalNormFlipFlopCatMod(_) => "GlobalNormTwoStateCatMod"
  }

  /** A runtime layer: its kind and its ordered (name, array) parameters. */
  datatype Layer = Layer(kind: LayerKind, params: seq<(string, NdArray)>)

  /** The layer of the given kind with its parameters resolved, or the error
      that stopped the resolution. */
  function WithParams(kind: LayerKind, names: seq<string>, params: map<string, NdArray>)
    : (r: Result<Layer, ConvertError>)
    ensures r.Success? ==> r.value.kind == kind && ResolveParams(names, params) == Success(r.value.params)
    ensures r.Success? ==> Keys(r.value.params) == names
    ensures r.Failure? ==> ResolveParams(names, params).Failure? && r.error == ResolveParams(names, params).error
  {
    match ResolveParams(names, params)
    case Failure(e) => Failure(e)
    case Success(od) => Success(Layer(kind, od))
  }

  /** Keys of an ordered parameter list. */
  function Keys(od: seq<(string, NdArray)>): seq<string>
  {
    seq(|od|, k requires 0 <= k < |od| => od[k].0)
  }

  /** Builds one layer from its descriptor. `stateDict` gives the parameter names
      of the runtime layer the descriptor describes. */
  function ParseSublayer(s: JsonLayer, stateDict: JsonLayer -> StateDictKeys): (r: Result<Layer, ConvertError>)
    ensures r.Success? ==> TypeTag(r.value.kind) == s.kind
    ensures r.Success? ==> Keys(r.value.params) == stateDict(s)
    ensures s.kind == "convolution" && s.activation.Some? && s.activation.value != "tanh" ==>
              r == Failure(IncompatibleActivation(s.activation.value))
    ensures s.kind == "convolution" && r.Success? ==> s.activation == Some("tanh")
    ensures s.kind == "reverse" && r.Success? ==>
              s.sublayers.Some? && ResolveParams(stateDict(s), s.sublayers.value.params) == Success(r.value.params)
    ensures s.kind != "reverse" && r.Success? ==> ResolveParams(stateDict(s), s.params) == Success(r.value.params)
    ensures r.Success? && r.value.kind.GlobalNormFlipFlopCatMod? ==>
              && s.outputAlphabet.Some? && s.canNmods.Some?
              && Fits(s.outputAlphabet.value, s.canNmods.value)
              && r.value.kind.collapseAlphabet == Expand(s.outputAlphabet.value, s.canNmods.value)
    ensures s.kind !in CompatibleLayers ==> r == Failure(UnboundLayer(s.kind))
    ensures r.Failure? ==> !r.error.IncompatibleLayerTypes?
    ensures s.kind == "convolution" && s.activation.None? ==> r == Failure(MissingField("activation"))
    ensures s.kind == "convolution" && s.activation == Some("tanh") ==>
              r == WithParams(Convolution, stateDict(s), s.params)
    ensures s.kind == "GruMod" ==> r == WithParams(GruMod, stateDict(s), s.params)
    ensures s.kind == "reverse" && s.sublayers.None? ==> r == Failure(MissingField("sublayers"))
    ensures s.kind == "reverse" && s.sublayers.Some? ==>
              r == WithParams(ReverseGruMod, stateDict(s), s.sublayers.value.params)
    ensures s.kind == "GlobalNormTwoState" ==> r == WithParams(GlobalNormFlipFlop, stateDict(s), s.params)
    ensures s.kind == "GlobalNormTwoStateCatMod" && s.outputAlphabet.None? ==>
              r == Failure(MissingField("output_alphabet"))
    ensures s.kind == "GlobalNormTwoStateCatMod" && s.outputAlphabet.Some? && s.canNmods.None? ==>
              r == Failure(MissingField("can_nmods"))
    ensures s.kind == "GlobalNormTwoStateCatMod" && s.outputAlphabet.Some? && s.canNmods.Some? ==>
              if Fits(s.outputAlphabet.value, s.canNmods.value)
              then r == WithParams(GlobalNormFlipFlopCatMod(Expand(s.outputAlphabet.value, s.canNmods.value)),
                                   stateDict(s), s.params)
              else r == Failure(AlphabetIndexError)
  {
    var names := stateDict(s);
    if s.kind == "convolution" then
      match s.activation
      case None => Failure(MissingField("activation"))
      case Some(a) => if a != "tanh" then Failure(IncompatibleActivation(a)) else WithParams(Convolution, names, s.params)
    else if s.kind == "GruMod" then WithParams(GruMod, names, s.params)
    else if s.kind == "reverse" then
      match s.sublayers
      case None => Failure(MissingField("sublayers"))
      case Some(inner) => WithParams(ReverseGruMod, names, inner.params)
    else if s.kind == "GlobalNormTwoState" then WithParams(GlobalNormFlipFlop, names, s.params)
    else if s.kind == "GlobalNormTwoStateCatMod" then
      match s.outputAlphabet
      case None => Failure(MissingField("output_alphabet"))
      case Some(alphabet) =>
        match s.canNmods
        case None => Failure(MissingField("can_nmods"))
        case Some(nmods) =>
          if !Fits(alphabet, nmods) then Failure(AlphabetIndexError)
          else WithParams(GlobalNormFlipFlopCatMod(Expand(alphabet, nmods)), names, s.params)
    else Failure(UnboundLayer(s.kind))
  }

  /** The list comprehension over the sublayers: applies `parse` to them in
      order and stops at the first failure. */
  function ParseAll(sublayers: seq<JsonLayer>, parse: JsonLayer -> Result<Layer, ConvertError>)
    : (r: Result<seq<Layer>, ConvertError>)
    ensures r.Success? <==> forall i :: 0 <= i < |sublayers| ==> parse(sublayers[i]).Success?
    ensures r.Success? ==> |r.value| == |sublayers|
    ensures r.Success? ==> forall i :: 0 <= i < |sublayers| ==> parse(sublayers[i]) == Success(r.value[i])
    ensures r.Failure? ==>
              exists i :: (0 <= i < |sublayers| && parse(sublayers[i]) == Failure(r.error)
                           && forall j :: 0 <= j < i ==> parse(sublayers[j]).Success?)
  {
    if |sublayers| == 0 then Success([])
    else
      match parse(sublayers[0])
      case Failure(e) => Failure(e)
      case Success(layer) =>
        match ParseAll(sublayers[1..], parse)
        case Failure(e) =>
          assert forall i :: 1 <= i < |sublayers| ==> sublayers[1..][i - 1] == sublayers[i];
          Failure(e)
        case Success(layers) =>
          assert forall i :: 1 <= i < |sublayers| ==> sublayers[1..][i - 1] == sublayers[i];
          Success([layer] + layers)
  }

  /** The set of layer types not in `CompatibleLayers`. */
  function IncompatibleTypes(sublayers: seq<JsonLayer>): (r: set<string>)
    ensures forall t :: t in r <==>
              t !in CompatibleLayers && exists i :: 0 <= i < |sublayers| && sublayers[i].kind == t
  {
    (set i | 0 <= i < |sublayers| :: sublayers[i].kind) - CompatibleLayers
  }

  lemma IncompatibleTypesWitness(sublayers: seq<JsonLayer>)
    ensures IncompatibleTypes(sublayers) == {} <==>
            forall i :: 0 <= i < |sublayers| ==> sublayers[i].kind in CompatibleLayers
  {
    if IncompatibleTypes(sublayers) == {} {
      forall i | 0 <= i < |sublayers| ensures sublayers[i].kind in CompatibleLayers {
        assert sublayers[i].kind in (set j | 0 <= j < |sublayers| :: sublayers[j].kind);
      }
    } else {
      var t :| t in IncompatibleTypes(sublayers);
      var i :| 0 <= i < |sublayers| && sublayers[i].kind == t;
    }
  }

  /** The whole conversion: all layer types are checked first, and only then is
      each sublayer parsed, in order, into the layer stack. */
  function Convert(sublayers: seq<JsonLayer>, stateDict: JsonLayer -> StateDictKeys)
    : (r: Result<seq<Layer>, ConvertError>)
    ensures IncompatibleTypes(sublayers) != {} <==> r == Failure(IncompatibleLayerTypes(IncompatibleTypes(sublayers)))
    ensures r.Success? ==> |r.value| == |sublayers|
    ensures r.Success? ==> forall i :: 0 <= i < |sublayers| ==>
              TypeTag(r.value[i].kind) == sublayers[i].kind && Keys(r.value[i].params) == stateDict(sublayers[i])
    ensures r.Success? ==> forall i :: 0 <= i < |sublayers| ==>
              ParseSublayer(sublayers[i], stateDict) == Success(r.value[i])
    ensures r.Failure? && IncompatibleTypes(sublayers) == {} ==>
              exists i :: (0 <= i < |sublayers| && ParseSublayer(sublayers[i], stateDict) == Failure(r.error)
                           && forall j :: 0 <= j < i ==> ParseSublayer(sublayers[j], stateDict).Success?)
  {
    if IncompatibleTypes(sublayers) != {} then Failure(IncompatibleLayerTypes(IncompatibleTypes(sublayers)))
    else ParseAll(sublayers, s => ParseSublayer(s, stateDict))
  }

  /** A convolution whose activation is not tanh stops the conversion. */
  lemma BadActivationStopsConversion(sublayers: seq<JsonLayer>, stateDict: JsonLayer -> StateDictKeys, i: nat)
    requires i < |sublayers| && sublayers[i].kind == "convolution"
    requires sublayers[i].activation.Some? && sublayers[i].activation.value != "tanh"
    ensures Convert(sublayers, stateDict).Failure?
  {
    assert ParseSublayer(sublayers[i], stateDict).Failure?;
  }

  /** Convert succeeds exactly when every type is compatible and every sublayer parses. */
  lemma ConvertSucceedsIff(sublayers: seq<JsonLayer>, stateDict: JsonLayer -> StateDictKeys)
    ensures Convert(sublayers, stateDict).Success? <==>
              (forall i :: 0 <= i < |sublayers| ==> sublayers[i].kind in CompatibleLayers)
              && (forall i :: 0 <= i < |sublayers| ==> ParseSublayer(sublayers[i], stateDict).Success?)
  {
    IncompatibleTypesWitness(sublayers);
  }
}
