/** client/src/modules/analysis/input-form.state.js: the default form values and the
    variable option list offered by the input form. */
module InputFormState {
  import opened Base
  import opened JsValue

  /** An entry of the variable selector; `caption` is its `label`. `isMetabolite` is false where the source leaves it unset. */
  datatype VariableOption = VariableOption(value: string, caption: string, isMetabolite: bool)

  /** The integrity-check results as far as the selector reads them: the `errors` and `error`
      properties, the variable names and each metabolite's `metabid`. */
  datatype IntegrityResults = IntegrityResults(errors: Value, error: Value, variables: seq<string>, metabolites: seq<string>)

  const AllMetabolites := "All metabolites"

  /** `asOption`: value and label are both the name. */
  function AsOption(name: string): VariableOption {
    VariableOption(name, name, false)
  }

  /** `variablesState`: nothing when there are no results or they carry an error; otherwise
      "All metabolites", then each variable, then each metabolite marked as one. */
  function Variables(results: Option<IntegrityResults>): (r: seq<VariableOption>)
    ensures results.None? || Truthy(results.value.errors) || Truthy(results.value.error) ==> r == []
    ensures results.Some? && !Truthy(results.value.errors) && !Truthy(results.value.error) ==>
      var vs := results.value.variables;
      var ms := results.value.metabolites;
      && |r| == 1 + |vs| + |ms|
      && r[0] == VariableOption(AllMetabolites, AllMetabolites, false)
      && (forall i :: 0 <= i < |vs| ==> r[1 + i] == VariableOption(vs[i], vs[i], false))
      && (forall i :: 0 <= i < |ms| ==> r[1 + |vs| + i] == VariableOption(ms[i], ms[i], true))
  {
    if results.None? || Truthy(results.value.errors) || Truthy(results.value.error) then []
    else
      var vs := results.value.variables;
      var ms := results.value.metabolites;
      [AsOption(AllMetabolites)]
        + seq(|vs|, i requires 0 <= i < |vs| => AsOption(vs[i]))
        + seq(|ms|, i requires 0 <= i < |ms| => AsOption(ms[i]).(isMetabolite := true))
  }

  /** Only the metabolite entries are marked as metabolites. */
  lemma VariablesMetaboliteMarks(results: IntegrityResults, i: nat)
    requires !Truthy(results.errors) && !Truthy(results.error)
    requires i < |Variables(Some(results))|
    ensures Variables(Some(results))[i].isMetabolite <==> i > |results.variables|
  {
    var r := Variables(Some(results));
    var vs, ms := results.variables, results.metabolites;
    if i == 0 {
      assert r[0] == VariableOption(AllMetabolites, AllMetabolites, false);
    } else if i <= |vs| {
      var k := i - 1;
      assert r[1 + k] == VariableOption(vs[k], vs[k], false);
    } else {
      var k := i - 1 - |vs|;
      assert r[1 + |vs| + k] == VariableOption(ms[k], ms[k], true);
    }
  }

  /** `formValuesState`'s default: the fields a new form starts with. The outcomes start as the
      "All metabolites" option, and the filter list as one empty filter. */
  const DefaultFormValues: map<string, Value> :=
    map[
      "cohort" := Str("Other/Undefined"),
      "inputFile" := Null,
      "method" := Str("allModels"),
      "selectedModelName" := Str(""),
      "selectedModelType" := Str(""),
      "email" := Str(""),
      "modelType" := Str(""),
      "modelName" := Str("Unadjusted"),
      "showMetabolites" := Bool(false),
      "showPredefinedModelTypes" := Bool(false),
      "exposures" := Arr([]),
      "outcomes" := Arr([Obj(map["label" := Str(AllMetabolites), "value" := Str(AllMetabolites)])]),
      "adjustedCovariates" := Arr([]),
      "strata" := Arr([]),
      "filterVariable" := Str(""),
      "filterOperator" := Str(""),
      "filterValue" := Str(""),
      "filters" := Arr([Obj(map["variable" := Str(""), "operator" := Str(""), "value" := Str("")])])
    ]

  /** A new form is for a custom cohort, runs all models and has all metabolites as outcomes. */
  lemma DefaultFormFields()
    ensures var d := DefaultFormValues;
      && "cohort" in d && d["cohort"] == Str("Other/Undefined")
      && "method" in d && d["method"] == Str("allModels")
      && "outcomes" in d && d["outcomes"] == Arr([Obj(map["label" := Str(AllMetabolites), "value" := Str(AllMetabolites)])])
      && "exposures" in d && d["exposures"] == Arr([])
  {
  }
}
