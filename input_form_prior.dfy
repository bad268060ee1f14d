/** The earlier revision of the input form, client/src/modules/analysis/input-form.js: its
    `getOptions` (no name check, no default model options), its change handler (one merge
    of the named field) and its `submitModel` payload. Both revisions share the option
    clean-up and the variable filter of InputForm. */
module InputFormPrior {
  import opened Base
  import opened JsValue
  import opened InputFormState
  import opened InputForm
  import ParseInput

  /** The options before overriding: the found model specifier's function and options, else
      only the correlation model; then the global options when asked for. */
  function MergedOptionsPrior(modelTypes: Option<seq<ModelSpecifier>>, name: Value, includeGlobals: bool): map<string, Value> {
    var t := FindModelType(modelTypes, name);
    var base := if t.Some? then map[ModelKey := t.value.model, ModelOptionsKey := Obj(t.value.modelOptions)]
                else map[ModelKey := Str("correlation")];
    if includeGlobals then base + GlobalOptions(modelTypes) else base
  }

  function OptionsPrior(modelTypes: Option<seq<ModelSpecifier>>, name: Value, includeGlobals: bool): map<string, Value> {
    var merged := MergedOptionsPrior(modelTypes, name, includeGlobals);
    Cleanup(merged + Overrides(merged))
  }

  /** `getOptions` of this revision. */
  method GetOptionsPrior(modelTypes: Option<seq<ModelSpecifier>>, name: Value, includeGlobals: bool)
    returns (options: map<string, Value>)
    ensures options == OptionsPrior(modelTypes, name, includeGlobals)
  {
    var t := FindModelType(modelTypes, name);
    if t.Some? {
      options := map[ModelKey := t.value.model, ModelOptionsKey := Obj(t.value.modelOptions)];
    } else {
      options := map[ModelKey := Str("correlation")];
    }
    if includeGlobals {
      options := options + GlobalOptions(modelTypes);
    }
    assert options == MergedOptionsPrior(modelTypes, name, includeGlobals);
    options := ApplyOverrides(options);
    options := Cleanup(options);
  }

  /** Without a matching specifier and without global options the model is "correlation" and,
      having no model options to begin with, the clean-up leaves it an empty object. */
  lemma OptionsPriorDefault(modelTypes: Option<seq<ModelSpecifier>>, name: Value)
    requires FindModelType(modelTypes, name).None?
    ensures OptionsPrior(modelTypes, name, false) == map[ModelKey := Str("correlation"), ModelOptionsKey := Obj(map[])]
  {
    var merged := MergedOptionsPrior(modelTypes, name, false);
    assert ModelOptionsKey !in merged;
    assert Overrides(merged) == map[];
    assert merged + Overrides(merged) == merged;
    assert WithoutNulls(merged) == merged;
  }

  /** Unlike the later revision, an empty name selects a specifier named "". */
  lemma OptionsPriorEmptyName(t: ModelSpecifier)
    requires t.name == ""
    ensures MergedOptionsPrior(Some([t]), Str(""), false) == map[ModelKey := t.model, ModelOptionsKey := Obj(t.modelOptions)]
    ensures MergedOptions(Some([t]), Str(""), false) == DefaultOptions
  {
  }

  /** The value this revision stores: a checkbox's checked state, the first file's name or null,
      otherwise the text value. */
  function EventValuePrior(e: ChangeEvent): Value {
    if e.kind == "file" then (if e.files.Some? && |e.files.value| > 0 then Str(e.files.value[0]) else Null)
    else if e.kind == "checkbox" then Bool(e.checked)
    else Str(e.value)
  }

  /** The form state of this revision. */
  class Form {
    var values: map<string, Value>

    constructor()
      ensures values == DefaultFormValues
    {
      values := DefaultFormValues;
    }

    /** `handleChange`: only the named field is merged. */
    method HandleChange(e: ChangeEvent)
      modifies this
      ensures values == old(values)[e.name := EventValuePrior(e)]
    {
      var value := Str(e.value);
      if e.kind == "checkbox" {
        value := Bool(e.checked);
      }
      if e.kind == "file" {
        value := if e.files.Some? && |e.files.value| > 0 then Str(e.files.value[0]) else Null;
      }
      values := values[e.name := value];
    }
  }

  /** This revision keeps the first file of a multiple selection: its count reads back as 1
      (for a name that is not empty and not of the "N files selected" form), not the number of files. */
  lemma PriorFileChangeCount(e: ChangeEvent)
    requires e.kind == "file" && e.files.Some? && |e.files.value| >= 1
    requires e.files.value[0] != "" && FilesSelectedCount(e.files.value[0]).None?
    ensures GetFileCount(EventValuePrior(e)) == 1
  {
  }

  /** `({ value }) => value`: destructuring null or undefined throws. */
  function AsValuePrior(v: Value): Result<Value>
    ensures AsValuePrior(v).Err? <==> v.Undefined? || v.Null?
  {
    if v.Undefined? || v.Null? then Err(TypeError)
    else if v.Obj? then Ok(Get(v.fields, "value"))
    else Ok(Undefined)
  }

  /** `list.map(asValue)`: a TypeError when the list is not an array or holds null or undefined. */
  function SelectionValuesPrior(v: Value): Result<Value> {
    if v.Arr? then
      var vs :- ParseInput.MapAll(v.items, AsValuePrior);
      Ok(Arr(vs))
    else Err(TypeError)
  }

  /** The selection fails iff it is not an array or an entry is null or undefined; otherwise it is
      one value per entry, in order. */
  lemma SelectionValuesPriorMeaning(v: Value)
    ensures SelectionValuesPrior(v).Err? <==>
      !v.Arr? || exists i :: 0 <= i < |v.items| && (v.items[i].Undefined? || v.items[i].Null?)
    ensures SelectionValuesPrior(v).Ok? ==>
      var r := SelectionValuesPrior(v).value;
      r.Arr? && |r.items| == |v.items|
      && forall i :: 0 <= i < |v.items| ==> AsValuePrior(v.items[i]) == Ok(r.items[i])
  {
    if v.Arr? {
      ParseInput.MapAllErr(v.items, AsValuePrior);
      if SelectionValuesPrior(v).Ok? && |v.items| > 0 {
        ParseInput.MapAllAt(v.items, AsValuePrior, 0);
        forall i | 0 <= i < |v.items|
          ensures AsValuePrior(v.items[i]) == Ok(SelectionValuesPrior(v).value.items[i])
        {
          ParseInput.MapAllAt(v.items, AsValuePrior, i);
        }
      }
    }
  }

  /** `submitModel`'s payload of this revision: the form values with the integrity-check id, the
      options of `modelSpecifier` with global options, the selections' values and the filter
      text; the cohort is passed as it is. */
  function SubmitPayloadPrior(fv: map<string, Value>, id: Option<Value>, modelTypes: Option<seq<ModelSpecifier>>,
                              showNum: real -> string): Result<map<string, Value>> {
    if id.None? then Err(TypeError)
    else
      var exposures :- SelectionValuesPrior(Get(fv, "exposures"));
      var outcomes :- SelectionValuesPrior(Get(fv, "outcomes"));
      var adjusted :- SelectionValuesPrior(Get(fv, "adjustedCovariates"));
      var strata :- SelectionValuesPrior(Get(fv, "strata"));
      Ok(fv["id" := id.value]
           ["options" := Obj(OptionsPrior(modelTypes, Get(fv, "modelSpecifier"), true))]
           ["exposures" := exposures]
           ["outcomes" := outcomes]
           ["adjustedCovariates" := adjusted]
           ["strata" := strata]
           ["filters" := FilterText(fv, showNum)])
  }

  /** The keys this payload sets over the form values; "cohort" is not among them. */
  const PriorPayloadKeys := {"id", "options", "exposures", "outcomes", "adjustedCovariates", "strata", "filters"}

  /** The filter text is sent iff all three filter fields are truthy, and every other form value,
      the cohort included, is passed on unchanged. */
  lemma SubmitPayloadPriorFields(fv: map<string, Value>, id: Option<Value>, modelTypes: Option<seq<ModelSpecifier>>,
                                 showNum: real -> string, key: string)
    requires SubmitPayloadPrior(fv, id, modelTypes, showNum).Ok?
    ensures var p := SubmitPayloadPrior(fv, id, modelTypes, showNum).value;
      && "filters" in p
      && (p["filters"] != Null <==>
            Truthy(Get(fv, "filterVariable")) && Truthy(Get(fv, "filterOperator")) && Truthy(Get(fv, "filterValue")))
      && (key in fv && key !in PriorPayloadKeys ==> key in p && p[key] == fv[key])
  {
  }
}
