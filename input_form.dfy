/** The logic of the analysis input form, client/src/modules/analysis/input-form.jsx: the
    model options sent with a model run (`getOptions`), the form's change handler for
    files and e-mail addresses, the file count read back from the form, the variable
    filter of the selectors and the payload of `submitModel`. */
module InputForm {
  import opened Base
  import opened Strings
  import opened JsValue
  import opened InputFormState
  import opened Collections
  import ParseInput

  type ModelSpecifier = ParseInput.ModelSpecifier

  // ---------------------------------------------------------------- getOptions

  /** /^(check|max|output)\./i: the key names a global option. */
  predicate IsOverrideKey(key: string) {
    var k := ToLower(key);
    (|k| >= 6 && k[..6] == "check.") || (|k| >= 4 && k[..4] == "max.") || (|k| >= 7 && k[..7] == "output.")
  }

  const ModelKey := "model"
  const ModelOptionsKey := "model.options"

  /** No global option key is "model" or "model.options". */
  lemma OverrideKeysAreNotModelKeys(key: string)
    requires IsOverrideKey(key)
    ensures key != ModelKey && key != ModelOptionsKey
  {
    assert ToLower(ModelKey)[1] == 'o';
    assert ToLower(ModelOptionsKey)[1] == 'o';
  }

  /** `modelTypes.find((modelType) => modelType?.name === name)`: none when the list is missing. */
  function FindModelType(modelTypes: Option<seq<ModelSpecifier>>, name: Value): (r: Option<ModelSpecifier>)
    ensures r.Some? ==> modelTypes.Some? && r.value in modelTypes.value && Str(r.value.name) == name
  {
    if modelTypes.None? then None else FindIn(modelTypes.value, name)
  }

  function FindIn(types: seq<ModelSpecifier>, name: Value): (r: Option<ModelSpecifier>)
    ensures r.Some? ==> r.value in types && Str(r.value.name) == name
  {
    if types == [] then None
    else if Str(types[0].name) == name then Some(types[0])
    else FindIn(types[1..], name)
  }

  /** `find` answers the FIRST model type of that name, and none only when no model type has it. */
  lemma {:induction false} FindInMeaning(types: seq<ModelSpecifier>, name: Value)
    ensures FindIn(types, name).None? <==> forall i :: 0 <= i < |types| ==> Str(types[i].name) != name
    ensures FindIn(types, name).Some? ==>
      exists i :: 0 <= i < |types| && types[i] == FindIn(types, name).value
        && forall j :: 0 <= j < i ==> Str(types[j].name) != name
  {
    if types != [] && Str(types[0].name) != name {
      var rest := types[1..];
      FindInMeaning(rest, name);
      assert forall i :: 1 <= i < |types| ==> types[i] == rest[i - 1];
      if FindIn(rest, name).Some? {
        var i :| 0 <= i < |rest| && rest[i] == FindIn(rest, name).value
          && forall j :: 0 <= j < i ==> Str(rest[j].name) != name;
        assert types[i + 1] == FindIn(types, name).value;
      }
    }
  }

  /** The object properties of a value; anything but an object is read as having none. */
  function FieldsOf(v: Value): map<string, Value> {
    if v.Obj? then v.fields else map[]
  }

  /** The options of a model type found by name, none when it is not found (`|| {}`). */
  function TypeOptions(t: Option<ModelSpecifier>): map<string, Value> {
    if t.Some? then t.value.modelOptions else map[]
  }

  /** The options of the "ModelChecks" and then the "ModelOutput" model types, spread in that
      order so that ModelOutput's win. */
  function GlobalOptions(modelTypes: Option<seq<ModelSpecifier>>): map<string, Value> {
    TypeOptions(FindModelType(modelTypes, Str("ModelChecks"))) + TypeOptions(FindModelType(modelTypes, Str("ModelOutput")))
  }

  /** Where a name is spread later it wins: an option of ModelOutput, else one of ModelChecks. */
  lemma GlobalOptionsOrder(modelTypes: Option<seq<ModelSpecifier>>, key: string)
    ensures var checks := TypeOptions(FindModelType(modelTypes, Str("ModelChecks")));
      var output := TypeOptions(FindModelType(modelTypes, Str("ModelOutput")));
      var g := GlobalOptions(modelTypes);
      && (key in g <==> key in checks || key in output)
      && (key in output ==> g[key] == output[key])
      && (key in checks && key !in output ==> g[key] == checks[key])
  {
  }

  /** The options when no model type is selected. */
  const DefaultOptions: map<string, Value> :=
    map[ModelKey := Str("correlation"), ModelOptionsKey := Obj(map["method" := Str("pearson")])]

  /** The options before overriding: the selected model type's function and options (when a name
      is given and found, else the default), then the global options when asked for. */
  function MergedOptions(modelTypes: Option<seq<ModelSpecifier>>, name: Value, includeGlobals: bool): map<string, Value> {
    var t := FindModelType(modelTypes, name);
    var base := if Truthy(name) && t.Some? then map[ModelKey := t.value.model, ModelOptionsKey := Obj(t.value.modelOptions)]
                else DefaultOptions;
    if includeGlobals then base + GlobalOptions(modelTypes) else base
  }

  /** The model options whose names are global options. */
  function Overrides(options: map<string, Value>): (r: map<string, Value>)
    ensures ModelKey !in r && ModelOptionsKey !in r
  {
    var mo := FieldsOf(Get(options, ModelOptionsKey));
    var r := map k | k in mo && IsOverrideKey(k) :: mo[k];
    assert ModelKey !in r && ModelOptionsKey !in r by {
      if ModelKey in r { OverrideKeysAreNotModelKeys(ModelKey); }
      if ModelOptionsKey in r { OverrideKeysAreNotModelKeys(ModelOptionsKey); }
    }
    r
  }

  /** `omitBy(options, isNull)`. */
  function WithoutNulls(m: map<string, Value>): (r: map<string, Value>)
    ensures forall k :: k in r <==> k in m && m[k] != Null
    ensures forall k :: k in r ==> r[k] == m[k]
  {
    map k | k in m && m[k] != Null :: m[k]
  }

  /** The clean-up: null options dropped, and the model options rebuilt without nulls and without
      any name the top level already has. */
  function Cleanup(options: map<string, Value>): map<string, Value> {
    var top := WithoutNulls(options);
    var mo := FieldsOf(Get(top, ModelOptionsKey));
    top[ModelOptionsKey := Obj(map k | k in mo && mo[k] != Null && k !in top :: mo[k])]
  }

  /** `getOptions(modelTypeName, includeGlobalOptions)`. */
  function Options(modelTypes: Option<seq<ModelSpecifier>>, name: Value, includeGlobals: bool): map<string, Value> {
    var merged := MergedOptions(modelTypes, name, includeGlobals);
    Cleanup(merged + Overrides(merged))
  }

  /** The for-in loop over the model options, copying each global option to the top level. */
  method ApplyOverrides(options: map<string, Value>) returns (r: map<string, Value>)
    ensures r == options + Overrides(options)
  {
    var mo := FieldsOf(Get(options, ModelOptionsKey));
    var keys := mo.Keys;
    r := options;
    while keys != {}
      invariant keys <= mo.Keys
      invariant r == options + map k | k in mo && k !in keys && IsOverrideKey(k) :: mo[k]
      decreases keys
    {
      var key :| key in keys;
      if IsOverrideKey(key) {
        r := r[key := mo[key]];
      }
      keys := keys - {key};
    }
  }

  /** getOptions: the base options, the global options spread over them, the override loop and
      the clean-up. */
  method GetOptions(modelTypes: Option<seq<ModelSpecifier>>, name: Value, includeGlobals: bool)
    returns (options: map<string, Value>)
    ensures options == Options(modelTypes, name, includeGlobals)
  {
    var t := FindModelType(modelTypes, name);
    if Truthy(name) && t.Some? {
      options := map[ModelKey := t.value.model, ModelOptionsKey := Obj(t.value.modelOptions)];
    } else {
      options := DefaultOptions;
    }
    if includeGlobals {
      options := options + GlobalOptions(modelTypes);
    }
    assert options == MergedOptions(modelTypes, name, includeGlobals);
    options := ApplyOverrides(options);
    options := Cleanup(options);
  }

  /** After the clean-up no top-level option is null, the model options are an object, and none
      of them is null or shares its name with a top-level option. */
  lemma CleanupMeaning(options: map<string, Value>)
    ensures var r := Cleanup(options);
      && ModelOptionsKey in r && r[ModelOptionsKey].Obj?
      && (forall k :: k in r ==> r[k] != Null)
      && (forall k :: k in r[ModelOptionsKey].fields ==> r[ModelOptionsKey].fields[k] != Null && k !in r)
      && (forall k :: k in r && k != ModelOptionsKey ==> k in options && r[k] == options[k])
  {
    var top := WithoutNulls(options);
    var mo := FieldsOf(Get(top, ModelOptionsKey));
    var inner := map k | k in mo && mo[k] != Null && k !in top :: mo[k];
    var r := Cleanup(options);
    assert ModelOptionsKey !in inner by {
      if ModelOptionsKey !in top {
        assert mo == map[];
      }
    }
  }

  /** With no model type selected (an empty name, or one no model type has) and no global
      options, the options are the correlation model with the Pearson method. */
  lemma OptionsDefault(modelTypes: Option<seq<ModelSpecifier>>, name: Value)
    requires !Truthy(name) || FindModelType(modelTypes, name).None?
    ensures Options(modelTypes, name, false) == DefaultOptions
  {
    var merged := MergedOptions(modelTypes, name, false);
    assert merged == DefaultOptions;
    var mo := map["method" := Str("pearson")];
    assert FieldsOf(Get(merged, ModelOptionsKey)) == mo;
    assert !IsOverrideKey("method") by {
      assert ToLower("method")[1] == 'e';
    }
    assert Overrides(merged) == map[];
    assert merged + Overrides(merged) == DefaultOptions;
    var top := WithoutNulls(DefaultOptions);
    assert top == DefaultOptions;
    assert (map k | k in mo && mo[k] != Null && k !in top :: mo[k]) == mo;
  }

  /** A model option that names a global option and is not null ends up at the top level with its
      value, and is no longer among the model options. */
  lemma OptionsOverride(modelTypes: Option<seq<ModelSpecifier>>, name: Value, includeGlobals: bool, key: string)
    requires var mo := FieldsOf(Get(MergedOptions(modelTypes, name, includeGlobals), ModelOptionsKey));
      key in mo && IsOverrideKey(key) && mo[key] != Null
    ensures var mo := FieldsOf(Get(MergedOptions(modelTypes, name, includeGlobals), ModelOptionsKey));
      var r := Options(modelTypes, name, includeGlobals);
      && key in r && r[key] == mo[key]
      && ModelOptionsKey in r && r[ModelOptionsKey].Obj? && key !in r[ModelOptionsKey].fields
  {
    var merged := MergedOptions(modelTypes, name, includeGlobals);
    OverrideKeysAreNotModelKeys(key);
    assert (merged + Overrides(merged))[key] == FieldsOf(Get(merged, ModelOptionsKey))[key];
    CleanupMeaning(merged + Overrides(merged));
  }

  /** With global options, a global option that is not null, is not "model.options" and is not
      overridden by a model option keeps the value of its later spread. */
  lemma OptionsGlobal(modelTypes: Option<seq<ModelSpecifier>>, name: Value, key: string)
    requires key != ModelOptionsKey
    requires key in GlobalOptions(modelTypes) && GlobalOptions(modelTypes)[key] != Null
    requires key !in Overrides(MergedOptions(modelTypes, name, true))
    ensures var r := Options(modelTypes, name, true);
      key in r && r[key] == GlobalOptions(modelTypes)[key]
  {
    var merged := MergedOptions(modelTypes, name, true);
    assert merged[key] == GlobalOptions(modelTypes)[key];
    CleanupMeaning(merged + Overrides(merged));
  }

  // ---------------------------------------------------------------- file count

  const FilesSelectedSuffix := " files selected"

  /** The value stored for a selection of n files. */
  function FilesLabel(n: nat): string {
    NatToString(n) + FilesSelectedSuffix
  }

  /** /^(\d+) files selected$/: the number before the suffix, when the text has that form. */
  function FilesSelectedCount(s: string): (r: Option<nat>)
    ensures r.Some? ==> |s| > |FilesSelectedSuffix| && s[|s| - |FilesSelectedSuffix|..] == FilesSelectedSuffix
  {
    var n := |FilesSelectedSuffix|;
    if |s| > n && s[|s| - n..] == FilesSelectedSuffix && AllDigits(s[..|s| - n]) then Some(DigitsValue(s[..|s| - n]))
    else None
  }

  /** `getFileCount`: 0 for a falsy or non-text value, the number of "N files selected", and 1
      for any other text (a single file name). */
  function GetFileCount(v: Value): (n: nat)
    ensures !Truthy(v) || !v.Str? ==> n == 0
    ensures v.Str? && v.s != "" && FilesSelectedCount(v.s).None? ==> n == 1
  {
    if !Truthy(v) then 0
    else if v.Str? then
      match FilesSelectedCount(v.s)
      case Some(k) => k
      case None => 1
    else 0
  }

  /** The stored label reads back as the number of files. */
  lemma FileCountOfLabel(n: nat)
    ensures GetFileCount(Str(FilesLabel(n))) == n
  {
    var s := FilesLabel(n);
    var k := |FilesSelectedSuffix|;
    assert s[..|s| - k] == NatToString(n);
    assert s[|s| - k..] == FilesSelectedSuffix;
    DigitsValueOfNatToString(n);
  }

  // ---------------------------------------------------------------- e-mail validation

  /** /^[^\s@]+@[^\s@]+\.[^\s@]+$/: one "@" with text before it, then a "." with text on both
      sides, and no white space or other "@" anywhere. */
  predicate EmailPattern(s: string) {
    exists i, j :: 0 < i && i + 1 < j && j + 1 < |s| && s[i] == '@' && s[j] == '.'
      && forall k :: 0 <= k < |s| && k != i ==> !IsSpace(s[k]) && s[k] != '@'
  }

  /** The addresses of the field: its text split on ";", each part trimmed. */
  function EmailParts(s: string): (r: seq<string>)
    ensures |r| == |Split(s, ';')|
    ensures forall k :: 0 <= k < |r| ==> r[k] == Trim(Split(s, ';')[k])
  {
    var parts := Split(s, ';');
    seq(|parts|, k requires 0 <= k < |parts| => Trim(parts[k]))
  }

  /** The non-empty parts that are not addresses, in order. */
  function InvalidEmails(parts: seq<string>): (r: seq<string>)
    ensures |r| <= |parts|
    ensures forall e :: e in r <==> e in parts && e != "" && !EmailPattern(e)
    ensures Subsequence(r, parts)
  {
    if parts == [] then []
    else
      var rest := InvalidEmails(parts[1..]);
      assert forall e :: e in parts <==> e == parts[0] || e in parts[1..];
      if parts[0] != "" && !EmailPattern(parts[0]) then
        assert ([parts[0]] + rest)[1..] == rest;
        [parts[0]] + rest
      else
        assert rest != [] ==> rest[0] in rest;
        rest
  }

  /** Every invalid part is listed as often as it occurs, and nothing else: with the
      `Subsequence` clause, the message lists the invalid parts exactly, in field order. */
  lemma {:induction false} InvalidEmailsCounts(parts: seq<string>)
    ensures forall e :: multiset(InvalidEmails(parts))[e] == if e != "" && !EmailPattern(e) then multiset(parts)[e] else 0
    decreases |parts|
  {
    if parts != [] {
      InvalidEmailsCounts(parts[1..]);
      assert parts == [parts[0]] + parts[1..];
    }
  }

  /** `emailValidationError`: null when every non-empty part is an address, otherwise a message
      listing exactly the parts that are not. */
  function EmailValidationError(s: string): (r: Value)
    ensures r == Null <==> forall e :: e in EmailParts(s) && e != "" ==> EmailPattern(e)
    ensures r != Null ==> r == Str("Invalid email format: " + Join(InvalidEmails(EmailParts(s)), "; "))
  {
    var invalid := InvalidEmails(EmailParts(s));
    if invalid == [] then Null
    else
      assert invalid[0] in invalid;
      Str("Invalid email format: " + Join(invalid, "; "))
  }

  /** The address pattern, witnessed: text, "@", text, ".", text, the texts free of white space
      and "@". */
  lemma EmailPatternOf(a: string, b: string, c: string)
    requires a != [] && b != [] && c != []
    requires forall k :: 0 <= k < |a| ==> !IsSpace(a[k]) && a[k] != '@'
    requires forall k :: 0 <= k < |b| ==> !IsSpace(b[k]) && b[k] != '@'
    requires forall k :: 0 <= k < |c| ==> !IsSpace(c[k]) && c[k] != '@'
    ensures EmailPattern(a + "@" + b + "." + c)
  {
    var s := a + "@" + b + "." + c;
    var i := |a|;
    var j := |a| + 1 + |b|;
    assert s[i] == '@' && s[j] == '.';
    forall k | 0 <= k < |s| && k != i ensures !IsSpace(s[k]) && s[k] != '@' {
      if k < i {
        assert s[k] == a[k];
      } else if k < j {
        assert s[k] == b[k - i - 1];
      } else if k > j {
        assert s[k] == c[k - j - 1];
      }
    }
  }

  // ---------------------------------------------------------------- handleChange

  /** The event target of a change: its name, its text value, its type, the names of the files
      it holds (none when it has no file list) and its checked state. */
  datatype ChangeEvent = ChangeEvent(name: string, value: string, kind: string, files: Option<seq<string>>, checked: bool)

  const MaxFiles := 100

  /** The value the handler stores: a checkbox's checked state; for a file input the file name,
      "N files selected" for 2 to 100 files, null for none, and nothing at all (None) for more
      than 100 files; otherwise the text value. */
  function EventValue(e: ChangeEvent): Option<Value> {
    if e.kind == "file" then
      if e.files.Some? && |e.files.value| > 0 then
        if |e.files.value| == 1 then Some(Str(e.files.value[0]))
        else if |e.files.value| <= MaxFiles then Some(Str(FilesLabel(|e.files.value|)))
        else None
      else Some(Null)
    else if e.kind == "checkbox" then Some(Bool(e.checked))
    else Some(Str(e.value))
  }

  /** The form values after a change. `modelTypeValues` is what a change of "modelType" merges
      (the custom model defaults and the derived model name), computed outside this model. */
  function AfterChange(values: map<string, Value>, e: ChangeEvent, modelTypeValues: map<string, Value>): map<string, Value> {
    match EventValue(e)
    case None => values
    case Some(value) =>
      var v1 := if e.name == "showPredefinedModelTypes" then values["selectedModelType" := Str("")]["selectedModelName" := Null] else values;
      var v2 := if e.name == "showCustomModelTypes" then v1["modelType" := Str("")] else v1;
      var v3 := if e.name == "selectedModelType" then v2["selectedModelName" := Null]["selectedModelNames" := Arr([])] else v2;
      var v4 := if e.name == "modelType" then v3 + modelTypeValues else v3;
      if e.name == "email" && value.Str? && value.s != "" then
        v4["email" := value]["emailValidationError" := EmailValidationError(value.s)]
      else v4[e.name := value]
  }

  /** The names a change of `name` may write besides `name` itself. */
  function SideKeys(name: string, modelTypeValues: map<string, Value>): set<string> {
    if name == "showPredefinedModelTypes" then {"selectedModelType", "selectedModelName"}
    else if name == "showCustomModelTypes" then {"modelType"}
    else if name == "selectedModelType" then {"selectedModelName", "selectedModelNames"}
    else if name == "modelType" then modelTypeValues.Keys
    else if name == "email" then {"emailValidationError"}
    else {}
  }

  /** The form state, updated in place by the change handler. */
  class Form {
    var values: map<string, Value>

    constructor()
      ensures values == DefaultFormValues
    {
      values := DefaultFormValues;
    }

    /** `handleChange`: successive merges into the form values, returning early for more than
        100 files and after the e-mail merge. */
    method HandleChange(e: ChangeEvent, modelTypeValues: map<string, Value>)
      modifies this
      ensures values == AfterChange(old(values), e, modelTypeValues)
    {
      var value := Str(e.value);
      if e.kind == "checkbox" {
        value := Bool(e.checked);
      }
      if e.kind == "file" {
        if e.files.Some? && |e.files.value| > 0 {
          var n := |e.files.value|;
          if n == 1 {
            value := Str(e.files.value[0]);
          } else if n <= MaxFiles {
            value := Str(NatToString(n) + FilesSelectedSuffix);
          } else {
            return;
          }
        } else {
          value := Null;
        }
      }
      assert EventValue(e) == Some(value);
      if e.name == "showPredefinedModelTypes" {
        values := values["selectedModelType" := Str("")]["selectedModelName" := Null];
      }
      if e.name == "showCustomModelTypes" {
        values := values["modelType" := Str("")];
      }
      if e.name == "selectedModelType" {
        values := values["selectedModelName" := Null]["selectedModelNames" := Arr([])];
      }
      if e.name == "modelType" {
        values := values + modelTypeValues;
      }
      if e.name == "email" && value.Str? && value.s != "" {
        values := values["email" := value]["emailValidationError" := EmailValidationError(value.s)];
        return;
      }
      values := values[e.name := value];
    }
  }

  /** More than 100 files change nothing. */
  lemma TooManyFilesUnchanged(values: map<string, Value>, e: ChangeEvent, modelTypeValues: map<string, Value>)
    requires e.kind == "file" && e.files.Some? && |e.files.value| > MaxFiles
    ensures AfterChange(values, e, modelTypeValues) == values
  {
  }

  /** Otherwise the changed field holds the event's value, and only it and the names that
      depend on it change. */
  lemma ChangeWrites(values: map<string, Value>, e: ChangeEvent, modelTypeValues: map<string, Value>, key: string)
    requires EventValue(e).Some?
    ensures var r := AfterChange(values, e, modelTypeValues);
      && e.name in r && r[e.name] == EventValue(e).value
      && (key != e.name && key !in SideKeys(e.name, modelTypeValues) ==>
            (key in r <==> key in values) && (key in r ==> r[key] == values[key]))
  {
  }

  /** A file selection is read back by getFileCount: no files as 0, one file (named by neither
      "" nor the "N files selected" form) as 1, and 2 to 100 files as their number. */
  lemma FileCountOfChange(values: map<string, Value>, e: ChangeEvent, modelTypeValues: map<string, Value>)
    requires e.kind == "file"
    requires e.files.Some? && |e.files.value| == 1 ==>
      e.files.value[0] != "" && FilesSelectedCount(e.files.value[0]).None?
    requires e.files.Some? ==> |e.files.value| <= MaxFiles
    ensures var r := AfterChange(values, e, modelTypeValues);
      e.name in r && GetFileCount(r[e.name]) == if e.files.Some? then |e.files.value| else 0
  {
    ChangeWrites(values, e, modelTypeValues, e.name);
    if e.files.Some? && |e.files.value| > 1 {
      FileCountOfLabel(|e.files.value|);
    }
  }

  // ---------------------------------------------------------------- filterVariable

  /** Array.prototype.indexOf: the first position of x, or -1. */
  function IndexOf(vs: seq<VariableOption>, x: VariableOption): (r: int)
    ensures -1 <= r < |vs|
    ensures r >= 0 ==> vs[r] == x && forall j :: 0 <= j < r ==> vs[j] != x
    ensures r == -1 <==> x !in vs
  {
    if vs == [] then -1
    else if vs[0] == x then 0
    else
      var r := IndexOf(vs[1..], x);
      assert x in vs <==> x in vs[1..];
      if r == -1 then -1 else r + 1
  }

  const SearchLimit := 100

  /** `filterVariable({data}, value, limit)`: a metabolite entry only when metabolites are
      shown; then, for a search of fewer than 2 characters, an entry whose first position in
      the list is below the limit, and otherwise an entry whose label contains the search
      text ignoring case. */
  function FilterVariable(variables: seq<VariableOption>, data: VariableOption, search: string,
                          showMetabolites: Value, limit: int): (b: bool)
    ensures b ==> !data.isMetabolite || Truthy(showMetabolites)
    ensures |search| >= 2 ==>
      (b <==> (!data.isMetabolite || Truthy(showMetabolites)) && Contains(ToLower(data.caption), ToLower(search)))
  {
    var show := !data.isMetabolite || Truthy(showMetabolites);
    if |search| < 2 then IndexOf(variables, data) < limit && show
    else Contains(ToLower(data.caption), ToLower(search)) && show
  }

  /** A short search shows a listed entry iff it is shown at all and it appears before the limit. */
  lemma FilterVariableShort(variables: seq<VariableOption>, data: VariableOption, search: string,
                            showMetabolites: Value, limit: int)
    requires |search| < 2 && data in variables
    ensures FilterVariable(variables, data, search, showMetabolites, limit) <==>
      (!data.isMetabolite || Truthy(showMetabolites))
      && exists i :: 0 <= i < |variables| && i < limit && variables[i] == data
  {
    var r := IndexOf(variables, data);
    if i :| 0 <= i < |variables| && i < limit && variables[i] == data {
      assert r <= i;
    }
  }

  // ---------------------------------------------------------------- submitModel

  /** `asValue`: the `value` of a selected option, null for a falsy one. */
  function AsValue(v: Value): Value {
    if !Truthy(v) then Null else if v.Obj? then Get(v.fields, "value") else Undefined
  }

  /** Array.prototype.flat with depth 1. */
  function Flat(xs: seq<Value>): seq<Value> {
    if xs == [] then [] else (if xs[0].Arr? then xs[0].items else [xs[0]]) + Flat(xs[1..])
  }

  /** `list.map(asValue).flat()`: a TypeError when the list is not an array. */
  function SelectionValues(v: Value): Result<Value> {
    if v.Arr? then Ok(Arr(Flat(seq(|v.items|, i requires 0 <= i < |v.items| => AsValue(v.items[i])))))
    else Err(TypeError)
  }

  /** When no selected value is itself an array, flattening changes nothing: one value per
      selected option, in order. */
  lemma {:induction false} FlatOfScalars(xs: seq<Value>)
    requires forall i :: 0 <= i < |xs| ==> !xs[i].Arr?
    ensures Flat(xs) == xs
  {
    if xs != [] {
      FlatOfScalars(xs[1..]);
      assert [xs[0]] + xs[1..] == xs;
    }
  }

  /** The `filters` of the payload: the three filter fields concatenated when all are truthy. */
  function FilterText(fv: map<string, Value>, showNum: real -> string): (r: Value)
    ensures r != Null <==> Truthy(Get(fv, "filterVariable")) && Truthy(Get(fv, "filterOperator")) && Truthy(Get(fv, "filterValue"))
  {
    var a := Get(fv, "filterVariable");
    var b := Get(fv, "filterOperator");
    var c := Get(fv, "filterValue");
    if Truthy(a) && Truthy(b) && Truthy(c) then Str(ToStr(a, showNum) + ToStr(b, showNum) + ToStr(c, showNum)) else Null
  }

  /** The cohort sent: the custom cohort when "Other/Undefined" is selected. */
  function CohortOf(fv: map<string, Value>): Value {
    if Get(fv, "cohort") == Str("Other/Undefined") then Get(fv, "customCohort") else Get(fv, "cohort")
  }

  /** The keys the payload sets over the form values. */
  const PayloadKeys := {"cohort", "id", "selectedModelName", "options", "exposures", "outcomes",
                        "adjustedCovariates", "strata", "filters", "time", "group"}

  /** The object `submitModel` hands on: the form values, with the cohort resolved, the
      integrity-check id (a TypeError without results), the options with global options,
      the selections reduced to their values and the filter text. */
  function SubmitPayload(fv: map<string, Value>, id: Option<Value>, modelTypes: Option<seq<ModelSpecifier>>,
                         showNum: real -> string): Result<map<string, Value>> {
    if id.None? then Err(TypeError)
    else
      var exposures :- SelectionValues(Get(fv, "exposures"));
      var outcomes :- SelectionValues(Get(fv, "outcomes"));
      var adjusted :- SelectionValues(Get(fv, "adjustedCovariates"));
      var strata :- SelectionValues(Get(fv, "strata"));
      Ok(fv["id" := id.value]
           ["selectedModelName" := AsValue(Get(fv, "selectedModelName"))]
           ["options" := Obj(Options(modelTypes, Get(fv, "modelType"), true))]
           ["exposures" := exposures]
           ["outcomes" := outcomes]
           ["adjustedCovariates" := adjusted]
           ["strata" := strata]
           ["time" := AsValue(Get(fv, "time"))]
           ["group" := AsValue(Get(fv, "group"))]
           ["cohort" := CohortOf(fv)]
           ["filters" := FilterText(fv, showNum)])
  }

  /** The payload fails exactly when there are no integrity results or a selection is not an array. */
  lemma SubmitPayloadFails(fv: map<string, Value>, id: Option<Value>, modelTypes: Option<seq<ModelSpecifier>>,
                           showNum: real -> string)
    ensures SubmitPayload(fv, id, modelTypes, showNum).Err? <==>
      id.None? || !Get(fv, "exposures").Arr? || !Get(fv, "outcomes").Arr?
      || !Get(fv, "adjustedCovariates").Arr? || !Get(fv, "strata").Arr?
  {
  }

  /** In a payload, the cohort is the custom one iff "Other/Undefined" was chosen, the filter is
      present iff all three filter fields are, and every other form value is passed on. */
  lemma SubmitPayloadFields(fv: map<string, Value>, id: Option<Value>, modelTypes: Option<seq<ModelSpecifier>>,
                            showNum: real -> string, key: string)
    requires SubmitPayload(fv, id, modelTypes, showNum).Ok?
    ensures var p := SubmitPayload(fv, id, modelTypes, showNum).value;
      && "cohort" in p
      && p["cohort"] == (if Get(fv, "cohort") == Str("Other/Undefined") then Get(fv, "customCohort") else Get(fv, "cohort"))
      && "filters" in p
      && (p["filters"] != Null <==>
            Truthy(Get(fv, "filterVariable")) && Truthy(Get(fv, "filterOperator")) && Truthy(Get(fv, "filterValue")))
      && (key in fv && key !in PayloadKeys ==> key in p && p[key] == fv[key])
  {
  }
}
