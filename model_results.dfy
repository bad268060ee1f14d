/** client/src/modules/analysis/results/model-results.utils.js: the columns of a results table,
    derived from its first row, and the sheet list and file name of a results download. A row
    is its entries in `Object.keys` order; the current date is a parameter. */
module ModelResults {
  import opened Base
  import opened Strings
  import opened JsValue
  import opened Collections

  type Row = seq<(string, Value)>

  datatype FilterKind = RangeFilter | TextFilter

  /** A table column: its `id` (which is also what its accessor reads), sort type, filter
      component, filter mode (`"between"` for ranges, absent otherwise) and width. */
  datatype Column = Column(id: string, sortType: string, filter: FilterKind, filterMode: Option<string>, width: nat)

  const WideColumns := ["model", "outcome", "outcomespec"]

  /** The column of one first-row entry: numeric values get a range filter and basic sorting. */
  function ColumnOf(name: string, first: Value): Column {
    var isNumeric := first.Num?;
    Column(name,
           if isNumeric then "basic" else "alphanumeric",
           if isNumeric then RangeFilter else TextFilter,
           if isNumeric then Some("between") else None,
           if name in WideColumns then 240 else 180)
  }

  /** `getColumns`: nothing for a missing or empty table, otherwise one column per key of the
      first row, in key order. */
  function GetColumns(table: Option<seq<Row>>): (r: seq<Column>)
    ensures table.None? || table.value == [] ==> r == []
    ensures table.Some? && table.value != [] ==>
      var first := table.value[0];
      && |r| == |first|
      && forall k :: 0 <= k < |first| ==>
           && r[k].id == first[k].0
           && (r[k].filter == RangeFilter <==> first[k].1.Num?)
           && (r[k].filter == RangeFilter ==> r[k].sortType == "basic" && r[k].filterMode == Some("between"))
           && (r[k].filter == TextFilter ==> r[k].sortType == "alphanumeric" && r[k].filterMode.None?)
           && r[k].width == (if first[k].0 in {"model", "outcome", "outcomespec"} then 240 else 180)
  {
    if table.None? || table.value == [] then []
    else
      var first := table.value[0];
      seq(|first|, k requires 0 <= k < |first| => ColumnOf(first[k].0, first[k].1))
  }

  /** `record[key]` on a row: the entry with that key, undefined when there is none. */
  function Lookup(record: Row, key: string): Value {
    if record == [] then Undefined
    else if record[0].0 == key then record[0].1
    else Lookup(record[1..], key)
  }

  predicate DistinctKeys(record: Row) {
    forall i, j :: 0 <= i < j < |record| ==> record[i].0 != record[j].0
  }

  lemma {:induction false} LookupAt(record: Row, k: nat)
    requires DistinctKeys(record) && k < |record|
    ensures Lookup(record, record[k].0) == record[k].1
    decreases |record|
  {
    if k > 0 {
      assert record[0].0 != record[k].0;
      assert record[1..][k - 1] == record[k];
      LookupAt(record[1..], k - 1);
    }
  }

  /** The column's accessor, `record => record[columnName]`. */
  function Accessor(c: Column, record: Row): Value {
    Lookup(record, c.id)
  }

  /** Each column reads back its own entry of the first row, and the column ids are distinct. */
  lemma ColumnsReadFirstRow(table: seq<Row>, k: nat)
    requires table != [] && DistinctKeys(table[0]) && k < |table[0]|
    ensures var cols := GetColumns(Some(table));
      && Accessor(cols[k], table[0]) == table[0][k].1
      && forall j :: 0 <= j < |cols| && j != k ==> cols[j].id != cols[k].id
  {
    LookupAt(table[0], k);
  }

  /** The sheets a download may hold, in the order they are written. */
  const AllSheets := ["ModelSummary", "Effects", "ChemEnrich", "Errors_Warnings", "Table1", "Info"]

  /** `names.filter(sheet => results[sheet])`. */
  function KeepTruthy(names: seq<string>, results: map<string, Value>): (r: seq<string>)
    ensures forall n :: n in r <==> n in names && Truthy(Get(results, n))
  {
    if names == [] then []
    else (if Truthy(Get(results, names[0])) then [names[0]] else []) + KeepTruthy(names[1..], results)
  }

  lemma {:induction false} KeepTruthySubsequence(names: seq<string>, results: map<string, Value>)
    ensures Subsequence(KeepTruthy(names, results), names)
    decreases |names|
  {
    if names != [] {
      KeepTruthySubsequence(names[1..], results);
      var rest := KeepTruthy(names[1..], results);
      if Truthy(Get(results, names[0])) {
        assert KeepTruthy(names, results) == [names[0]] + rest;
        assert ([names[0]] + rest)[1..] == rest;
      } else {
        assert KeepTruthy(names, results) == rest;
        if rest != [] {
          assert rest[0] in rest;
        }
      }
    }
  }

  lemma {:induction false} KeepTruthyDistinct(names: seq<string>, results: map<string, Value>)
    requires Distinct(names)
    ensures Distinct(KeepTruthy(names, results))
    decreases |names|
  {
    if names != [] {
      KeepTruthyDistinct(names[1..], results);
      var rest := KeepTruthy(names[1..], results);
      assert names[0] !in names[1..] by {
        forall k | 0 <= k < |names[1..]| ensures names[1..][k] != names[0] {
          assert names[1..][k] == names[k + 1];
        }
      }
      var r := KeepTruthy(names, results);
      if Truthy(Get(results, names[0])) {
        assert r == [names[0]] + rest;
        forall i, j | 0 <= i < j < |r| ensures r[i] != r[j] {
          if i == 0 {
            assert r[j] == rest[j - 1] && rest[j - 1] in rest;
          } else {
            assert r[i] == rest[i - 1] && r[j] == rest[j - 1];
          }
        }
      }
    }
  }

  /** The sheet names of a download: those of the six whose data is truthy. */
  function SheetNames(results: map<string, Value>): seq<string> {
    KeepTruthy(AllSheets, results)
  }

  /** A sheet is downloaded iff its data is truthy; each at most once, in the fixed order. */
  lemma SheetNamesMeaning(results: map<string, Value>)
    ensures forall n :: n in SheetNames(results) <==> n in AllSheets && Truthy(Get(results, n))
    ensures Distinct(SheetNames(results))
    ensures Subsequence(SheetNames(results), AllSheets)
  {
    KeepTruthySubsequence(AllSheets, results);
    KeepTruthyDistinct(AllSheets, results);
  }

  /** `sheetNames.map(name => ({ name, data: results[name] }))`. */
  function Sheets(results: map<string, Value>): (r: seq<(string, Value)>)
    ensures |r| == |SheetNames(results)|
    ensures forall k :: 0 <= k < |r| ==> r[k].0 == SheetNames(results)[k] && r[k].1 == Get(results, r[k].0)
  {
    var names := SheetNames(results);
    seq(|names|, k requires 0 <= k < |names| => (names[k], Get(results, names[k])))
  }

  /** The date stamp: the year, the month counted from 1 and the day of the month, the last two
      padded to two digits, joined by "-". `month0` is `getMonth()`, counted from 0. */
  function Timestamp(year: nat, month0: nat, day: nat): string {
    Join([NatToString(year), Pad2(month0 + 1), Pad2(day)], "-")
  }

  lemma DigitsValueOfPad2(n: nat)
    ensures DigitsValue(Pad2(n)) == n
  {
    if n < 10 {
      assert Pad2(n)[..1] == ['0'];
      assert DigitsValue(['0']) == 0 by {
        assert ['0'][..0] == [];
      }
    } else {
      DigitsValueOfNatToString(n);
    }
  }

  /** The stamp splits on "-" into three runs of digits that read back as the year, the month
      (from 1) and the day; month and day take exactly two digits. */
  lemma TimestampRoundTrip(year: nat, month0: nat, day: nat)
    requires month0 < 12 && 1 <= day <= 31
    ensures var parts := Split(Timestamp(year, month0, day), '-');
      && |parts| == 3
      && AllDigits(parts[0]) && AllDigits(parts[1]) && AllDigits(parts[2])
      && |parts[1]| == 2 && |parts[2]| == 2
      && DigitsValue(parts[0]) == year && DigitsValue(parts[1]) == month0 + 1 && DigitsValue(parts[2]) == day
  {
    var ps := [NatToString(year), Pad2(month0 + 1), Pad2(day)];
    forall i | 0 <= i < 3 ensures '-' !in ps[i] {
      assert AllDigits(ps[i]);
    }
    SplitJoin(ps, '-');
    DigitsValueOfNatToString(year);
    DigitsValueOfPad2(month0 + 1);
    DigitsValueOfPad2(day);
  }

  /** `v?.key`: a missing property, or a receiver that is not an object, reads as undefined. */
  function Prop(v: Value, key: string): Value {
    if v.Obj? then Get(v.fields, key) else Undefined
  }

  /** `v?.replace(/\s+/g, "_")`: undefined for null or undefined, a TypeError for a value
      without `replace`. */
  function UnderscoreOpt(v: Value): (r: Result<Value>)
    ensures r.Err? <==> !(v.Undefined? || v.Null? || v.Str?)
    ensures v.Str? ==> r == Ok(Str(UnderscoreSpaces(v.s)))
  {
    if v.Undefined? || v.Null? then Ok(Undefined)
    else if v.Str? then Ok(Str(UnderscoreSpaces(v.s)))
    else Err(TypeError)
  }

  /** `e.name === "cohort"` over the `Info` array; reading `name` of null or undefined throws. */
  function CohortEntries(items: seq<Value>): (r: Result<seq<Value>>)
    ensures r.Err? <==> exists k :: 0 <= k < |items| && (items[k].Undefined? || items[k].Null?)
    ensures r.Ok? ==> forall e :: e in r.value ==> e in items && Prop(e, "name") == Str("cohort")
  {
    if items == [] then Ok([])
    else if items[0].Undefined? || items[0].Null? then Err(TypeError)
    else
      var rest := CohortEntries(items[1..]);
      assert forall k :: 1 <= k < |items| ==> items[k] == items[1..][k - 1];
      if rest.Err? then
        var k :| 0 <= k < |items[1..]| && (items[1..][k].Undefined? || items[1..][k].Null?);
        assert items[k + 1] == items[1..][k];
        Err(TypeError)
      else Ok((if Prop(items[0], "name") == Str("cohort") then [items[0]] else []) + rest.value)
  }

  /** `results.options?.name?.replace(...)`. */
  function ModelName(results: map<string, Value>): Result<Value> {
    UnderscoreOpt(Prop(Get(results, "options"), "name"))
  }

  /** `results.Info?.filter(...)[0]?.value?.replace(...)`: undefined when `Info` is null or
      undefined or has no cohort entry; a TypeError when `Info` is not an array. */
  function Cohort(results: map<string, Value>): Result<Value> {
    var info := Get(results, "Info");
    if info.Undefined? || info.Null? then Ok(Undefined)
    else if !info.Arr? then Err(TypeError)
    else
      var found :- CohortEntries(info.items);
      if found == [] then Ok(Undefined) else UnderscoreOpt(Prop(found[0], "value"))
  }

  /** A template-literal substitution of undefined or a string. */
  function Text(v: Value): string {
    if v.Str? then v.s else "undefined"
  }

  /** The file name of a download: the given one when it is truthy, otherwise
      `<name>__<cohort>__<timestamp>.xlsx`. The model name and cohort are computed either way,
      so their errors surface even when a file name is given. */
  function DownloadFilename(results: map<string, Value>, filename: Value, year: nat, month0: nat, day: nat): Result<Value> {
    var modelName :- ModelName(results);
    var cohort :- Cohort(results);
    if Truthy(filename) then Ok(filename)
    else Ok(Str(Text(modelName) + "__" + Text(cohort) + "__" + Timestamp(year, month0, day) + ".xlsx"))
  }

  /** With a string model name and a cohort entry, the default name carries both with their
      whitespace runs turned into "_", then the stamp and ".xlsx"; a truthy file name is used
      as given. */
  lemma DownloadFilenameDefault(results: map<string, Value>, name: string, items: seq<Value>, k: nat, cohort: string,
                                year: nat, month0: nat, day: nat)
    requires Get(results, "options").Obj? && Prop(Get(results, "options"), "name") == Str(name)
    requires Get(results, "Info") == Arr(items)
    requires forall j :: 0 <= j < |items| ==> items[j].Obj?
    requires k < |items| && Prop(items[k], "name") == Str("cohort") && Prop(items[k], "value") == Str(cohort)
    requires forall j :: 0 <= j < k ==> Prop(items[j], "name") != Str("cohort")
    ensures DownloadFilename(results, Undefined, year, month0, day)
      == Ok(Str(UnderscoreSpaces(name) + "__" + UnderscoreSpaces(cohort) + "__" + Timestamp(year, month0, day) + ".xlsx"))
    ensures forall f :: Truthy(f) ==> DownloadFilename(results, f, year, month0, day) == Ok(f)
  {
    FirstCohortEntry(items, k);
  }

  lemma {:induction false} FirstCohortEntry(items: seq<Value>, k: nat)
    requires forall j :: 0 <= j < |items| ==> items[j].Obj?
    requires k < |items| && Prop(items[k], "name") == Str("cohort")
    requires forall j :: 0 <= j < k ==> Prop(items[j], "name") != Str("cohort")
    ensures CohortEntries(items).Ok? && CohortEntries(items).value != [] && CohortEntries(items).value[0] == items[k]
    decreases k
  {
    if k > 0 {
      assert forall j :: 0 <= j < |items[1..]| ==> items[1..][j] == items[j + 1];
      FirstCohortEntry(items[1..], k - 1);
    }
  }
}
