/** The pure helpers of client/src/services/utils.js: `withinValuesByKey`, `pluralize`
    and the CSV serialiser `toCSV`, whose field quoting follows section 2 of RFC 4180. */
module ServiceUtils {
  import opened Base
  import opened Strings
  import opened JsValue

  /** The key `withinValuesByKey` compares when none is given. */
  const DefaultKey := "value"

  /** withinValuesByKey(values, key)(option): the key's values of `values` (none when
      `values` is null or undefined) include option[key]. Array.prototype.includes
      compares with SameValueZero, which is the equality of Value. */
  function WithinValuesByKey(values: Option<seq<map<string, Value>>>, key: string, option: map<string, Value>): (b: bool)
    ensures values.None? ==> !b
    ensures b <==> values.Some? && exists i :: 0 <= i < |values.value| && Get(values.value[i], key) == Get(option, key)
  {
    var vs := if values.Some? then values.value else [];
    var keyed := seq(|vs|, i requires 0 <= i < |vs| => Get(vs[i], key));
    assert forall i :: 0 <= i < |vs| ==> keyed[i] == Get(vs[i], key);
    Get(option, key) in keyed
  }

  /** pluralize(count, singular, plural): the singular iff count === 1; otherwise the plural,
      or the singular followed by "s" when the plural is absent or empty. */
  function Pluralize(count: Value, singular: string, plural: Option<string>): (r: string)
    ensures count == Num(1.0) ==> r == singular
    ensures count != Num(1.0) && plural.Some? && plural.value != "" ==> r == plural.value
    ensures count != Num(1.0) && (plural.None? || plural.value == "") ==> r == singular + "s"
  {
    if count == Num(1.0) then singular
    else if plural.Some? && plural.value != "" then plural.value
    else singular + "s"
  }

  /** String(value).replace(/"/g, '""'). */
  function EscapeQuotes(s: string): (r: string)
    ensures '"' !in s ==> r == s
  {
    ReplaceChar(s, '"', "\"\"")
  }

  /** The inverse of EscapeQuotes: each doubled quote read back as one quote. */
  function UnescapeQuotes(s: string): string {
    if s == [] then ""
    else if |s| >= 2 && s[0] == '"' && s[1] == '"' then "\"" + UnescapeQuotes(s[2..])
    else [s[0]] + UnescapeQuotes(s[1..])
  }

  lemma {:induction false} UnescapeEscape(s: string)
    ensures UnescapeQuotes(EscapeQuotes(s)) == s
  {
    if s != [] {
      var e := EscapeQuotes(s);
      UnescapeEscape(s[1..]);
      if s[0] == '"' {
        assert e == "\"\"" + EscapeQuotes(s[1..]);
        assert e[2..] == EscapeQuotes(s[1..]);
      } else {
        assert e == [s[0]] + EscapeQuotes(s[1..]);
        assert e[1..] == EscapeQuotes(s[1..]);
      }
      assert [s[0]] + s[1..] == s;
    }
  }

  /** Reading a quoted field back, as a reader following RFC 4180 does: the outer quotes
      dropped and each doubled quote read as one. */
  function Unquote(field: string): string
    requires |field| >= 2
  {
    UnescapeQuotes(field[1..|field| - 1])
  }

  /** `asRecord`: a number is written as it is, any other falsy value as the empty field, and
      everything else as its String() in double quotes with each quote doubled, so that
      reading the field back gives that String() again. */
  function Field(v: Value, showNum: real -> string): (r: string)
    ensures v.Num? ==> r == showNum(v.n)
    ensures !v.Num? && !Truthy(v) ==> r == ""
    ensures !v.Num? && Truthy(v) ==>
      |r| >= 2 && r[0] == '"' && r[|r| - 1] == '"' && Unquote(r) == ToStr(v, showNum)
  {
    if v.Num? then showNum(v.n)
    else if Truthy(v) then
      var e := EscapeQuotes(ToStr(v, showNum));
      var r := "\"" + e + "\"";
      assert r[1..|r| - 1] == e;
      UnescapeEscape(ToStr(v, showNum));
      r
    else ""
  }

  /** The fields of one line, in column order. */
  function Fields(values: seq<Value>, showNum: real -> string): (r: seq<string>)
    ensures |r| == |values|
    ensures forall j :: 0 <= j < |values| ==> r[j] == Field(values[j], showNum)
  {
    seq(|values|, j requires 0 <= j < |values| => Field(values[j], showNum))
  }

  /** `columns.map((column) => row[column])`. */
  function RowValues(row: map<string, Value>, columns: seq<string>): (r: seq<Value>)
    ensures |r| == |columns|
    ensures forall j :: 0 <= j < |columns| ==> r[j] == Get(row, columns[j])
  {
    seq(|columns|, j requires 0 <= j < |columns| => Get(row, columns[j]))
  }

  /** The header line of column names, then one line per row. */
  function CsvLines(columns: seq<string>, rows: seq<map<string, Value>>, recordDelimiter: string,
                    showNum: real -> string): (r: seq<string>)
    ensures |r| == |rows| + 1
  {
    var header := seq(|columns|, j requires 0 <= j < |columns| => Str(columns[j]));
    [Join(Fields(header, showNum), recordDelimiter)]
      + seq(|rows|, i requires 0 <= i < |rows| => Join(Fields(RowValues(rows[i], columns), showNum), recordDelimiter))
  }

  const DefaultRecordDelimiter := ","
  const DefaultLineDelimiter := "\r\n"

  /** toCSV: undefined when the columns or the rows are missing or empty; otherwise the lines
      joined by the line delimiter. */
  function ToCsv(columns: Option<seq<string>>, rows: Option<seq<map<string, Value>>>,
                 recordDelimiter: string, lineDelimiter: string, showNum: real -> string): (r: Option<string>)
    ensures r.None? <==> columns.None? || columns.value == [] || rows.None? || rows.value == []
  {
    if columns.None? || columns.value == [] || rows.None? || rows.value == [] then None
    else Some(Join(CsvLines(columns.value, rows.value, recordDelimiter, showNum), lineDelimiter))
  }

  /** With a one-character line delimiter that no line contains, splitting the output on it
      gives the header line followed by one line per row: rows.length + 1 lines. */
  lemma CsvLineSplit(columns: seq<string>, rows: seq<map<string, Value>>, recordDelimiter: string,
                     d: char, showNum: real -> string)
    requires columns != [] && rows != []
    requires forall i :: 0 <= i < |rows| + 1 ==> d !in CsvLines(columns, rows, recordDelimiter, showNum)[i]
    ensures var csv := ToCsv(Some(columns), Some(rows), recordDelimiter, [d], showNum);
      && csv.Some?
      && Split(csv.value, d) == CsvLines(columns, rows, recordDelimiter, showNum)
      && |Split(csv.value, d)| == |rows| + 1
  {
    SplitJoin(CsvLines(columns, rows, recordDelimiter, showNum), d);
  }

  /** With a one-character record delimiter that no field of row i contains, splitting row i's
      line on it gives one field per column, field j being the encoding of row[columns[j]]. */
  lemma CsvRowFields(columns: seq<string>, rows: seq<map<string, Value>>, c: char,
                     showNum: real -> string, i: nat)
    requires columns != [] && i < |rows|
    requires forall j :: 0 <= j < |columns| ==> c !in Field(Get(rows[i], columns[j]), showNum)
    ensures var fields := Split(CsvLines(columns, rows, [c], showNum)[i + 1], c);
      && |fields| == |columns|
      && forall j :: 0 <= j < |columns| ==> fields[j] == Field(Get(rows[i], columns[j]), showNum)
  {
    var fs := Fields(RowValues(rows[i], columns), showNum);
    assert CsvLines(columns, rows, [c], showNum)[i + 1] == Join(fs, [c]);
    SplitJoin(fs, c);
  }

  /** The header line lists the column names, each quoted unless empty. */
  lemma CsvHeaderFields(columns: seq<string>, rows: seq<map<string, Value>>, c: char,
                        showNum: real -> string)
    requires columns != []
    requires forall j :: 0 <= j < |columns| ==> c !in Field(Str(columns[j]), showNum)
    ensures var fields := Split(CsvLines(columns, rows, [c], showNum)[0], c);
      && |fields| == |columns|
      && forall j :: 0 <= j < |columns| ==>
           (columns[j] == "" ==> fields[j] == "")
           && (columns[j] != "" ==> |fields[j]| >= 2 && Unquote(fields[j]) == columns[j])
  {
    var header := seq(|columns|, j requires 0 <= j < |columns| => Str(columns[j]));
    var fs := Fields(header, showNum);
    assert CsvLines(columns, rows, [c], showNum)[0] == Join(fs, [c]);
    SplitJoin(fs, c);
  }
}
