/** The Flask service comets/comets.py: the loader that flattens the YAML configuration into
    `app.config`, the streamed JSON body of a successful response, and the normalisation of the
    form parameters of the `correlate` route. */
module CometsServer {
  import opened Base
  import opened Collections

  // ---------------------------------------------------------------- flatten

  /** A parsed YAML document: a mapping, in its key order, or any other value (a scalar or a
      list), which the loader stores as it is. */
  datatype Node = Leaf(text: string) | Mapping(entries: seq<(string, Node)>)

  /** `(parent+"." if parent else "")+param`: the parent prefixes the key only when it is given
      and not empty, an empty string being falsy. */
  function ConfigKey(parent: Option<string>, param: string): string {
    if parent.Some? && parent.value != "" then parent.value + "." + param else param
  }

  /** The writes into `app.config` that entry `i` of a mapping causes: a nested mapping is
      flattened with the entry's own key as parent, anything else is stored under its key. */
  function EntryWrites(n: Node, i: nat, parent: Option<string>): seq<(string, Node)>
    requires n.Mapping? && i < |n.entries|
    decreases n, 0
  {
    var (param, v) := n.entries[i];
    if v.Mapping? then Writes(v, 0, Some(param)) else [(ConfigKey(parent, param), v)]
  }

  /** The writes of entries `i..` of a mapping, in iteration order. */
  function Writes(n: Node, i: nat, parent: Option<string>): seq<(string, Node)>
    requires n.Mapping? && i <= |n.entries|
    decreases n, 1, |n.entries| - i
  {
    if i == |n.entries| then [] else EntryWrites(n, i, parent) + Writes(n, i + 1, parent)
  }

  /** A dictionary after the writes, in order. */
  function Apply(m: map<string, Node>, ws: seq<(string, Node)>): map<string, Node>
    decreases |ws|
  {
    if ws == [] then m else Apply(m[ws[0].0 := ws[0].1], ws[1..])
  }

  /** Writing two batches is writing their concatenation. */
  lemma {:induction false} ApplyAppend(m: map<string, Node>, a: seq<(string, Node)>, b: seq<(string, Node)>)
    ensures Apply(m, a + b) == Apply(Apply(m, a), b)
    decreases |a|
  {
    if a == [] {
      assert a + b == b;
    } else {
      var m' := m[a[0].0 := a[0].1];
      assert (a + b)[0] == a[0] && (a + b)[1..] == a[1..] + b;
      assert Apply(m, a + b) == Apply(m', a[1..] + b);
      assert Apply(m, a) == Apply(m', a[1..]);
      ApplyAppend(m', a[1..], b);
    }
  }

  /** The application configuration, a dictionary the loader writes into. */
  class Config {
    var values: map<string, Node>

    constructor()
      ensures values == map[]
    {
      values := map[];
    }

    /** `flatten`: every entry of the mapping in order, recursing into nested mappings. */
    method Flatten(yaml: Node, parent: Option<string>)
      requires yaml.Mapping?
      modifies this
      ensures values == Apply(old(values), Writes(yaml, 0, parent))
      decreases yaml
    {
      var i := 0;
      while i < |yaml.entries|
        invariant 0 <= i <= |yaml.entries|
        invariant Apply(values, Writes(yaml, i, parent)) == Apply(old(values), Writes(yaml, 0, parent))
      {
        var (param, v) := yaml.entries[i];
        ghost var before := values;
        if v.Mapping? {
          Flatten(v, Some(param));
        } else {
          values := values[ConfigKey(parent, param) := v];
        }
        assert values == Apply(before, EntryWrites(yaml, i, parent));
        ApplyAppend(before, EntryWrites(yaml, i, parent), Writes(yaml, i + 1, parent));
        i := i + 1;
      }
    }
  }

  /** Only non-mapping values are ever stored. */
  lemma {:induction false} WritesAreLeaves(n: Node, i: nat, parent: Option<string>)
    requires n.Mapping? && i <= |n.entries|
    ensures forall w :: w in Writes(n, i, parent) ==> w.1.Leaf?
    decreases n, |n.entries| - i
  {
    if i < |n.entries| {
      var (param, v) := n.entries[i];
      if v.Mapping? {
        WritesAreLeaves(v, 0, Some(param));
      }
      WritesAreLeaves(n, i + 1, parent);
    }
  }

  /** The writes of every later entry are among the writes from position `i`. */
  lemma {:induction false} EntryWritten(n: Node, i: nat, k: nat, parent: Option<string>)
    requires n.Mapping? && i <= k < |n.entries|
    ensures forall w :: w in EntryWrites(n, k, parent) ==> w in Writes(n, i, parent)
    decreases k - i
  {
    if i < k {
      EntryWritten(n, i + 1, k, parent);
    }
  }

  /** A value that is not a mapping is written under its own key, prefixed by the parent. */
  lemma LeafWritten(n: Node, k: nat, parent: Option<string>)
    requires n.Mapping? && k < |n.entries| && n.entries[k].1.Leaf?
    ensures (ConfigKey(parent, n.entries[k].0), n.entries[k].1) in Writes(n, 0, parent)
  {
    EntryWritten(n, 0, k, parent);
  }

  /** A leaf of a nested mapping is written under "<its mapping's key>.<its key>", whatever the
      keys above: only the immediate parent survives in the flattened key. */
  lemma NestedLeafWritten(n: Node, k: nat, j: nat, parent: Option<string>)
    requires n.Mapping? && k < |n.entries| && n.entries[k].1.Mapping?
    requires j < |n.entries[k].1.entries| && n.entries[k].1.entries[j].1.Leaf?
    ensures var (param, inner) := n.entries[k];
      (ConfigKey(Some(param), inner.entries[j].0), inner.entries[j].1) in Writes(n, 0, parent)
  {
    var (param, inner) := n.entries[k];
    LeafWritten(inner, j, Some(param));
    EntryWritten(n, 0, k, parent);
  }

  /** Three levels deep, the outermost key is lost: `{a: {b: {c: t}}}` sets only "b.c". */
  lemma OuterKeyLost(a: string, b: string, c: string, t: string)
    requires b != ""
    ensures Apply(map[], Writes(Mapping([(a, Mapping([(b, Mapping([(c, Leaf(t))]))]))]), 0, None)) == map[b + "." + c := Leaf(t)]
  {
    var inner := Mapping([(c, Leaf(t))]);
    var middle := Mapping([(b, inner)]);
    var doc := Mapping([(a, middle)]);
    assert Writes(inner, 0, Some(b)) == [(b + "." + c, Leaf(t))];
    assert Writes(middle, 0, Some(a)) == [(b + "." + c, Leaf(t))];
    assert Writes(doc, 0, None) == [(b + "." + c, Leaf(t))];
  }

  /** A write that no later write repeats the key of decides that key's value; a key never
      written keeps its old value. */
  lemma {:induction false} LastWriteWins(m: map<string, Node>, ws: seq<(string, Node)>, key: string)
    ensures (exists i :: 0 <= i < |ws| && ws[i].0 == key) || key in m <==> key in Apply(m, ws)
    ensures forall i :: 0 <= i < |ws| && ws[i].0 == key && (forall j :: i < j < |ws| ==> ws[j].0 != key) ==>
      Apply(m, ws)[key] == ws[i].1
    ensures (forall i :: 0 <= i < |ws| ==> ws[i].0 != key) && key in m ==> Apply(m, ws)[key] == m[key]
    decreases |ws|
  {
    if ws != [] {
      var m' := m[ws[0].0 := ws[0].1];
      LastWriteWins(m', ws[1..], key);
      assert forall i :: 1 <= i < |ws| ==> ws[i] == ws[1..][i - 1];
      if (exists i :: 1 <= i < |ws| && ws[i].0 == key) {
        var i :| 1 <= i < |ws| && ws[i].0 == key;
        assert ws[1..][i - 1].0 == key;
      }
      if (exists i :: 0 <= i < |ws[1..]| && ws[1..][i].0 == key) {
        var i :| 0 <= i < |ws[1..]| && ws[1..][i].0 == key;
        assert ws[i + 1].0 == key;
      }
    }
  }

  // ---------------------------------------------------------------- buildSuccess

  /** The length a piece of the response body has to exceed before it is sent. */
  const PieceLimit: nat := 10000

  /** The longest encoder chunk. */
  function Longest(chunks: seq<string>): (n: nat)
    ensures forall i :: 0 <= i < |chunks| ==> |chunks[i]| <= n
  {
    if chunks == [] then 0
    else
      var rest := Longest(chunks[1..]);
      assert forall i :: 1 <= i < |chunks| ==> chunks[i] == chunks[1..][i - 1];
      if |chunks[0]| > rest then |chunks[0]| else rest
  }

  lemma {:induction false} ConcatSnoc<T>(ss: seq<seq<T>>, s: seq<T>)
    ensures Concat(ss + [s]) == Concat(ss) + s
    decreases |ss|
  {
    if ss != [] {
      assert (ss + [s])[1..] == ss[1..] + [s];
      ConcatSnoc(ss[1..], s);
    }
  }

  /** One more chunk read: the accumulated text grows by it, whether or not it is sent next. */
  lemma PieceStep(pieces: seq<string>, acc: string, chunks: seq<string>, i: nat)
    requires i < |chunks| && Concat(pieces) + acc == Concat(chunks[..i])
    ensures Concat(pieces) + (acc + chunks[i]) == Concat(chunks[..i + 1])
    ensures Concat(pieces + [acc + chunks[i]]) + "" == Concat(chunks[..i + 1])
  {
    ConcatSnoc(chunks[..i], chunks[i]);
    assert chunks[..i + 1] == chunks[..i] + [chunks[i]];
    ConcatSnoc(pieces, acc + chunks[i]);
  }

  /** `generate`: the encoder's chunks accumulated and sent in pieces. Sent end to end the pieces
      are the encoded message; every piece but the last is longer than the limit and is sent as
      soon as it is, so it is shorter than the limit plus one chunk; the last piece is always
      sent, possibly empty, and never exceeds the limit. */
  method Generate(chunks: seq<string>) returns (pieces: seq<string>)
    ensures Concat(pieces) == Concat(chunks)
    ensures |pieces| >= 1 && |pieces[|pieces| - 1]| <= PieceLimit
    ensures forall k :: 0 <= k < |pieces| - 1 ==> |pieces[k]| > PieceLimit
    ensures forall k :: 0 <= k < |pieces| ==> |pieces[k]| <= PieceLimit + Longest(chunks)
  {
    pieces := [];
    var forOutput := "";
    var i := 0;
    while i < |chunks|
      invariant 0 <= i <= |chunks|
      invariant Concat(pieces) + forOutput == Concat(chunks[..i])
      invariant |forOutput| <= PieceLimit
      invariant forall k :: 0 <= k < |pieces| ==> PieceLimit < |pieces[k]| <= PieceLimit + Longest(chunks)
    {
      PieceStep(pieces, forOutput, chunks, i);
      forOutput := forOutput + chunks[i];
      if |forOutput| > PieceLimit {
        pieces := pieces + [forOutput];
        forOutput := "";
      }
      i := i + 1;
    }
    assert chunks[..i] == chunks;
    ConcatSnoc(pieces, forOutput);
    pieces := pieces + [forOutput];
  }

  // ---------------------------------------------------------------- correlate

  /** A Python value as `json.loads` and the route's own assignments produce it. */
  datatype PyValue =
    | PStr(s: string)
    | PNum(n: real)
    | PBool(b: bool)
    | PNone
    | PList(items: seq<PyValue>)
    | PDict(entries: seq<(string, PyValue)>)

  /** `len(v)`: strings, lists and dictionaries have one; anything else raises TypeError. */
  function Len(v: PyValue): Option<nat> {
    match v
    case PStr(s) => Some(|s|)
    case PList(items) => Some(|items|)
    case PDict(entries) => Some(|entries|)
    case _ => None
  }

  /** `os.path.join(a, b)` on POSIX: an absolute `b` replaces `a`. */
  function PathJoin(a: string, b: string): string {
    if |b| > 0 && b[0] == '/' then b
    else if a == "" || a[|a| - 1] == '/' then a + b
    else a + "/" + b
  }

  /** The fields holding a JSON-encoded list. */
  const ListFields: set<string> := {"outcome", "exposure", "covariates"}

  /** What `json.loads` makes of a field's text, `None` standing for a decoding error. */
  type Decoder = string -> Option<PyValue>

  /** A JSON field decodes to something `len` accepts. */
  predicate Decodes(decode: Decoder, text: string) {
    decode(text).Some? && Len(decode(text).value).Some?
  }

  /** The route's normalisation succeeds: every field was sent with a value, and every list field
      decodes to something with a length. */
  predicate Normalisable(form: map<string, seq<string>>, decode: Decoder) {
    && (forall f :: f in form ==> form[f] != [])
    && (forall f :: f in ListFields && f in form && form[f] != [] ==> Decodes(decode, form[f][0]))
  }

  /** The normalised value of one field from its first value: the upload's workbook path, the
      decoded list (None when empty), the strata wrapped in a list (None when empty), or the
      text as it came. */
  function Normalised(field: string, text: string, decode: Decoder): PyValue
    requires field in ListFields ==> Decodes(decode, text)
  {
    if field == "filename" then PStr(WorkbookPath(text))
    else if field in ListFields then ListValue(decode(text).value)
    else if field == "strata" then StrataValue(text)
    else PStr(text)
  }

  /** The uploaded workbook's path under the temporary directory. */
  function WorkbookPath(name: string): string {
    PathJoin("tmp", name + ".xlsx")
  }

  /** A decoded list, None when it is empty. */
  function ListValue(v: PyValue): PyValue
    requires Len(v).Some?
  {
    if Len(v) == Some(0) then PNone else v
  }

  /** The strata, None when empty, else in a list of its own. */
  function StrataValue(text: string): PyValue {
    if |text| == 0 then PNone else PList([PStr(text)])
  }

  /** An empty JSON list, string or object becomes None; anything else with a length is kept
      as decoded. */
  lemma ListFieldMeaning(field: string, text: string, decode: Decoder)
    requires field in ListFields && Decodes(decode, text)
    ensures Normalised(field, text, decode) == PNone <==> Len(decode(text).value) == Some(0)
    ensures Normalised(field, text, decode) != PNone ==> Normalised(field, text, decode) == decode(text).value
  {
  }

  /** Empty strata become None; any other strata become a list holding exactly that text. */
  lemma StrataMeaning(text: string, decode: Decoder)
    ensures Normalised("strata", text, decode) == PNone <==> text == ""
    ensures text != "" ==> Normalised("strata", text, decode) == PList([PStr(text)])
  {
  }

  /** A relative name lands in the temporary directory as a workbook; an absolute one replaces
      the directory altogether. */
  lemma WorkbookPathMeaning(name: string)
    ensures |name| == 0 || name[0] != '/' ==> WorkbookPath(name) == "tmp/" + name + ".xlsx"
    ensures |name| > 0 && name[0] == '/' ==> WorkbookPath(name) == name + ".xlsx"
  {
  }

  /** `dict(request.form)`: every field with the list of its values. */
  function RawParameters(form: map<string, seq<string>>): map<string, PyValue> {
    map f | f in form :: PList(seq(|form[f]|, i requires 0 <= i < |form[f]| => PStr(form[f][i])))
  }

  /** One JSON list field, in place: decoded, and None when it is empty. */
  method DecodeList(params: map<string, PyValue>, field: string, decode: Decoder)
    returns (r: Result<map<string, PyValue>>)
    requires field in ListFields && field in params && params[field].PStr?
    ensures r.Err? <==> !Decodes(decode, params[field].s)
    ensures r.Ok? ==> r.value == params[field := Normalised(field, params[field].s, decode)]
  {
    var decoded := decode(params[field].s);
    if decoded.None? {
      return Err("JSONDecodeError");
    }
    var n := Len(decoded.value);
    if n.None? {
      return Err(TypeError);
    }
    if n.value == 0 {
      r := Ok(params[field := PNone]);
    } else {
      r := Ok(params[field := decoded.value]);
    }
  }

  /** The three JSON list fields in turn, each only when present; the first that fails to
      decode, or has no length, ends the normalisation. */
  method DecodeLists(params: map<string, PyValue>, decode: Decoder) returns (r: Result<map<string, PyValue>>)
    requires forall f :: f in ListFields && f in params ==> params[f].PStr?
    ensures r.Err? <==> exists f :: f in ListFields && f in params && !Decodes(decode, params[f].s)
    ensures r.Ok? ==> r.value.Keys == params.Keys
    ensures r.Ok? ==> forall f :: f in params && f !in ListFields ==> r.value[f] == params[f]
    ensures r.Ok? ==> forall f :: f in params && f in ListFields ==> r.value[f] == Normalised(f, params[f].s, decode)
  {
    var current := params;
    if "outcome" in current {
      var next := DecodeList(current, "outcome", decode);
      if next.Err? {
        return next;
      }
      current := next.value;
    }
    if "exposure" in current {
      var next := DecodeList(current, "exposure", decode);
      if next.Err? {
        return next;
      }
      current := next.value;
    }
    if "covariates" in current {
      var next := DecodeList(current, "covariates", decode);
      if next.Err? {
        return next;
      }
      current := next.value;
    }
    r := Ok(current);
  }

  /** `parameters[field] = parameters[field][0]` for every field: the first value of each, an
      IndexError when a field came without one. */
  method FirstValues(form: map<string, seq<string>>) returns (r: Result<map<string, PyValue>>)
    ensures r.Ok? <==> forall f :: f in form ==> form[f] != []
    ensures r.Ok? ==> r.value.Keys == form.Keys && forall f :: f in form ==> r.value[f] == PStr(form[f][0])
  {
    var params := RawParameters(form);
    var remaining := params.Keys;
    while remaining != {}
      invariant remaining <= form.Keys && params.Keys == form.Keys
      invariant forall f :: f in remaining ==>
        params[f].PList? && |params[f].items| == |form[f]| && (form[f] != [] ==> params[f].items[0] == PStr(form[f][0]))
      invariant forall f :: f in form && f !in remaining ==> form[f] != [] && params[f] == PStr(form[f][0])
      decreases remaining
    {
      var field :| field in remaining;
      if |params[field].items| == 0 {
        return Err("IndexError");
      }
      params := params[field := params[field].items[0]];
      remaining := remaining - {field};
    }
    r := Ok(params);
  }

  /** `parameters['filename'] = os.path.join('tmp', parameters['filename']+".xlsx")`. */
  method ResolveWorkbook(params: map<string, PyValue>) returns (p: map<string, PyValue>)
    requires "filename" in params ==> params["filename"].PStr?
    ensures p.Keys == params.Keys
    ensures forall f :: f in params && f != "filename" ==> p[f] == params[f]
    ensures "filename" in params ==> p["filename"] == PStr(WorkbookPath(params["filename"].s))
  {
    p := params;
    if "filename" in p {
      p := p["filename" := PStr(PathJoin("tmp", p["filename"].s + ".xlsx"))];
    }
  }

  /** The strata: None when empty, otherwise wrapped in a one-element list. */
  method WrapStrata(params: map<string, PyValue>) returns (p: map<string, PyValue>)
    requires "strata" in params ==> params["strata"].PStr?
    ensures p.Keys == params.Keys
    ensures forall f :: f in params && f != "strata" ==> p[f] == params[f]
    ensures "strata" in params ==> p["strata"] == StrataValue(params["strata"].s)
  {
    p := params;
    if "strata" in p {
      if |p["strata"].s| == 0 {
        p := p["strata" := PNone];
      } else {
        p := p["strata" := PList([p["strata"]])];
      }
    }
  }

  /** The normalisation that follows taking the first values: the workbook path, the three JSON
      lists and the strata, in this order. */
  method NormaliseFields(params: map<string, PyValue>, decode: Decoder) returns (r: Result<map<string, PyValue>>)
    requires forall f :: f in params ==> params[f].PStr?
    ensures r.Ok? <==> forall f :: f in ListFields && f in params ==> Decodes(decode, params[f].s)
    ensures r.Ok? ==> r.value.Keys == params.Keys
    ensures r.Ok? ==> forall f :: f in params ==> r.value[f] == Normalised(f, params[f].s, decode)
  {
    var resolved := ResolveWorkbook(params);
    var decoded := DecodeLists(resolved, decode);
    if decoded.Err? {
      return decoded;
    }
    var wrapped := WrapStrata(decoded.value);
    forall f | f in params ensures wrapped[f] == Normalised(f, params[f].s, decode) {
      if f in ListFields {
        assert f != "filename" && f != "strata";
      }
    }
    r := Ok(wrapped);
  }

  /** The parameter normalisation of `correlate`: each field's first value, then the workbook
      path, the three JSON lists and the strata. It fails, and the route answers with its generic
      error, iff a field came without a value or a JSON field does not decode to something with
      a length; otherwise every field is normalised and no field is added or dropped. */
  method NormaliseParameters(form: map<string, seq<string>>, decode: Decoder)
    returns (r: Result<map<string, PyValue>>)
    ensures r.Ok? <==> Normalisable(form, decode)
    ensures r.Ok? ==> r.value.Keys == form.Keys
    ensures r.Ok? ==> forall f :: f in form ==> r.value[f] == Normalised(f, form[f][0], decode)
  {
    var first := FirstValues(form);
    if first.Err? {
      return Err("IndexError");
    }
    r := NormaliseFields(first.value, decode);
  }

  /** The route's answer: the job queued for the batch of all models, answered through
      `buildFailure` with `EmailedLater`; the parameters handed to the R model; or the generic
      failure. */
  datatype Reply = Queued(queued: map<string, PyValue>) | RunModel(run: map<string, PyValue>) | Failed(statusMessage: string)

  const UnknownError := "An unknown error occurred"
  const EmailedLater := "The results will be emailed to you."

  /** `correlate` up to the model run: with "All models" the normalised parameters are queued,
      "filename" being read on the way; any other model name runs the model. A field without a
      value, a JSON field that does not decode to something with a length, a missing model name,
      or a missing file name for the batch, makes the generic failure. */
  method Correlate(form: map<string, seq<string>>, decode: Decoder) returns (reply: Reply)
    ensures reply.Failed? ==> reply.statusMessage == UnknownError
    ensures reply.Queued? <==>
      Normalisable(form, decode) && "modelName" in form && form["modelName"][0] == "All models" && "filename" in form
    ensures reply.RunModel? <==>
      Normalisable(form, decode) && "modelName" in form && form["modelName"][0] != "All models"
    ensures reply.Queued? || reply.RunModel? ==>
      var p := if reply.Queued? then reply.queued else reply.run;
      p.Keys == form.Keys && forall f :: f in form ==> p[f] == Normalised(f, form[f][0], decode)
  {
    var normalised := NormaliseParameters(form, decode);
    if normalised.Err? || "modelName" !in normalised.value {
      return Failed(UnknownError);
    }
    var parameters := normalised.value;
    if parameters["modelName"] == PStr("All models") {
      if "filename" !in parameters {
        return Failed(UnknownError);
      }
      reply := Queued(parameters);
    } else {
      reply := RunModel(parameters);
    }
  }
}
