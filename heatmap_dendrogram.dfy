/** getHeatmapDendrogramPlot and sampleChunks: the adapter from an externally computed
    clustering plot (dendrogram scatter traces around a heatmap trace) to the plot shown. */
module HeatmapDendrogram {
  import opened Base
  import opened Strings
  import opened JsValue
  import opened HeatmapTypes
  import Arith
  import opened Collections

  /** `defaultInterval`: the tick budget of the sampled axes. */
  const DefaultInterval: nat := 40

  /** `hclusterLayoutProps`: the axis properties copied from the clustering layout. */
  const AxisProps: seq<string> := [
    "anchor", "automargin", "autorange", "domain", "range", "categoryarray", "categoryorder",
    "showgrid", "showline", "showticklabels", "tickcolor", "ticklen", "tickmode", "ticks",
    "tickwidth", "type"]

  // ---------------------------------------------------------------- TickSampler

  /** `Math.floor(values?.length / interval) || 1`. A zero interval divides to Infinity (one
      chunk holding everything) for a non-empty input and to NaN (chunk size 1) for an empty one. */
  function ChunkSize(len: nat, interval: nat): (c: nat)
    ensures c >= 1
    ensures interval > 0 ==> (c == 1 <==> len < 2 * interval)
    ensures interval > 0 && len >= interval ==> c * interval <= len < (c + 1) * interval
  {
    if interval == 0 then (if len == 0 then 1 else len)
    else if len / interval == 0 then 1
    else len / interval
  }

  /** lodash `chunk`: consecutive pieces of `size` elements, the last one possibly shorter. */
  function Chunk<T>(s: seq<T>, size: nat): (r: seq<seq<T>>)
    requires size >= 1
    ensures forall k :: 0 <= k < |r| ==> 1 <= |r[k]| <= size
    decreases |s|
  {
    if s == [] then []
    else if |s| <= size then [s]
    else [s[..size]] + Chunk(s[size..], size)
  }

  /** The chunks, put back together, are the original sequence. */
  lemma {:induction false} ChunkConcat<T>(s: seq<T>, size: nat)
    requires size >= 1
    ensures Concat(Chunk(s, size)) == s
    decreases |s|
  {
    if s == [] {
    } else if |s| <= size {
      assert Concat([s]) == s + Concat([]);
    } else {
      var r := Chunk(s, size);
      assert r[1..] == Chunk(s[size..], size);
      ChunkConcat(s[size..], size);
      assert s[..size] + s[size..] == s;
    }
  }

  /** There are ceil(|s| / size) chunks. */
  lemma {:induction false} ChunkCount<T>(s: seq<T>, size: nat)
    requires size >= 1
    ensures |Chunk(s, size)| == (|s| + size - 1) / size
    decreases |s|
  {
    if s == [] {
      Arith.DivIs(size - 1, size, 0);
    } else if |s| <= size {
      Arith.DivIs(|s| + size - 1, size, 1);
    } else {
      var t := s[size..];
      ChunkCount(t, size);
      Arith.DivAddDivisor(|t| + size - 1, size);
      assert |s| + size - 1 == (|t| + size - 1) + size;
    }
  }

  /** Chunk number k starts at element k * size. */
  lemma {:induction false} ChunkStart<T>(s: seq<T>, size: nat, k: nat)
    requires size >= 1 && k < |Chunk(s, size)|
    ensures k * size < |s| && Chunk(s, size)[k][0] == s[k * size]
    decreases k
  {
    if k == 0 {
      assert k * size == 0;
    } else {
      var t := s[size..];
      assert Chunk(s, size)[k] == Chunk(t, size)[k - 1];
      ChunkStart(t, size, k - 1);
      assert (k - 1) * size + size == k * size;
    }
  }

  lemma ChunkStarts<T>(s: seq<T>, size: nat)
    requires size >= 1
    ensures |Chunk(s, size)| == (|s| + size - 1) / size
    ensures forall k :: 0 <= k < |Chunk(s, size)| ==> k * size < |s| && Chunk(s, size)[k][0] == s[k * size]
  {
    ChunkCount(s, size);
    forall k | 0 <= k < |Chunk(s, size)| ensures k * size < |s| && Chunk(s, size)[k][0] == s[k * size] {
      ChunkStart(s, size, k);
    }
  }

  /** sampleChunks(values, interval): the first element of each chunk; anything that is neither
      an array nor a string has no elements to sample. */
  function SampleChunks(values: Value, interval: nat): seq<Value> {
    match values
    case Arr(items) =>
      var ch := Chunk(items, ChunkSize(|items|, interval));
      seq(|ch|, k requires 0 <= k < |ch| => ch[k][0])
    case Str(s) =>
      var ch := Chunk(s, ChunkSize(|s|, interval));
      seq(|ch|, k requires 0 <= k < |ch| => Str([ch[k][0]]))
    case _ => []
  }

  /** The sample of an array: ceil(n / c) entries, entry k being element k * c, where c is the chunk size. */
  lemma SampleChunksOfArray(items: seq<Value>, interval: nat)
    ensures var c := ChunkSize(|items|, interval);
      var r := SampleChunks(Arr(items), interval);
      && |r| == (|items| + c - 1) / c
      && forall k :: 0 <= k < |r| ==> k * c < |items| && r[k] == items[k * c]
  {
    ChunkStarts(items, ChunkSize(|items|, interval));
  }

  /** An array shorter than the interval is returned unchanged. */
  lemma SampleChunksShort(items: seq<Value>, interval: nat)
    requires |items| < interval
    ensures SampleChunks(Arr(items), interval) == items
  {
    SampleChunksOfArray(items, interval);
  }

  /** Two arrays of equal length are sampled at the same indices, so tickvals and ticktext stay aligned. */
  lemma SampleChunksAligned(vals: seq<Value>, texts: seq<Value>, interval: nat)
    requires |vals| == |texts|
    ensures var c := ChunkSize(|vals|, interval);
      var rv := SampleChunks(Arr(vals), interval);
      var rt := SampleChunks(Arr(texts), interval);
      && |rv| == |rt|
      && forall k :: 0 <= k < |rv| ==> k * c < |vals| && rv[k] == vals[k * c] && rt[k] == texts[k * c]
  {
    SampleChunksOfArray(vals, interval);
    SampleChunksOfArray(texts, interval);
  }

  /** A thousand ticks are sampled down to exactly the budget of forty. */
  lemma SampleChunksThousand(items: seq<Value>)
    requires |items| == 1000
    ensures |SampleChunks(Arr(items), DefaultInterval)| == 40
  {
    SampleChunksOfArray(items, DefaultInterval);
  }

  /** The floor in the chunk size lets the sample exceed the budget: 79 ticks give chunk size 1
      and all 79 are kept. */
  lemma SampleChunksOverBudget(items: seq<Value>)
    requires |items| == 79
    ensures |SampleChunks(Arr(items), DefaultInterval)| == 79 > DefaultInterval
  {
    SampleChunksOfArray(items, DefaultInterval);
  }

  // ---------------------------------------------------------------- DendrogramAnnotations

  /** The annotation pushed for row y = i and column x = j of the heatmap trace. */
  function CellAnnotation(t: Trace, i: nat, j: nat): Result<Annotation> {
    var xv :- At(t.x, j);
    var yv :- At(t.y, i);
    var row :- At(t.z, i);
    var zv :- At(row, j);
    Ok(Annotation(xv, yv, zv, "x", "y2"))
  }

  /** The annotations of row i, columns 0 .. n-1. */
  function RowAnnotations(t: Trace, i: nat, n: nat): Result<seq<Annotation>> {
    if n == 0 then Ok([])
    else
      var pre :- RowAnnotations(t, i, n - 1);
      var a :- CellAnnotation(t, i, n - 1);
      Ok(pre + [a])
  }

  /** The annotations of rows 0 .. m-1; each row first reads `x.length`. */
  function GridAnnotations(t: Trace, m: nat): Result<seq<Annotation>> {
    if m == 0 then Ok([])
    else
      var pre :- GridAnnotations(t, m - 1);
      var w :- Length(t.x);
      var row :- RowAnnotations(t, m - 1, w);
      Ok(pre + row)
  }

  /** The annotation list built from the heatmap trace, or the error its loops throw. */
  function TraceAnnotations(t: Trace): Result<seq<Annotation>> {
    var h :- Length(t.y);
    GridAnnotations(t, h)
  }

  lemma {:induction false} RowAnnotationsErr(t: Trace, i: nat, m: nat, n: nat)
    requires m <= n && RowAnnotations(t, i, m).Err?
    ensures RowAnnotations(t, i, n) == RowAnnotations(t, i, m)
    decreases n
  {
    if m < n { RowAnnotationsErr(t, i, m, n - 1); }
  }

  lemma {:induction false} GridAnnotationsErr(t: Trace, m: nat, n: nat)
    requires m <= n && GridAnnotations(t, m).Err?
    ensures GridAnnotations(t, n) == GridAnnotations(t, m)
    decreases n
  {
    if m < n { GridAnnotationsErr(t, m, n - 1); }
  }

  /** The nested loop of the source, pushing one annotation per (y, x) pair. */
  method BuildAnnotations(t: Trace) returns (r: Result<seq<Annotation>>)
    ensures r == TraceAnnotations(t)
  {
    var h := Length(t.y);
    if h.Err? {
      return Err(h.error);
    }
    var acc: seq<Annotation> := [];
    var y := 0;
    while y < h.value
      invariant 0 <= y <= h.value
      invariant GridAnnotations(t, y) == Ok(acc)
    {
      var w := Length(t.x);
      if w.Err? {
        GridAnnotationsErr(t, y + 1, h.value);
        return Err(w.error);
      }
      var row: seq<Annotation> := [];
      var x := 0;
      while x < w.value
        invariant 0 <= x <= w.value
        invariant RowAnnotations(t, y, x) == Ok(row)
      {
        var xv := At(t.x, x);
        var yv := At(t.y, y);
        var zr := At(t.z, y);
        if zr.Err? {
          RowAnnotationsErr(t, y, x + 1, w.value);
          GridAnnotationsErr(t, y + 1, h.value);
          return Err(zr.error);
        }
        var zv := At(zr.value, x);
        if zv.Err? {
          RowAnnotationsErr(t, y, x + 1, w.value);
          GridAnnotationsErr(t, y + 1, h.value);
          return Err(zv.error);
        }
        row := row + [Annotation(xv.value, yv.value, zv.value, "x", "y2")];
        x := x + 1;
      }
      acc := acc + row;
      y := y + 1;
    }
    r := Ok(acc);
  }

  lemma {:induction false} RowAnnotationsShape(t: Trace, i: nat, n: nat)
    requires RowAnnotations(t, i, n).Ok?
    ensures var r := RowAnnotations(t, i, n).value;
      |r| == n && forall j :: 0 <= j < n ==> CellAnnotation(t, i, j) == Ok(r[j])
  {
    if n > 0 { RowAnnotationsShape(t, i, n - 1); }
  }

  lemma {:induction false} GridAnnotationsLength(t: Trace, m: nat, w: nat)
    requires Length(t.x) == Ok(w)
    requires GridAnnotations(t, m).Ok?
    ensures |GridAnnotations(t, m).value| == m * w
  {
    if m == 0 {
      assert m * w == 0;
    } else {
      GridAnnotationsLength(t, m - 1, w);
      RowAnnotationsShape(t, m - 1, w);
      assert m * w == (m - 1) * w + w;
    }
  }

  lemma {:induction false} GridAnnotationAt(t: Trace, m: nat, w: nat, i: nat, j: nat)
    requires Length(t.x) == Ok(w)
    requires GridAnnotations(t, m).Ok?
    requires i < m && j < w
    ensures i * w + j < |GridAnnotations(t, m).value|
    ensures CellAnnotation(t, i, j) == Ok(GridAnnotations(t, m).value[i * w + j])
    decreases m
  {
    var pre := GridAnnotations(t, m - 1).value;
    var row := RowAnnotations(t, m - 1, w).value;
    assert GridAnnotations(t, m) == Ok(pre + row);
    GridAnnotationsLength(t, m - 1, w);
    RowAnnotationsShape(t, m - 1, w);
    GridCell(pre, row, i, j, m, w);
    if i < m - 1 {
      GridAnnotationAt(t, m - 1, w, i, j);
    }
  }

  /** Entry i * w + j of the rows before m followed by row m - 1. */
  lemma GridCell<T>(pre: seq<T>, row: seq<T>, i: nat, j: nat, m: nat, w: nat)
    requires |pre| == (m - 1) * w && |row| == w && i < m && j < w
    ensures i * w + j < |pre + row|
    ensures i < m - 1 ==> i * w + j < |pre| && (pre + row)[i * w + j] == pre[i * w + j]
    ensures i == m - 1 ==> (pre + row)[i * w + j] == row[j]
  {
    Arith.RowEnd(i, m, w);
    if i < m - 1 {
      Arith.RowEnd(i, m - 1, w);
    }
  }

  /** For a trace whose x and y are arrays and whose z holds an array per y entry, the
      annotations are |y| * |x| entries in y-outer, x-inner order: entry i * |x| + j sits at
      (x[j], y[i]) on axes x / y2 and shows z[i][j]. */
  lemma TraceAnnotationsOfMatrix(t: Trace, xs: seq<Value>, ys: seq<Value>, zs: seq<Value>)
    requires t.x == Arr(xs) && t.y == Arr(ys) && t.z == Arr(zs)
    requires |zs| >= |ys| && forall i :: 0 <= i < |ys| ==> zs[i].Arr?
    ensures TraceAnnotations(t).Ok?
    ensures var r := TraceAnnotations(t).value;
      && |r| == |ys| * |xs|
      && forall i, j :: 0 <= i < |ys| && 0 <= j < |xs| ==>
           && i * |xs| + j < |r|
           && r[i * |xs| + j] == Annotation(xs[j], ys[i], (if j < |zs[i].items| then zs[i].items[j] else Undefined), "x", "y2")
  {
    forall i, j | 0 <= i < |ys| && 0 <= j < |xs|
      ensures CellAnnotation(t, i, j) == Ok(Annotation(xs[j], ys[i], (if j < |zs[i].items| then zs[i].items[j] else Undefined), "x", "y2"))
    {
    }
    GridOk(t, |ys|, |xs|);
    GridAnnotationsLength(t, |ys|, |xs|);
    forall i, j | 0 <= i < |ys| && 0 <= j < |xs|
      ensures i * |xs| + j < |TraceAnnotations(t).value|
      ensures TraceAnnotations(t).value[i * |xs| + j]
           == Annotation(xs[j], ys[i], (if j < |zs[i].items| then zs[i].items[j] else Undefined), "x", "y2")
    {
      GridAnnotationAt(t, |ys|, |xs|, i, j);
    }
  }

  lemma {:induction false} RowOk(t: Trace, i: nat, n: nat)
    requires forall j :: 0 <= j < n ==> CellAnnotation(t, i, j).Ok?
    ensures RowAnnotations(t, i, n).Ok?
  {
    if n > 0 { RowOk(t, i, n - 1); }
  }

  lemma {:induction false} GridOk(t: Trace, m: nat, w: nat)
    requires Length(t.x) == Ok(w)
    requires forall i, j :: 0 <= i < m && 0 <= j < w ==> CellAnnotation(t, i, j).Ok?
    ensures GridAnnotations(t, m).Ok?
  {
    if m > 0 {
      GridOk(t, m - 1, w);
      RowOk(t, m - 1, w);
    }
  }

  // ---------------------------------------------------------------- HoverText

  /** `v - 1` as an array index: a positive whole number k gives k - 1 and `true` gives 0;
      every other number reads a property no array has. */
  function TickIndex(v: Value): Option<nat> {
    match v
    case Num(n) => if n >= 1.0 && n == n.Floor as real then Some(n.Floor - 1) else None
    case Bool(b) => if b then Some(0) else None
    case _ => None
  }

  /** `axis.categoryarray[v - 1]`: throws when the axis has no category array. */
  function Category(axis: map<string, Value>, v: Value): Result<Value> {
    var arr := Get(axis, "categoryarray");
    if arr.Undefined? || arr.Null? then Err(TypeError)
    else
      match TickIndex(v)
      case Some(k) => At(arr, k)
      case None => Ok(Undefined)
  }

  /** The three hover lines: exposure, outcome and estimate. */
  function HoverText(xCategory: Value, yCategory: Value, zValue: Value, showNum: real -> string): string {
    "<b>Exposure</b>: " + ToStr(xCategory, showNum) + "<br>"
    + "<b>Outcome</b>: " + ToStr(yCategory, showNum) + "<br>"
    + "<b>Estimate</b>: " + ToStr(zValue, showNum)
  }

  function HoverCell(layout: ClusterLayout, z: Value, i: nat, j: nat, xv: Value, yv: Value, showNum: real -> string): Result<Value> {
    var xc :- Category(layout.xaxis, xv);
    var yc :- Category(layout.yaxis2, yv);
    var row :- At(z, i);
    var zv :- At(row, j);
    Ok(Str(HoverText(xc, yc, zv, showNum)))
  }

  /** `props.x.map(...)` for row i. */
  function HoverRow(layout: ClusterLayout, z: Value, i: nat, yv: Value, xs: seq<Value>, showNum: real -> string): Result<seq<Value>>
    decreases |xs|
  {
    if xs == [] then Ok([])
    else
      var pre :- HoverRow(layout, z, i, yv, xs[..|xs| - 1], showNum);
      var c :- HoverCell(layout, z, i, |xs| - 1, xs[|xs| - 1], yv, showNum);
      Ok(pre + [c])
  }

  /** `props.y.map(...)`; each row maps over `props.x`, which must then be an array. */
  function HoverRows(layout: ClusterLayout, z: Value, ys: seq<Value>, x: Value, showNum: real -> string): Result<seq<Value>>
    decreases |ys|
  {
    if ys == [] then Ok([])
    else
      var pre :- HoverRows(layout, z, ys[..|ys| - 1], x, showNum);
      var xs :- if x.Arr? then Ok(x.items) else Err(TypeError);
      var row :- HoverRow(layout, z, |ys| - 1, ys[|ys| - 1], xs, showNum);
      Ok(pre + [Arr(row)])
  }

  /** The `text` matrix of a heatmap trace. */
  function HoverMatrix(layout: ClusterLayout, t: Trace, showNum: real -> string): Result<Value> {
    if t.y.Arr? then
      var rows :- HoverRows(layout, t.z, t.y.items, t.x, showNum);
      Ok(Arr(rows))
    else Err(TypeError)
  }

  lemma {:induction false} HoverRowShape(layout: ClusterLayout, z: Value, i: nat, yv: Value, xs: seq<Value>, showNum: real -> string)
    requires HoverRow(layout, z, i, yv, xs, showNum).Ok?
    ensures var r := HoverRow(layout, z, i, yv, xs, showNum).value;
      |r| == |xs| && forall j :: 0 <= j < |xs| ==> HoverCell(layout, z, i, j, xs[j], yv, showNum) == Ok(r[j])
    decreases |xs|
  {
    if xs != [] {
      var pre := xs[..|xs| - 1];
      HoverRowShape(layout, z, i, yv, pre, showNum);
    }
  }

  lemma {:induction false} HoverRowsShape(layout: ClusterLayout, z: Value, ys: seq<Value>, x: Value, showNum: real -> string)
    requires HoverRows(layout, z, ys, x, showNum).Ok?
    ensures var r := HoverRows(layout, z, ys, x, showNum).value;
      && |r| == |ys|
      && (ys != [] ==> x.Arr?)
      && forall i :: 0 <= i < |ys| ==> r[i].Arr? && HoverRow(layout, z, i, ys[i], x.items, showNum) == Ok(r[i].items)
    decreases |ys|
  {
    if ys != [] {
      var pre := ys[..|ys| - 1];
      HoverRowsShape(layout, z, pre, x, showNum);
    }
  }

  /** The hover text is a |y| x |x| matrix whose cell (i, j) reads the categories of
      x[j] and y[i] through the 1-based category arrays and shows z[i][j]. */
  lemma HoverMatrixShape(layout: ClusterLayout, t: Trace, showNum: real -> string)
    requires HoverMatrix(layout, t, showNum).Ok?
    ensures var text := HoverMatrix(layout, t, showNum).value;
      && t.y.Arr? && text.Arr? && |text.items| == |t.y.items|
      && (t.y.items != [] ==> t.x.Arr?)
      && forall i :: 0 <= i < |t.y.items| ==>
           && text.items[i].Arr? && |text.items[i].items| == |t.x.items|
           && forall j :: 0 <= j < |t.x.items| ==>
                HoverCell(layout, t.z, i, j, t.x.items[j], t.y.items[i], showNum) == Ok(text.items[i].items[j])
  {
    var rows := HoverRows(layout, t.z, t.y.items, t.x, showNum).value;
    HoverRowsShape(layout, t.z, t.y.items, t.x, showNum);
    forall i | 0 <= i < |t.y.items|
      ensures |rows[i].items| == |t.x.items|
      ensures forall j :: 0 <= j < |t.x.items| ==>
                HoverCell(layout, t.z, i, j, t.x.items[j], t.y.items[i], showNum) == Ok(rows[i].items[j])
    {
      HoverRowShape(layout, t.z, i, t.y.items[i], t.x.items, showNum);
    }
  }

  /** A hover cell whose ticks are the 1-based positions kx and ky in the category arrays names
      those categories, and shows z[i][j]. */
  lemma HoverCellOfCategories(layout: ClusterLayout, z: Value, i: nat, j: nat, kx: nat, ky: nat,
                              xcats: seq<Value>, ycats: seq<Value>, zs: seq<Value>, showNum: real -> string)
    requires Get(layout.xaxis, "categoryarray") == Arr(xcats) && Get(layout.yaxis2, "categoryarray") == Arr(ycats)
    requires 1 <= kx <= |xcats| && 1 <= ky <= |ycats|
    requires z == Arr(zs) && i < |zs| && zs[i].Arr? && j < |zs[i].items|
    ensures HoverCell(layout, z, i, j, Num(kx as real), Num(ky as real), showNum)
         == Ok(Str(HoverText(xcats[kx - 1], ycats[ky - 1], zs[i].items[j], showNum)))
  {
    assert TickIndex(Num(kx as real)) == Some(kx - 1);
    assert TickIndex(Num(ky as real)) == Some(ky - 1);
  }

  // ---------------------------------------------------------------- TraceFilter

  function Put(m: map<string, Value>, key: string, v: Value): map<string, Value> {
    if v.Undefined? then m else m[key := v]
  }

  /** `pick(t, ["x", "y", "z", "type", "mode", "text", "hoverinfo", "xaxis", "yaxis"])`. */
  function Props(t: Trace): map<string, Value> {
    var m := Put(Put(Put(map[], "x", t.x), "y", t.y), "z", t.z);
    var m := Put(Put(Put(m, "type", t.kind), "mode", t.mode), "text", t.text);
    Put(Put(Put(m, "hoverinfo", t.hoverinfo), "xaxis", t.xaxis), "yaxis", t.yaxis)
  }

  /** A scatter trace with a truthy x of length at least 2 (a dendrogram branch). */
  predicate IsBranch(t: Trace) {
    t.kind == Str("scatter") && Truthy(t.x)
    && match t.x
       case Arr(items) => |items| >= 2
       case Str(s) => |s| >= 2
       case _ => false
  }

  predicate IsHeatmap(t: Trace) {
    t.kind == Str("heatmap")
  }

  /** `colorbar: {title: {text: "Estimate"}}`. */
  const ColorBar := Obj(map["title" := Obj(map["text" := Str("Estimate")])])

  /** The callback of `hcluster.data.map`: a branch loses its legend entry, a heatmap gets hover
      text and a color bar, any other trace maps to null. */
  function MapTrace(layout: ClusterLayout, t: Trace, showNum: real -> string): Result<Option<map<string, Value>>> {
    if IsBranch(t) then Ok(Some(Props(t)["showlegend" := Bool(false)]))
    else if IsHeatmap(t) then
      var text :- HoverMatrix(layout, t, showNum);
      Ok(Some(Props(t)["text" := text]["colorbar" := ColorBar]))
    else Ok(None)
  }

  /** `hcluster.data.map(...).filter(Boolean)`. */
  function MapTraces(layout: ClusterLayout, ts: seq<Trace>, showNum: real -> string): Result<seq<map<string, Value>>>
    decreases |ts|
  {
    if ts == [] then Ok([])
    else
      var pre :- MapTraces(layout, ts[..|ts| - 1], showNum);
      var o :- MapTrace(layout, ts[|ts| - 1], showNum);
      Ok(pre + (if o.Some? then [o.value] else []))
  }

  /** The traces the adapter keeps, in order: the branches and the heatmaps. */
  function Kept(ts: seq<Trace>): (r: seq<Trace>)
    ensures forall t :: t in r <==> t in ts && (IsBranch(t) || IsHeatmap(t))
    decreases |ts|
  {
    if ts == [] then []
    else
      var last := ts[|ts| - 1];
      assert forall t :: t in ts <==> t in ts[..|ts| - 1] || t == last;
      Kept(ts[..|ts| - 1]) + (if IsBranch(last) || IsHeatmap(last) then [last] else [])
  }

  /** The output traces correspond one to one, in order, to the kept input traces. */
  lemma {:induction false} MapTracesKept(layout: ClusterLayout, ts: seq<Trace>, showNum: real -> string)
    requires MapTraces(layout, ts, showNum).Ok?
    ensures var d := MapTraces(layout, ts, showNum).value;
      var k := Kept(ts);
      && |d| == |k|
      && forall n :: 0 <= n < |k| ==> MapTrace(layout, k[n], showNum) == Ok(Some(d[n]))
    decreases |ts|
  {
    if ts != [] {
      MapTracesKept(layout, ts[..|ts| - 1], showNum);
    }
  }

  // ---------------------------------------------------------------- PlotAssembler

  /** The plot handed to the plotting component: its traces and the layout fields set here. */
  datatype DendrogramPlot =
    | DefaultDendrogramPlot
    | ClusterPlot(
        data: seq<map<string, Value>>,
        title: string,
        annotations: seq<Annotation>,
        margin: Value,
        xaxis: map<string, Value>,
        xaxis2: map<string, Value>,
        yaxis: map<string, Value>,
        yaxis2: map<string, Value>)

  /** `pick(axis, hclusterLayoutProps)`. */
  function PickAxis(axis: map<string, Value>): (r: map<string, Value>)
    ensures forall k :: k in r <==> k in axis && k in AxisProps
    ensures forall k :: k in r ==> r[k] == axis[k]
  {
    map k | k in axis && k in AxisProps :: axis[k]
  }

  /** An axis projected onto the allow-list, with its ticks sampled. */
  function SampledAxis(axis: map<string, Value>): (r: map<string, Value>)
    ensures forall k :: k in r <==> (k in axis && k in AxisProps) || k == "tickvals" || k == "ticktext"
    ensures forall k :: k in r && k != "tickvals" && k != "ticktext" ==> r[k] == axis[k]
    ensures r["tickvals"] == Arr(SampleChunks(Get(axis, "tickvals"), DefaultInterval))
    ensures r["ticktext"] == Arr(SampleChunks(Get(axis, "ticktext"), DefaultInterval))
  {
    PickAxis(axis)["tickvals" := Arr(SampleChunks(Get(axis, "tickvals"), DefaultInterval))]
                  ["ticktext" := Arr(SampleChunks(Get(axis, "ticktext"), DefaultInterval))]
  }

  /** Array.prototype.find for the first heatmap trace. */
  function FindHeatmap(ts: seq<Trace>): (o: Option<Trace>)
    ensures o.Some? ==> o.value in ts && IsHeatmap(o.value)
    ensures o.Some? ==> exists k :: 0 <= k < |ts| && ts[k] == o.value && forall j :: 0 <= j < k ==> !IsHeatmap(ts[j])
    ensures o.None? <==> forall t :: t in ts ==> !IsHeatmap(t)
  {
    if ts == [] then None
    else if IsHeatmap(ts[0]) then Some(ts[0])
    else
      assert forall t :: t in ts <==> t == ts[0] || t in ts[1..];
      var o := FindHeatmap(ts[1..]);
      assert o.Some? ==> exists k :: 0 <= k < |ts| && ts[k] == o.value && forall j :: 0 <= j < k ==> !IsHeatmap(ts[j]) by {
        if o.Some? {
          var k :| 0 <= k < |ts[1..]| && ts[1..][k] == o.value && forall j :: 0 <= j < k ==> !IsHeatmap(ts[1..][j]);
          assert ts[k + 1] == o.value && forall j :: 0 <= j < k + 1 ==> !IsHeatmap(ts[j]);
        }
      }
      o
  }

  predicate HasDendrogram(results: Results) {
    HasHeatmapData(results) && results.heatmap.value.dendrogram.Some?
  }

  /** getHeatmapDendrogramPlot(results, heatmapOptions, {name}): the annotation loop runs, and
      may throw, even when annotations are off. */
  function GetHeatmapDendrogramPlot(results: Results, options: HeatmapOptions, name: string, showNum: real -> string): Result<DendrogramPlot> {
    if !HasDendrogram(results) then Ok(DefaultDendrogramPlot)
    else
      var h := results.heatmap.value.dendrogram.value;
      var annotations :- match FindHeatmap(h.data)
                         case None => Ok([])
                         case Some(t) => TraceAnnotations(t);
      var data :- MapTraces(h.layout, h.data, showNum);
      Ok(ClusterPlot(
        data, name, if options.showAnnotations then annotations else [], h.layout.margin,
        SampledAxis(h.layout.xaxis), PickAxis(h.layout.xaxis2), PickAxis(h.layout.yaxis), SampledAxis(h.layout.yaxis2)))
  }

  /** The default plot is returned exactly when the heatmap data or the dendrogram is missing. */
  lemma DendrogramDefaultWhen(results: Results, options: HeatmapOptions, name: string, showNum: real -> string)
    ensures GetHeatmapDendrogramPlot(results, options, name, showNum) == Ok(DefaultDendrogramPlot)
        <==> !HasDendrogram(results)
  {
  }

  /** The traces of the result are the kept traces, in order, each mapped by MapTrace. */
  lemma DendrogramTraces(results: Results, options: HeatmapOptions, name: string, showNum: real -> string)
    requires HasDendrogram(results)
    requires GetHeatmapDendrogramPlot(results, options, name, showNum).Ok?
    ensures var h := results.heatmap.value.dendrogram.value;
      var p := GetHeatmapDendrogramPlot(results, options, name, showNum).value;
      && p.ClusterPlot?
      && |p.data| == |Kept(h.data)|
      && forall n :: 0 <= n < |p.data| ==> MapTrace(h.layout, Kept(h.data)[n], showNum) == Ok(Some(p.data[n]))
  {
    var h := results.heatmap.value.dendrogram.value;
    MapTracesKept(h.layout, h.data, showNum);
  }

  /** The annotations are empty when switched off, and are those of the first heatmap trace
      (none without one) when switched on. */
  lemma DendrogramAnnotations(results: Results, options: HeatmapOptions, name: string, showNum: real -> string)
    requires HasDendrogram(results)
    requires GetHeatmapDendrogramPlot(results, options, name, showNum).Ok?
    ensures var h := results.heatmap.value.dendrogram.value;
      var p := GetHeatmapDendrogramPlot(results, options, name, showNum).value;
      && (!options.showAnnotations ==> p.annotations == [])
      && (options.showAnnotations && FindHeatmap(h.data).None? ==> p.annotations == [])
      && (options.showAnnotations && FindHeatmap(h.data).Some? ==>
            Ok(p.annotations) == TraceAnnotations(FindHeatmap(h.data).value))
  {
  }

  /** Without a heatmap trace the branches are still returned, each without a legend entry,
      and there are no annotations. */
  lemma DendrogramWithoutHeatmap(results: Results, options: HeatmapOptions, name: string, showNum: real -> string)
    requires HasDendrogram(results)
    requires forall t :: t in results.heatmap.value.dendrogram.value.data ==> !IsHeatmap(t)
    ensures var h := results.heatmap.value.dendrogram.value;
      var r := GetHeatmapDendrogramPlot(results, options, name, showNum);
      && r.Ok? && r.value.ClusterPlot? && r.value.annotations == []
      && |r.value.data| == |Kept(h.data)|
      && forall n :: 0 <= n < |r.value.data| ==>
           IsBranch(Kept(h.data)[n]) && r.value.data[n] == Props(Kept(h.data)[n])["showlegend" := Bool(false)]
  {
    var h := results.heatmap.value.dendrogram.value;
    AllBranchesMap(h.layout, h.data, showNum);
    MapTracesKept(h.layout, h.data, showNum);
    forall n | 0 <= n < |Kept(h.data)| ensures IsBranch(Kept(h.data)[n]) {
      assert Kept(h.data)[n] in Kept(h.data);
    }
  }

  lemma {:induction false} AllBranchesMap(layout: ClusterLayout, ts: seq<Trace>, showNum: real -> string)
    requires forall t :: t in ts ==> !IsHeatmap(t)
    ensures MapTraces(layout, ts, showNum).Ok?
    decreases |ts|
  {
    if ts != [] {
      AllBranchesMap(layout, ts[..|ts| - 1], showNum);
      assert ts[|ts| - 1] in ts;
    }
  }

  /** The copied axes keep exactly the allow-listed properties they have, with their values;
      the x axis and the second y axis also carry both tick arrays, sampled. */
  lemma DendrogramAxes(results: Results, options: HeatmapOptions, name: string, showNum: real -> string)
    requires HasDendrogram(results)
    requires GetHeatmapDendrogramPlot(results, options, name, showNum).Ok?
    ensures var l := results.heatmap.value.dendrogram.value.layout;
      var p := GetHeatmapDendrogramPlot(results, options, name, showNum).value;
      && p.ClusterPlot? && p.title == name && p.margin == l.margin
      && p.xaxis2 == PickAxis(l.xaxis2) && p.yaxis == PickAxis(l.yaxis)
      && p.xaxis == SampledAxis(l.xaxis) && p.yaxis2 == SampledAxis(l.yaxis2)
  {
  }
}
