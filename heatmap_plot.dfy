/** getHeatmapPlot: effect records to a dense heatmap matrix (p-value filter,
    category indexing, pivot sort, matrix and cell metadata, annotations). */
module HeatmapPlot {
  import opened Base
  import opened Strings
  import opened JsValue
  import opened HeatmapTypes
  import StableSort
  import opened Collections

  /** A cell of the `customdata` matrix: the record found for the cell, or the
      sentinel `{pvalue: NaN}` for an absent (x, y) pair. */
  datatype Cell = Found(record: EffectRecord) | Missing

  /** The heatmap trace and the layout fields the plain path fills in. */
  datatype PlainPlot =
    | DefaultPlot
    | Plot(
        x: seq<string>,
        y: seq<string>,
        z: seq<seq<Option<real>>>,
        customdata: seq<seq<Cell>>,
        title: string,
        annotations: seq<Annotation>)

  // ---------------------------------------------------------------- RecordFilter

  /** The admission test of the p-value filter, branch by branch as the source writes it. */
  predicate PassesFilter(p: Option<real>, lo: Option<real>, hi: Option<real>) {
    if lo.Some? && hi.Some? then p.Some? && p.value >= lo.value && p.value <= hi.value
    else if lo.Some? then p.Some? && p.value >= lo.value
    else if hi.Some? then p.Some? && p.value <= hi.value
    else true
  }

  /** Each active bound constrains the p-value independently; a NaN p-value fails any active bound. */
  predicate WithinBounds(p: Option<real>, lo: Option<real>, hi: Option<real>) {
    && (lo.Some? ==> p.Some? && lo.value <= p.value)
    && (hi.Some? ==> p.Some? && p.value <= hi.value)
  }

  /** The records that survive the p-value filter, in their original order. */
  function FilterRecords(rs: seq<EffectRecord>, lo: Option<real>, hi: Option<real>): (r: seq<EffectRecord>)
    ensures |r| <= |rs|
    ensures forall e :: e in r <==> e in rs && WithinBounds(e.p, lo, hi)
    ensures lo.None? && hi.None? ==> r == rs
    ensures Subsequence(r, rs)
  {
    if rs == [] then []
    else
      assert forall e :: e in rs <==> e == rs[0] || e in rs[1..];
      var rest := FilterRecords(rs[1..], lo, hi);
      if PassesFilter(rs[0].p, lo, hi) then
        assert ([rs[0]] + rest)[1..] == rest;
        [rs[0]] + rest
      else
        assert rest != [] ==> rest[0] in rest;
        rest
  }

  /** Every occurrence of a record within the bounds survives, and no other: with `Subsequence`
      this pins the filtered sequence down completely. */
  lemma {:induction false} FilterRecordsCounts(rs: seq<EffectRecord>, lo: Option<real>, hi: Option<real>)
    ensures forall e :: multiset(FilterRecords(rs, lo, hi))[e] == if WithinBounds(e.p, lo, hi) then multiset(rs)[e] else 0
    decreases |rs|
  {
    if rs != [] {
      FilterRecordsCounts(rs[1..], lo, hi);
      assert rs == [rs[0]] + rs[1..];
      assert PassesFilter(rs[0].p, lo, hi) <==> WithinBounds(rs[0].p, lo, hi);
    }
  }

  /** Bounds 0.02 and 0.3 keep 0.04 and 0.2 out of 0.01, 0.04, 0.2, 0.5. */
  lemma FilterExample()
    ensures var rs := [EffectRecord("a", "u", 1.0, Some(0.01)), EffectRecord("a", "v", 1.0, Some(0.04)),
                       EffectRecord("a", "w", 1.0, Some(0.2)), EffectRecord("a", "t", 1.0, Some(0.5))];
            FilterRecords(rs, Some(0.02), Some(0.3)) == [rs[1], rs[2]]
  {
  }

  // ---------------------------------------------------------------- CategoryIndexer

  function XValues(rs: seq<EffectRecord>): (r: seq<string>)
    ensures |r| == |rs| && forall i :: 0 <= i < |rs| ==> r[i] == rs[i].x
  {
    seq(|rs|, i requires 0 <= i < |rs| => rs[i].x)
  }

  function YValues(rs: seq<EffectRecord>): (r: seq<string>)
    ensures |r| == |rs| && forall i :: 0 <= i < |rs| ==> r[i] == rs[i].y
  {
    seq(|rs|, i requires 0 <= i < |rs| => rs[i].y)
  }

  /** The comparator of Array.prototype.sort without arguments, on strings. */
  function StringCompare(a: string, b: string): int {
    if Less(a, b) then -1 else if Less(b, a) then 1 else 0
  }

  /** `xCategoriesSorted`: a sorted copy of the first-seen categories. */
  function SortedCategories(cats: seq<string>): seq<string> {
    StableSort.Sort(StringCompare, cats)
  }

  lemma StringCompareTotalPreorder(dom: set<string>)
    ensures StableSort.TotalPreorderOn(StringCompare, dom)
  {
    forall a, b | a in dom && b in dom ensures StringCompare(a, b) <= 0 || StringCompare(b, a) <= 0 {
      if Less(a, b) { LessAsymmetric(a, b); }
    }
    forall a, b, c | a in dom && b in dom && c in dom && StringCompare(a, b) <= 0 && StringCompare(b, c) <= 0
      ensures StringCompare(a, c) <= 0
    {
      LessTotal(a, b);
      LessTotal(b, c);
      if Less(c, a) {
        if a == b { } else if b == c { } else {
          if Less(b, a) { LessAsymmetric(a, b); }
          if Less(c, b) { LessAsymmetric(b, c); }
          LessTransitive(a, b, c);
          LessAsymmetric(a, c);
        }
      }
    }
  }

  /** The x axis: every category exactly once, in strictly ascending order. */
  lemma SortedCategoriesAscending(cats: seq<string>)
    requires Distinct(cats)
    ensures var r := SortedCategories(cats);
      && (forall v :: v in r <==> v in cats)
      && |r| == |cats|
      && (forall i, j :: 0 <= i < j < |r| ==> Less(r[i], r[j]))
  {
    var r := SortedCategories(cats);
    var dom := set v | v in cats;
    StringCompareTotalPreorder(dom);
    StableSort.SortSorted(StringCompare, cats, dom);
    assert multiset(r) == multiset(cats);
    assert |r| == |multiset(r)|;
    forall v ensures v in r <==> v in cats {
      assert v in r <==> v in multiset(r);
      assert v in cats <==> v in multiset(cats);
    }
    PermutationDistinct(cats, r);
    forall i, j | 0 <= i < j < |r| ensures Less(r[i], r[j]) {
      assert StringCompare(r[i], r[j]) <= 0;
      LessTotal(r[i], r[j]);
    }
  }

  // ---------------------------------------------------------------- SortEngine

  /** The records of the y group `y` (lodash groupBy keeps record order within a group). */
  function GroupOf(rs: seq<EffectRecord>, y: string): (g: seq<EffectRecord>)
    ensures forall e :: e in g <==> e in rs && e.y == y
    ensures Subsequence(g, rs)
  {
    if rs == [] then []
    else
      assert forall e :: e in rs <==> e == rs[0] || e in rs[1..];
      var rest := GroupOf(rs[1..], y);
      if rs[0].y == y then
        assert ([rs[0]] + rest)[1..] == rest;
        [rs[0]] + rest
      else
        assert rest != [] ==> rest[0] in rest;
        rest
  }

  /** Every record of group `y` occurs in it as often as in the input: with the `Subsequence`
      clause, the group is the input's records at `y` in input order. */
  lemma {:induction false} GroupOfCounts(rs: seq<EffectRecord>, y: string)
    ensures forall e :: multiset(GroupOf(rs, y))[e] == if e.y == y then multiset(rs)[e] else 0
    decreases |rs|
  {
    if rs != [] {
      GroupOfCounts(rs[1..], y);
      assert rs == [rs[0]] + rs[1..];
    }
  }

  /** Array.prototype.find: the first record of `g` at x category `x`. */
  function FindX(g: seq<EffectRecord>, x: string): (o: Option<EffectRecord>)
    ensures o.Some? ==> o.value in g && o.value.x == x
    ensures o.Some? ==> exists k :: 0 <= k < |g| && g[k] == o.value && forall j :: 0 <= j < k ==> g[j].x != x
    ensures o.None? ==> forall e :: e in g ==> e.x != x
  {
    if g == [] then None
    else if g[0].x == x then Some(g[0])
    else
      var o := FindX(g[1..], x);
      assert o.Some? ==> exists k :: 0 <= k < |g| && g[k] == o.value && forall j :: 0 <= j < k ==> g[j].x != x by {
        if o.Some? {
          var k :| 0 <= k < |g[1..]| && g[1..][k] == o.value && forall j :: 0 <= j < k ==> g[1..][j].x != x;
          assert g[k + 1] == o.value && forall j :: 0 <= j < k + 1 ==> g[j].x != x;
        }
      }
      o
  }

  /** The pivot column: `sortColumn || xCategories[0]`, the first-seen x category when unset. */
  function PivotColumn(sortColumn: string, xCategories: seq<string>): string
    requires xCategories != []
  {
    if sortColumn != "" then sortColumn else xCategories[0]
  }

  /** The z value of group `y`'s record at the pivot column, if it has one. */
  function PivotValue(rs: seq<EffectRecord>, pivot: string, y: string): Option<real> {
    match FindX(GroupOf(rs, y), pivot)
    case Some(e) => Some(e.z)
    case None => None
  }

  /** The y comparator: the difference of the two pivot values, or 0 when either group lacks one. */
  function PivotOrder(rs: seq<EffectRecord>, pivot: string, a: string, b: string): int {
    match (PivotValue(rs, pivot, a), PivotValue(rs, pivot, b))
    case (Some(za), Some(zb)) => if za < zb then -1 else if za > zb then 1 else 0
    case _ => 0
  }

  function PivotCompare(rs: seq<EffectRecord>, pivot: string): (string, string) -> int {
    (a: string, b: string) => PivotOrder(rs, pivot, a, b)
  }

  lemma PivotCompareTotalPreorder(rs: seq<EffectRecord>, pivot: string, dom: set<string>)
    requires forall y :: y in dom ==> PivotValue(rs, pivot, y).Some?
    ensures StableSort.TotalPreorderOn(PivotCompare(rs, pivot), dom)
  {
    var cmp := PivotCompare(rs, pivot);
    forall a, b | a in dom && b in dom ensures cmp(a, b) <= 0 || cmp(b, a) <= 0 {
      assert cmp(a, b) == PivotOrder(rs, pivot, a, b);
    }
    forall a, b, c | a in dom && b in dom && c in dom && cmp(a, b) <= 0 && cmp(b, c) <= 0
      ensures cmp(a, c) <= 0
    {
      PivotOrderMeaning(rs, pivot, a, b);
      PivotOrderMeaning(rs, pivot, b, c);
      PivotOrderOfValues(rs, pivot, a, c);
    }
  }

  /** `yCategoriesSorted`: the group keys, in first-seen order, sorted by the pivot comparator. */
  function YOrder(rs: seq<EffectRecord>, pivot: string): seq<string> {
    StableSort.Sort(PivotCompare(rs, pivot), Uniq(YValues(rs)))
  }

  /** The y axis is a permutation of the distinct y keys: none dropped, none repeated. */
  lemma YOrderPermutation(rs: seq<EffectRecord>, pivot: string)
    ensures var ys := YOrder(rs, pivot);
      && multiset(ys) == multiset(Uniq(YValues(rs)))
      && Distinct(ys)
      && (forall y :: y in ys <==> exists e :: e in rs && e.y == y)
  {
    var ys := YOrder(rs, pivot);
    var keys := Uniq(YValues(rs));
    PermutationDistinct(keys, ys);
    forall y ensures y in ys <==> exists e :: e in rs && e.y == y {
      assert y in ys <==> y in multiset(ys);
      assert y in keys <==> y in multiset(keys);
      if y in keys {
        var k :| 0 <= k < |rs| && YValues(rs)[k] == y;
        assert rs[k] in rs;
      }
      if e :| e in rs && e.y == y {
        var k :| 0 <= k < |rs| && rs[k] == e;
        assert YValues(rs)[k] == y;
      }
    }
  }

  /** Every key of `ys` has a pivot value, and those values never decrease along `ys`. */
  predicate AscendingByPivot(rs: seq<EffectRecord>, pivot: string, ys: seq<string>) {
    forall i, j :: 0 <= i < j < |ys| ==>
      PivotValue(rs, pivot, ys[i]).Some? && PivotValue(rs, pivot, ys[j]).Some?
      && PivotValue(rs, pivot, ys[i]).value <= PivotValue(rs, pivot, ys[j]).value
  }

  /** When every y group has a record at the pivot column, the y axis is in
      non-decreasing order of those records' z values. */
  lemma YOrderAscending(rs: seq<EffectRecord>, pivot: string)
    requires forall k :: 0 <= k < |rs| ==> PivotValue(rs, pivot, rs[k].y).Some?
    ensures AscendingByPivot(rs, pivot, YOrder(rs, pivot))
  {
    var dom := KeysWithPivot(rs, pivot);
    SortedByPivot(rs, pivot, Uniq(YValues(rs)), dom, YOrder(rs, pivot));
  }

  /** The y keys, all of which have a pivot record under the hypothesis of YOrderAscending. */
  lemma KeysWithPivot(rs: seq<EffectRecord>, pivot: string) returns (dom: set<string>)
    requires forall k :: 0 <= k < |rs| ==> PivotValue(rs, pivot, rs[k].y).Some?
    ensures forall y :: y in Uniq(YValues(rs)) ==> y in dom
    ensures forall y :: y in dom ==> PivotValue(rs, pivot, y).Some?
  {
    dom := set k | 0 <= k < |rs| :: rs[k].y;
    forall y | y in Uniq(YValues(rs)) ensures y in dom {
      assert y in YValues(rs);
      var k :| 0 <= k < |rs| && YValues(rs)[k] == y;
      assert rs[k].y == y;
    }
  }

  lemma SortedByPivot(rs: seq<EffectRecord>, pivot: string, keys: seq<string>, dom: set<string>, ys: seq<string>)
    requires forall y :: y in dom ==> PivotValue(rs, pivot, y).Some?
    requires forall y :: y in keys ==> y in dom
    requires ys == StableSort.Sort(PivotCompare(rs, pivot), keys)
    ensures AscendingByPivot(rs, pivot, ys)
  {
    var cmp := PivotCompare(rs, pivot);
    PivotCompareTotalPreorder(rs, pivot, dom);
    StableSort.SortSorted(cmp, keys, dom);
    SortedInDom(keys, ys, dom);
    forall i, j | 0 <= i < j < |ys|
      ensures PivotValue(rs, pivot, ys[i]).Some? && PivotValue(rs, pivot, ys[j]).Some?
        && PivotValue(rs, pivot, ys[i]).value <= PivotValue(rs, pivot, ys[j]).value
    {
      assert cmp(ys[i], ys[j]) <= 0;
      PivotOrderMeaning(rs, pivot, ys[i], ys[j]);
    }
  }

  lemma SortedInDom(keys: seq<string>, ys: seq<string>, dom: set<string>)
    requires multiset(ys) == multiset(keys)
    requires forall y :: y in keys ==> y in dom
    ensures forall i :: 0 <= i < |ys| ==> ys[i] in dom
  {
    forall i | 0 <= i < |ys| ensures ys[i] in dom {
      assert ys[i] in multiset(ys);
      assert ys[i] in multiset(keys);
    }
  }

  lemma PivotOrderMeaning(rs: seq<EffectRecord>, pivot: string, a: string, b: string)
    requires PivotValue(rs, pivot, a).Some? && PivotValue(rs, pivot, b).Some?
    requires PivotCompare(rs, pivot)(a, b) <= 0
    ensures PivotValue(rs, pivot, a).value <= PivotValue(rs, pivot, b).value
  {
    assert PivotOrder(rs, pivot, a, b) <= 0;
  }

  lemma PivotOrderOfValues(rs: seq<EffectRecord>, pivot: string, a: string, b: string)
    requires PivotValue(rs, pivot, a).Some? && PivotValue(rs, pivot, b).Some?
    requires PivotValue(rs, pivot, a).value <= PivotValue(rs, pivot, b).value
    ensures PivotCompare(rs, pivot)(a, b) <= 0
  {
    assert PivotOrder(rs, pivot, a, b) <= 0;
  }

  /** The sort is stable: when every y group has a record at the pivot column, the groups
      whose pivot z ties with that of y keep their first-seen order. */
  lemma YOrderTies(rs: seq<EffectRecord>, pivot: string, y: string)
    requires forall k :: 0 <= k < |rs| ==> PivotValue(rs, pivot, rs[k].y).Some?
    requires PivotValue(rs, pivot, y).Some?
    ensures var cmp := PivotCompare(rs, pivot);
      StableSort.TiedWith(cmp, y, YOrder(rs, pivot)) == StableSort.TiedWith(cmp, y, Uniq(YValues(rs)))
  {
    var dom := KeysWithPivot(rs, pivot);
    PivotCompareTotalPreorder(rs, pivot, dom + {y});
    StableSort.SortStable(PivotCompare(rs, pivot), Uniq(YValues(rs)), y, dom + {y});
  }

  /** Groups that lack the pivot compare as equal to everything, so when no group has a
      pivot record the y axis keeps the first-seen order. */
  lemma YOrderWithoutPivot(rs: seq<EffectRecord>, pivot: string)
    requires forall e :: e in rs ==> e.x != pivot
    ensures YOrder(rs, pivot) == Uniq(YValues(rs))
  {
    var keys := Uniq(YValues(rs));
    forall i, j | 0 <= i < j < |keys| ensures PivotCompare(rs, pivot)(keys[i], keys[j]) <= 0 {
      assert FindX(GroupOf(rs, keys[i]), pivot).None?;
    }
    StableSort.SortKeepsOrdered(PivotCompare(rs, pivot), keys);
  }

  // ---------------------------------------------------------------- MatrixBuilder

  /** Array.prototype.find over all filtered records for the pair (x, y): the index of
      the first match, or |rs| when there is none. */
  function FirstMatch(rs: seq<EffectRecord>, x: string, y: string): (k: nat)
    ensures k <= |rs|
    ensures forall j :: 0 <= j < k ==> !(rs[j].x == x && rs[j].y == y)
    ensures k < |rs| ==> rs[k].x == x && rs[k].y == y
  {
    if rs == [] then 0
    else if rs[0].x == x && rs[0].y == y then 0
    else 1 + FirstMatch(rs[1..], x, y)
  }

  function ZCell(rs: seq<EffectRecord>, x: string, y: string): Option<real> {
    var k := FirstMatch(rs, x, y);
    if k < |rs| then Some(rs[k].z) else None
  }

  function MetaCell(rs: seq<EffectRecord>, x: string, y: string): Cell {
    var k := FirstMatch(rs, x, y);
    if k < |rs| then Found(rs[k]) else Missing
  }

  function ZMatrix(rs: seq<EffectRecord>, xs: seq<string>, ys: seq<string>): seq<seq<Option<real>>> {
    seq(|ys|, i requires 0 <= i < |ys| => seq(|xs|, j requires 0 <= j < |xs| => ZCell(rs, xs[j], ys[i])))
  }

  function MetaMatrix(rs: seq<EffectRecord>, xs: seq<string>, ys: seq<string>): seq<seq<Cell>> {
    seq(|ys|, i requires 0 <= i < |ys| => seq(|xs|, j requires 0 <= j < |xs| => MetaCell(rs, xs[j], ys[i])))
  }

  // ---------------------------------------------------------------- AnnotationBuilder

  function Annotations(rs: seq<EffectRecord>, show: bool): seq<Annotation> {
    if show then
      seq(|rs|, i requires 0 <= i < |rs| => Annotation(Str(rs[i].x), Str(rs[i].y), Num(rs[i].z), "x", "y"))
    else []
  }

  // ---------------------------------------------------------------- PlotAssembler

  /** getHeatmapPlot(results, heatmapOptions, {name}). */
  function GetHeatmapPlot(results: Results, options: HeatmapOptions, name: string): PlainPlot {
    if !HasHeatmapData(results) then DefaultPlot
    else
      var effects := if results.effects.Some? then results.effects.value else [];
      var rs := FilterRecords(effects, options.pValueMin, options.pValueMax);
      if rs == [] then DefaultPlot
      else
        var xCategories := Uniq(XValues(rs));
        var xs := SortedCategories(xCategories);
        var ys := YOrder(rs, PivotColumn(options.sortColumn, xCategories));
        Plot(xs, ys, ZMatrix(rs, xs, ys), MetaMatrix(rs, xs, ys), name, Annotations(rs, options.showAnnotations))
  }

  /** The records the plot is built from. */
  function Filtered(results: Results, options: HeatmapOptions): seq<EffectRecord> {
    FilterRecords(if results.effects.Some? then results.effects.value else [], options.pValueMin, options.pValueMax)
  }

  /** The default plot is returned exactly when there is no heatmap data or no record survives the filter. */
  lemma DefaultPlotWhen(results: Results, options: HeatmapOptions, name: string)
    ensures GetHeatmapPlot(results, options, name).DefaultPlot?
        <==> !HasHeatmapData(results) || Filtered(results, options) == []
  {
  }

  lemma XValuesMembers(rs: seq<EffectRecord>)
    ensures forall v :: v in XValues(rs) <==> exists e :: e in rs && e.x == v
  {
    forall v ensures v in XValues(rs) <==> exists e :: e in rs && e.x == v {
      if v in XValues(rs) {
        var k :| 0 <= k < |rs| && XValues(rs)[k] == v;
        assert rs[k] in rs;
      }
      if e :| e in rs && e.x == v {
        var k :| 0 <= k < |rs| && rs[k] == e;
        assert XValues(rs)[k] == v;
      }
    }
  }

  /** The x axis: the distinct x keys of the filtered records, each once, in ascending
      string order. */
  lemma PlotXAxis(results: Results, options: HeatmapOptions, name: string)
    requires GetHeatmapPlot(results, options, name).Plot?
    ensures var p := GetHeatmapPlot(results, options, name);
      var rs := Filtered(results, options);
      && (forall v :: v in p.x <==> exists e :: e in rs && e.x == v)
      && Distinct(p.x)
      && (forall i, j :: 0 <= i < j < |p.x| ==> Less(p.x[i], p.x[j]))
  {
    var rs := Filtered(results, options);
    var xCategories := Uniq(XValues(rs));
    var xs := SortedCategories(xCategories);
    assert GetHeatmapPlot(results, options, name).x == xs;
    SortedCategoriesAscending(xCategories);
    XValuesMembers(rs);
    forall i, j | 0 <= i < j < |xs| ensures xs[i] != xs[j] {
      LessIrreflexive(xs[i]);
    }
  }

  /** The y axis: the distinct y keys of the filtered records, each once, ordered by the pivot
      column (the sort column, or the first-seen x key when none is set). */
  lemma PlotYAxis(results: Results, options: HeatmapOptions, name: string)
    requires GetHeatmapPlot(results, options, name).Plot?
    ensures var p := GetHeatmapPlot(results, options, name);
      var rs := Filtered(results, options);
      && (forall v :: v in p.y <==> exists e :: e in rs && e.y == v)
      && Distinct(p.y)
      && p.y == YOrder(rs, if options.sortColumn != "" then options.sortColumn else rs[0].x)
  {
    var rs := Filtered(results, options);
    var xCategories := Uniq(XValues(rs));
    var pivot := PivotColumn(options.sortColumn, xCategories);
    assert GetHeatmapPlot(results, options, name).y == YOrder(rs, pivot);
    YOrderPermutation(rs, pivot);
  }

  /** One cell: null (and the sentinel) exactly when no record has the pair; otherwise the z
      value and the record of the first record with the pair. */
  lemma CellContents(rs: seq<EffectRecord>, x: string, y: string)
    ensures ZCell(rs, x, y).None? <==> forall e :: e in rs ==> !(e.x == x && e.y == y)
    ensures MetaCell(rs, x, y).Missing? <==> ZCell(rs, x, y).None?
    ensures ZCell(rs, x, y).Some? ==>
      exists k :: 0 <= k < |rs| && rs[k] == MetaCell(rs, x, y).record && rs[k].x == x && rs[k].y == y
        && rs[k].z == ZCell(rs, x, y).value
        && forall m :: 0 <= m < k ==> !(rs[m].x == x && rs[m].y == y)
  {
    var k := FirstMatch(rs, x, y);
    if k < |rs| {
      assert rs[k] in rs;
    } else {
      forall e | e in rs ensures !(e.x == x && e.y == y) {
        var m :| 0 <= m < |rs| && rs[m] == e;
      }
    }
  }

  /** Both matrices have one row per y category and one entry per x category; a cell holds the
      z value (and record) of the FIRST filtered record with that pair, or null (and the NaN sentinel). */
  lemma PlotMatrices(results: Results, options: HeatmapOptions, name: string)
    requires GetHeatmapPlot(results, options, name).Plot?
    ensures var p := GetHeatmapPlot(results, options, name);
      && |p.z| == |p.y| && |p.customdata| == |p.y|
      && (forall i :: 0 <= i < |p.y| ==> |p.z[i]| == |p.x| && |p.customdata[i]| == |p.x|)
      && (forall i, j :: 0 <= i < |p.y| && 0 <= j < |p.x| ==>
            p.z[i][j] == ZCell(Filtered(results, options), p.x[j], p.y[i])
            && p.customdata[i][j] == MetaCell(Filtered(results, options), p.x[j], p.y[i]))
  {
  }

  /** Completeness: when no (x, y) pair repeats, every filtered record sits in exactly
      the cell of its categories and that cell holds its z value. */
  lemma PlotComplete(results: Results, options: HeatmapOptions, name: string, e: EffectRecord)
    requires GetHeatmapPlot(results, options, name).Plot?
    requires var rs := Filtered(results, options);
      forall a, b :: 0 <= a < b < |rs| ==> !(rs[a].x == rs[b].x && rs[a].y == rs[b].y)
    requires e in Filtered(results, options)
    ensures var p := GetHeatmapPlot(results, options, name);
      exists i, j :: 0 <= i < |p.y| && 0 <= j < |p.x| && p.y[i] == e.y && p.x[j] == e.x
        && p.z[i][j] == Some(e.z) && p.customdata[i][j] == Found(e)
  {
    var p := GetHeatmapPlot(results, options, name);
    var rs := Filtered(results, options);
    PlotXAxis(results, options, name);
    PlotYAxis(results, options, name);
    PlotMatrices(results, options, name);
    UniqueCell(rs, e);
    assert e.x in p.x && e.y in p.y;
    var i :| 0 <= i < |p.y| && p.y[i] == e.y;
    var j :| 0 <= j < |p.x| && p.x[j] == e.x;
    assert p.z[i][j] == ZCell(rs, e.x, e.y);
  }

  /** Among records with no repeated (x, y) pair, a record's own categories find it. */
  lemma UniqueCell(rs: seq<EffectRecord>, e: EffectRecord)
    requires forall a, b :: 0 <= a < b < |rs| ==> !(rs[a].x == rs[b].x && rs[a].y == rs[b].y)
    requires e in rs
    ensures ZCell(rs, e.x, e.y) == Some(e.z) && MetaCell(rs, e.x, e.y) == Found(e)
  {
    var n :| 0 <= n < |rs| && rs[n] == e;
    var k := FirstMatch(rs, e.x, e.y);
    assert k <= n;
    assert k == n;
  }

  /** With annotations off the list is empty; with them on there is one per filtered record,
      at its categories, showing its z value, against the x and y axes. */
  lemma PlotAnnotations(results: Results, options: HeatmapOptions, name: string)
    requires GetHeatmapPlot(results, options, name).Plot?
    ensures var p := GetHeatmapPlot(results, options, name);
      var rs := Filtered(results, options);
      && (!options.showAnnotations ==> p.annotations == [])
      && (options.showAnnotations ==>
            && |p.annotations| == |rs|
            && forall k :: 0 <= k < |rs| ==>
                 p.annotations[k] == Annotation(Str(rs[k].x), Str(rs[k].y), Num(rs[k].z), "x", "y"))
  {
  }
}
