/** The heatmap and result-table logic of the legacy client, comets/javascript/appViews.js:
    the row comparators of `appComets.sorts`, the pivot of correlation records into one row per
    metabolite, the clustered and unclustered value matrices, the clamping of the plot size
    and the p-value/correlation range filter of the results table. */
module LegacyViews {
  import opened Base
  import opened Strings
  import opened Collections
  import opened StableSort

  /** One correlation record of `excorrdata`. */
  datatype CorrRecord = CorrRecord(metabolite: string, exposure: string, corr: real)

  /** One pivoted row: the metabolite name and its correlation per exposure. */
  datatype Biochem = Biochem(name: string, corr: map<string, real>)

  // ---------------------------------------------------------------- comparators

  /** "Metabolite Name (A-Z)": 1, -1 or 0 as the first name is after, before or equal to the second. */
  function NameAsc(a: Biochem, b: Biochem): int {
    if Less(b.name, a.name) then 1 else if Less(a.name, b.name) then -1 else 0
  }

  /** "Metabolite Name (Z-A)". */
  function NameDesc(a: Biochem, b: Biochem): int {
    if Less(a.name, b.name) then 1 else if Less(b.name, a.name) then -1 else 0
  }

  function Sign(x: real): int {
    if x > 0.0 then 1 else if x < 0.0 then -1 else 0
  }

  /** `sorts.default(p)`: `obj2[p] - obj1[p]`. A missing value makes the difference NaN, which
      the sort reads as 0; only the sign of the difference matters to the sort. */
  function DescendingBy(p: string): (Biochem, Biochem) -> int {
    (a: Biochem, b: Biochem) => if p in a.corr && p in b.corr then Sign(b.corr[p] - a.corr[p]) else 0
  }

  /** `appComets.sorts[sortRow] || appComets.sorts.default(sortRow)`. For "default" the factory
      itself is the comparator: it returns a function, which the sort reads as NaN, so 0. */
  function ComparatorFor(sortRow: string): (Biochem, Biochem) -> int {
    if sortRow == "Metabolite Name (A-Z)" then NameAsc
    else if sortRow == "Metabolite Name (Z-A)" then NameDesc
    else if sortRow == "default" then (a: Biochem, b: Biochem) => 0
    else DescendingBy(sortRow)
  }

  /** Z-A is A-Z with the arguments swapped, and gives the opposite sign; A-Z returns 0 exactly
      for equal names. */
  lemma NameComparators(a: Biochem, b: Biochem)
    ensures NameDesc(a, b) == NameAsc(b, a) == -NameAsc(a, b)
    ensures NameAsc(a, b) == 0 <==> a.name == b.name
  {
    if Less(a.name, b.name) {
      LessAsymmetric(a.name, b.name);
    }
    if a.name == b.name {
      LessIrreflexive(a.name);
    }
    LessTotal(a.name, b.name);
  }

  /** A-Z orders any rows consistently. */
  lemma NameAscTotalPreorder(dom: set<Biochem>)
    ensures TotalPreorderOn(NameAsc, dom)
  {
    forall a, b | a in dom && b in dom ensures NameAsc(a, b) <= 0 || NameAsc(b, a) <= 0 {
      NameComparators(a, b);
    }
    forall a, b, c | a in dom && b in dom && c in dom && NameAsc(a, b) <= 0 && NameAsc(b, c) <= 0
      ensures NameAsc(a, c) <= 0
    {
      NameComparators(a, b);
      NameComparators(b, c);
      if Less(c.name, a.name) {
        LessTotal(a.name, b.name);
        LessTotal(b.name, c.name);
        if Less(a.name, b.name) {
          if Less(b.name, c.name) {
            LessTransitive(a.name, b.name, c.name);
            LessAsymmetric(a.name, c.name);
          } else {
            LessAsymmetric(a.name, b.name);
          }
        } else {
          LessAsymmetric(c.name, a.name);
        }
      }
    }
  }

  /** The descending comparator orders consistently the rows that all have a value for `p`. */
  lemma DescendingByTotalPreorder(p: string, dom: set<Biochem>)
    requires forall r :: r in dom ==> p in r.corr
    ensures TotalPreorderOn(DescendingBy(p), dom)
  {
  }

  // ---------------------------------------------------------------- pivot

  /** `correlationData` with its keys in insertion order. */
  datatype Pivot = Pivot(order: seq<string>, data: map<string, map<string, real>>)

  /** The pivot of `excorrdata`: a metabolite's row is created at its first record, and each
      record sets the row's entry for its exposure. */
  function PivotOf(rs: seq<CorrRecord>): (p: Pivot)
    ensures forall n :: n in p.order <==> n in p.data
  {
    if rs == [] then Pivot([], map[])
    else PivotStep(PivotOf(rs[..|rs| - 1]), rs[|rs| - 1])
  }

  /** One record folded into the pivot. */
  function PivotStep(p: Pivot, r: CorrRecord): Pivot {
    var row := if r.metabolite in p.data then p.data[r.metabolite] else map[];
    Pivot(if r.metabolite in p.data then p.order else p.order + [r.metabolite],
          p.data[r.metabolite := row[r.exposure := r.corr]])
  }

  /** The `_.each` loop building `correlationData`. */
  method PivotRecords(rs: seq<CorrRecord>) returns (p: Pivot)
    ensures p == PivotOf(rs)
  {
    var order: seq<string> := [];
    var data: map<string, map<string, real>> := map[];
    var i := 0;
    while i < |rs|
      invariant 0 <= i <= |rs|
      invariant Pivot(order, data) == PivotOf(rs[..i])
    {
      PivotOfStep(rs, i);
      order, data := AddRecord(order, data, rs[i]);
      i := i + 1;
    }
    assert rs[..|rs|] == rs;
    p := Pivot(order, data);
  }

  /** The `_.each` callback: create the metabolite's row if it is missing, then set the
      record's exposure in it. */
  method AddRecord(order: seq<string>, data: map<string, map<string, real>>, r: CorrRecord)
    returns (order': seq<string>, data': map<string, map<string, real>>)
    ensures Pivot(order', data') == PivotStep(Pivot(order, data), r)
  {
    order', data' := order, data;
    if r.metabolite !in data' {
      order' := order' + [r.metabolite];
      data' := data'[r.metabolite := map[]];
    }
    data' := data'[r.metabolite := data'[r.metabolite][r.exposure := r.corr]];
    PivotStepWrites(Pivot(order, data), r, Pivot(order', data'));
  }

  /** One more record: PivotOf of the longer prefix is the pivot step applied to the shorter. */
  lemma PivotOfStep(rs: seq<CorrRecord>, i: nat)
    requires i < |rs|
    ensures PivotOf(rs[..i + 1]) == PivotStep(PivotOf(rs[..i]), rs[i])
  {
    assert rs[..i + 1][..i] == rs[..i];
  }

  /** The loop's two writes (create the row if missing, then set the exposure) make one pivot step. */
  lemma PivotStepWrites(p: Pivot, r: CorrRecord, q: Pivot)
    requires var d := if r.metabolite in p.data then p.data else p.data[r.metabolite := map[]];
      q.order == (if r.metabolite in p.data then p.order else p.order + [r.metabolite]) &&
      q.data == d[r.metabolite := d[r.metabolite][r.exposure := r.corr]]
    ensures q == PivotStep(p, r)
  {
    var row := if r.metabolite in p.data then p.data[r.metabolite] else map[];
    assert q.data == p.data[r.metabolite := row[r.exposure := r.corr]];
  }

  function Names(rs: seq<CorrRecord>): (r: seq<string>)
    ensures |r| == |rs| && forall k :: 0 <= k < |rs| ==> r[k] == rs[k].metabolite
  {
    seq(|rs|, k requires 0 <= k < |rs| => rs[k].metabolite)
  }

  /** The correlation of the last record for a metabolite and exposure. */
  function LastCorr(rs: seq<CorrRecord>, n: string, e: string): Option<real> {
    if rs == [] then None
    else if rs[|rs| - 1].metabolite == n && rs[|rs| - 1].exposure == e then Some(rs[|rs| - 1].corr)
    else LastCorr(rs[..|rs| - 1], n, e)
  }

  /** The rows are the distinct metabolites in first-seen order. */
  lemma {:induction false} PivotOrder(rs: seq<CorrRecord>)
    ensures PivotOf(rs).order == Uniq(Names(rs))
  {
    if rs != [] {
      var init := rs[..|rs| - 1];
      PivotOrder(init);
      assert Names(rs)[..|rs| - 1] == Names(init);
    }
  }

  /** A metabolite has a row iff some record names it. */
  lemma PivotRows(rs: seq<CorrRecord>, n: string)
    ensures n in PivotOf(rs).data <==> exists k :: 0 <= k < |rs| && rs[k].metabolite == n
  {
    PivotOrder(rs);
    if n in Names(rs) {
      var k :| 0 <= k < |rs| && Names(rs)[k] == n;
    }
    if k :| 0 <= k < |rs| && rs[k].metabolite == n {
      assert Names(rs)[k] == n;
    }
  }

  /** A row holds an entry for an exposure iff a record names both, and the entry is the
      correlation of the last such record: later records overwrite earlier ones. */
  lemma {:induction false} PivotCell(rs: seq<CorrRecord>, n: string, e: string)
    requires n in PivotOf(rs).data
    ensures e in PivotOf(rs).data[n] <==> LastCorr(rs, n, e).Some?
    ensures e in PivotOf(rs).data[n] ==> PivotOf(rs).data[n][e] == LastCorr(rs, n, e).value
  {
    var init := rs[..|rs| - 1];
    var r := rs[|rs| - 1];
    if n in PivotOf(init).data {
      PivotCell(init, n, e);
    } else if n == r.metabolite {
      PivotRows(init, n);
      LastCorrAbsent(init, n, e);
    }
  }

  lemma {:induction false} LastCorrAbsent(rs: seq<CorrRecord>, n: string, e: string)
    requires forall k :: 0 <= k < |rs| ==> rs[k].metabolite != n
    ensures LastCorr(rs, n, e).None?
  {
    if rs != [] {
      LastCorrAbsent(rs[..|rs| - 1], n, e);
    }
  }

  /** `heatmapData`: the rows of `correlationData` in key order. */
  function Rows(p: Pivot): (r: seq<Biochem>)
    requires forall n :: n in p.order ==> n in p.data
    ensures |r| == |p.order|
    ensures forall i :: 0 <= i < |r| ==> r[i] == Biochem(p.order[i], p.data[p.order[i]])
  {
    seq(|p.order|, i requires 0 <= i < |p.order| => Biochem(p.order[i], p.data[p.order[i]]))
  }

  // ---------------------------------------------------------------- matrices

  /** `row[exposure]`: undefined when the metabolite has no record for it. */
  function Cell(row: map<string, real>, e: string): Option<real> {
    if e in row then Some(row[e]) else None
  }

  /** The unclustered heatmap: the rows sorted by the chosen comparator, their names, and for
      each row its value for each exposure. */
  function Unclustered(p: Pivot, sortRow: string, exposures: seq<string>): (r: (seq<string>, seq<seq<Option<real>>>))
    requires forall n :: n in p.order ==> n in p.data
    ensures var sorted := Sort(ComparatorFor(sortRow), Rows(p));
      && |r.0| == |sorted| && |r.1| == |sorted|
      && forall i :: 0 <= i < |sorted| ==>
           && r.0[i] == sorted[i].name
           && |r.1[i]| == |exposures|
           && forall j :: 0 <= j < |exposures| ==> r.1[i][j] == Cell(sorted[i].corr, exposures[j])
  {
    var sorted := Sort(ComparatorFor(sortRow), Rows(p));
    (seq(|sorted|, i requires 0 <= i < |sorted| => sorted[i].name),
     seq(|sorted|, i requires 0 <= i < |sorted| =>
       seq(|exposures|, j requires 0 <= j < |exposures| => Cell(sorted[i].corr, exposures[j]))))
  }

  /** A sorted row comes from the unsorted rows. */
  lemma SortedFrom(rows: seq<Biochem>, sorted: seq<Biochem>, i: nat) returns (i': nat)
    requires multiset(rows) == multiset(sorted) && i < |sorted|
    ensures i' < |rows| && rows[i'] == sorted[i]
  {
    assert sorted[i] in multiset(rows);
    i' :| 0 <= i' < |rows| && rows[i'] == sorted[i];
  }

  /** Every metabolite of the records is named exactly once, whatever the comparator. */
  lemma UnclusteredNames(rs: seq<CorrRecord>, sortRow: string, exposures: seq<string>)
    ensures var names := Unclustered(PivotOf(rs), sortRow, exposures).0;
      Distinct(names) && forall n :: n in names <==> n in Names(rs)
  {
    var p := PivotOf(rs);
    PivotOrder(rs);
    var rows := Rows(p);
    var sorted := Sort(ComparatorFor(sortRow), rows);
    var names := Unclustered(p, sortRow, exposures).0;
    forall i, j | 0 <= i < j < |names| ensures names[i] != names[j] {
      var i' := SortedFrom(rows, sorted, i);
      var j' := SortedFrom(rows, sorted, j);
      if i' == j' {
        PermutationDistinctAt(rows, sorted, i, j);
      }
      assert names[i] == p.order[i'] && names[j] == p.order[j'];
    }
    forall n ensures n in names <==> n in p.order {
      if n in names {
        var i :| 0 <= i < |names| && names[i] == n;
        var i' := SortedFrom(rows, sorted, i);
        assert p.order[i'] == n;
      }
      if n in p.order {
        var i' :| 0 <= i' < |p.order| && p.order[i'] == n;
        var i := SortedFrom(sorted, rows, i');
        assert names[i] == n;
      }
    }
  }

  /** Two positions of a permutation of distinct rows hold different rows. */
  lemma PermutationDistinctAt(rows: seq<Biochem>, sorted: seq<Biochem>, i: nat, j: nat)
    requires multiset(rows) == multiset(sorted) && Distinct(rows)
    requires i < j < |sorted|
    ensures sorted[i] != sorted[j]
  {
    PermutationDistinct(rows, sorted);
  }

  /** With "Metabolite Name (A-Z)" the names come out strictly ascending. */
  lemma UnclusteredByName(rs: seq<CorrRecord>, exposures: seq<string>)
    ensures var names := Unclustered(PivotOf(rs), "Metabolite Name (A-Z)", exposures).0;
      forall i, j :: 0 <= i < j < |names| ==> Less(names[i], names[j])
  {
    UnclusteredNames(rs, "Metabolite Name (A-Z)", exposures);
    NamesAscending(PivotOf(rs), exposures);
  }

  /** Distinct names sorted A-Z are strictly ascending. */
  lemma NamesAscending(p: Pivot, exposures: seq<string>)
    requires forall n :: n in p.order ==> n in p.data
    requires Distinct(Unclustered(p, "Metabolite Name (A-Z)", exposures).0)
    ensures var names := Unclustered(p, "Metabolite Name (A-Z)", exposures).0;
      forall i, j :: 0 <= i < j < |names| ==> Less(names[i], names[j])
  {
    var rows := Rows(p);
    var sorted := Sort(NameAsc, rows);
    NameAscTotalPreorder(set r | r in rows);
    SortSorted(NameAsc, rows, set r | r in rows);
    var names := Unclustered(p, "Metabolite Name (A-Z)", exposures).0;
    forall i, j | 0 <= i < j < |names| ensures Less(names[i], names[j]) {
      assert NameAsc(sorted[i], sorted[j]) <= 0;
      NameComparators(sorted[i], sorted[j]);
    }
  }

  /** Sorting rows that all have a value for `e` by `DescendingBy(e)` leaves those values
      non-increasing. */
  lemma SortedDescending(rows: seq<Biochem>, e: string, sorted: seq<Biochem>)
    requires forall i :: 0 <= i < |rows| ==> e in rows[i].corr
    requires sorted == Sort(DescendingBy(e), rows)
    ensures forall a :: 0 <= a < |sorted| ==> e in sorted[a].corr
    ensures forall a, b :: 0 <= a < b < |sorted| ==> sorted[a].corr[e] >= sorted[b].corr[e]
  {
    var dom := set r | r in rows;
    var cmp := DescendingBy(e);
    DescendingByTotalPreorder(e, dom);
    SortSorted(cmp, rows, dom);
    forall a | 0 <= a < |sorted| ensures e in sorted[a].corr {
      var a' := SortedFrom(rows, sorted, a);
    }
    forall a, b | 0 <= a < b < |sorted| ensures sorted[a].corr[e] >= sorted[b].corr[e] {
      assert cmp(sorted[a], sorted[b]) <= 0;
    }
  }

  /** Sorting by an exposure every metabolite has a value for puts the values in
      non-increasing order down that column. */
  lemma UnclusteredByExposure(p: Pivot, sortRow: string, exposures: seq<string>, j: nat)
    requires forall n :: n in p.order ==> n in p.data
    requires sortRow != "Metabolite Name (A-Z)" && sortRow != "Metabolite Name (Z-A)" && sortRow != "default"
    requires forall n :: n in p.order ==> sortRow in p.data[n]
    requires j < |exposures| && exposures[j] == sortRow
    ensures var values := Unclustered(p, sortRow, exposures).1;
      forall a, b :: 0 <= a < b < |values| ==>
        values[a][j].Some? && values[b][j].Some? && values[a][j].value >= values[b][j].value
  {
    var rows := Rows(p);
    assert forall i :: 0 <= i < |rows| ==> sortRow in rows[i].corr;
    assert ComparatorFor(sortRow) == DescendingBy(sortRow);
    var sorted := Sort(DescendingBy(sortRow), rows);
    SortedDescending(rows, sortRow, sorted);
    assert Sort(ComparatorFor(sortRow), Rows(p)) == sorted;
    var values: seq<seq<Option<real>>> := Unclustered(p, sortRow, exposures).1;
    assert |values| == |sorted|;
    forall a, b | 0 <= a < b < |values|
      ensures values[a][j].Some? && values[b][j].Some? && values[a][j].value >= values[b][j].value
    {
      assert values[a][j] == Cell(sorted[a].corr, sortRow);
      assert values[b][j] == Cell(sorted[b].corr, sortRow);
    }
  }

  /** The clustered heatmap: rows and columns in the clustering's order, each value read from
      `correlationData`. A row name missing from the pivot makes the read throw, unless there
      are no columns to read. */
  method Clustered(data: map<string, map<string, real>>, rowNames: seq<string>, cols: seq<string>)
    returns (r: Result<seq<seq<Option<real>>>>)
    ensures r.Err? <==> |cols| > 0 && exists i :: 0 <= i < |rowNames| && rowNames[i] !in data
    ensures r.Ok? ==> |r.value| == |rowNames|
    ensures r.Ok? ==> forall i :: 0 <= i < |rowNames| ==>
      |r.value[i]| == |cols| && forall j :: 0 <= j < |cols| ==> r.value[i][j] == Cell(data[rowNames[i]], cols[j])
  {
    var values: seq<seq<Option<real>>> := [];
    var i := 0;
    while i < |rowNames|
      invariant 0 <= i <= |rowNames|
      invariant |values| == i
      invariant |cols| > 0 ==> forall k :: 0 <= k < i ==> rowNames[k] in data
      invariant forall k :: 0 <= k < i ==>
        |values[k]| == |cols| && forall j :: 0 <= j < |cols| ==> values[k][j] == Cell(data[rowNames[k]], cols[j])
    {
      var row: seq<Option<real>> := [];
      var j := 0;
      while j < |cols|
        invariant 0 <= j <= |cols|
        invariant j > 0 ==> rowNames[i] in data
        invariant |row| == j
        invariant forall m :: 0 <= m < j ==> row[m] == Cell(data[rowNames[i]], cols[m])
      {
        if rowNames[i] !in data {
          return Err(TypeError);
        }
        row := row + [Cell(data[rowNames[i]], cols[j])];
        j := j + 1;
      }
      values := values + [row];
      i := i + 1;
    }
    return Ok(values);
  }

  // ---------------------------------------------------------------- plot size

  /** `Math.min(Math.max(v, 200), 9000)`. */
  function ClampSize(v: real): (r: real)
    ensures 200.0 <= r <= 9000.0
    ensures 200.0 <= v <= 9000.0 ==> r == v
    ensures v < 200.0 ==> r == 200.0
    ensures v > 9000.0 ==> r == 9000.0
  {
    var m := if v > 200.0 then v else 200.0;
    if m < 9000.0 then m else 9000.0
  }

  /** The plot size attributes of the heatmap's model. */
  class PlotSize {
    var plotHeight: real
    var plotWidth: real

    constructor(height: real, width: real)
      ensures plotHeight == height && plotWidth == width
    {
      plotHeight := height;
      plotWidth := width;
    }

    /** The clamping step of `render`: both sizes are clamped, and the model is written only
        when one of them changed. */
    method Clamp() returns (written: bool)
      modifies this
      ensures plotHeight == ClampSize(old(plotHeight)) && plotWidth == ClampSize(old(plotWidth))
      ensures written <==> old(plotHeight) != ClampSize(old(plotHeight)) || old(plotWidth) != ClampSize(old(plotWidth))
    {
      var height := ClampSize(plotHeight);
      var width := ClampSize(plotWidth);
      written := false;
      if height != plotHeight || width != plotWidth {
        plotHeight, plotWidth := height, width;
        written := true;
      }
    }
  }

  /** Clamping twice is clamping once. */
  lemma ClampIdempotent(v: real)
    ensures ClampSize(ClampSize(v)) == ClampSize(v)
  {
  }

  // ---------------------------------------------------------------- range filter

  /** An input box: `""` is null, anything else `parseFloat` of it (None standing for NaN). */
  function Bound(s: string, parse: string -> Option<real>): Option<real> {
    if s == "" then None else parse(s)
  }

  /** A bound counts as set when it is truthy: not null, not NaN and not 0. */
  predicate IsSet(b: Option<real>) {
    b.Some? && b.value != 0.0
  }

  /** `v >= (min || -Infinity) && v <= (max || Infinity)`; NaN fails both comparisons. */
  predicate Within(v: Option<real>, lo: Option<real>, hi: Option<real>) {
    v.Some? && (IsSet(lo) ==> v.value >= lo.value) && (IsSet(hi) ==> v.value <= hi.value)
  }

  /** `parseFloat(data[index])`: a cell beyond the row reads as undefined, so NaN. */
  function CellValue(cells: seq<string>, k: nat, parse: string -> Option<real>): Option<real> {
    if k < |cells| then parse(cells[k]) else None
  }

  /** The filter's verdict on one row. */
  predicate RowPasses(titles: seq<string>, cells: seq<string>, pmin: string, pmax: string, cmin: string, cmax: string,
                      parse: string -> Option<real>) {
    var plo, phi := Bound(pmin, parse), Bound(pmax, parse);
    var clo, chi := Bound(cmin, parse), Bound(cmax, parse);
    !(IsSet(plo) || IsSet(phi) || IsSet(clo) || IsSet(chi))
    || forall k :: 0 <= k < |titles| ==>
         (titles[k] == "pvalue" ==> Within(CellValue(cells, k, parse), plo, phi))
         && (titles[k] == "corr" ==> Within(CellValue(cells, k, parse), clo, chi))
  }

  /** The search function pushed onto `$.fn.dataTable.ext.search`. */
  method RangeFilter(titles: seq<string>, cells: seq<string>, pmin: string, pmax: string, cmin: string, cmax: string,
                     parse: string -> Option<real>) returns (keep: bool)
    ensures keep == RowPasses(titles, cells, pmin, pmax, cmin, cmax, parse)
  {
    var plo, phi := Bound(pmin, parse), Bound(pmax, parse);
    var clo, chi := Bound(cmin, parse), Bound(cmax, parse);
    if IsSet(plo) || IsSet(phi) || IsSet(clo) || IsSet(chi) {
      var returnValue := true;
      var k := 0;
      while k < |titles|
        invariant 0 <= k <= |titles|
        invariant returnValue <==> forall m :: 0 <= m < k ==>
          (titles[m] == "pvalue" ==> Within(CellValue(cells, m, parse), plo, phi))
          && (titles[m] == "corr" ==> Within(CellValue(cells, m, parse), clo, chi))
      {
        if titles[k] == "pvalue" {
          var pvalue := CellValue(cells, k, parse);
          returnValue := if returnValue then Within(pvalue, plo, phi) else false;
        } else if titles[k] == "corr" {
          var corr := CellValue(cells, k, parse);
          returnValue := if returnValue then Within(corr, clo, chi) else false;
        }
        k := k + 1;
      }
      return returnValue;
    }
    return true;
  }

  /** A bound that reads as 0 is ignored: the verdict is the one for an empty box. */
  lemma ZeroBoundIgnored(titles: seq<string>, cells: seq<string>, pmin: string, pmax: string, cmin: string, cmax: string,
                         parse: string -> Option<real>)
    requires parse(cmin) == Some(0.0)
    ensures RowPasses(titles, cells, pmin, pmax, cmin, cmax, parse) == RowPasses(titles, cells, pmin, pmax, "", cmax, parse)
  {
  }

  /** With every box empty or 0, every row passes, unparseable cells included. */
  lemma UnsetBoundsPassAll(titles: seq<string>, cells: seq<string>, pmin: string, pmax: string, cmin: string, cmax: string,
                           parse: string -> Option<real>)
    requires forall s :: s in [pmin, pmax, cmin, cmax] ==> s == "" || parse(s) == Some(0.0)
    ensures RowPasses(titles, cells, pmin, pmax, cmin, cmax, parse)
  {
    assert pmin in [pmin, pmax, cmin, cmax] && pmax in [pmin, pmax, cmin, cmax];
    assert cmin in [pmin, pmax, cmin, cmax] && cmax in [pmin, pmax, cmin, cmax];
  }

  /** A correlation minimum of 0 keeps a row with a negative correlation. */
  lemma ZeroMinimumKeepsNegative(parse: string -> Option<real>)
    requires parse("0") == Some(0.0) && parse("-0.5") == Some(-0.5)
    ensures RowPasses(["corr"], ["-0.5"], "", "", "0", "", parse)
  {
  }

  /** The evidently intended filter: a bound is set whenever its box holds a number, 0 included. */
  predicate IsGiven(b: Option<real>) {
    b.Some?
  }

  predicate WithinGiven(v: Option<real>, lo: Option<real>, hi: Option<real>) {
    v.Some? && (IsGiven(lo) ==> v.value >= lo.value) && (IsGiven(hi) ==> v.value <= hi.value)
  }

  predicate RowPassesIntended(titles: seq<string>, cells: seq<string>, pmin: string, pmax: string, cmin: string, cmax: string,
                              parse: string -> Option<real>) {
    var plo, phi := Bound(pmin, parse), Bound(pmax, parse);
    var clo, chi := Bound(cmin, parse), Bound(cmax, parse);
    !(IsGiven(plo) || IsGiven(phi) || IsGiven(clo) || IsGiven(chi))
    || forall k :: 0 <= k < |titles| ==>
         (titles[k] == "pvalue" ==> WithinGiven(CellValue(cells, k, parse), plo, phi))
         && (titles[k] == "corr" ==> WithinGiven(CellValue(cells, k, parse), clo, chi))
  }

  /** Under the intended filter, a row whose correlation column reads below a given minimum
      is dropped, 0 included; with no zero bound the two filters agree. */
  lemma IntendedFilter(titles: seq<string>, cells: seq<string>, pmin: string, pmax: string, cmin: string, cmax: string,
                       parse: string -> Option<real>, k: nat)
    ensures Bound(cmin, parse).Some? && k < |titles| && titles[k] == "corr" && CellValue(cells, k, parse).Some?
      && CellValue(cells, k, parse).value < Bound(cmin, parse).value
      ==> !RowPassesIntended(titles, cells, pmin, pmax, cmin, cmax, parse)
    ensures (forall s :: s in [pmin, pmax, cmin, cmax] ==> Bound(s, parse) != Some(0.0))
      ==> RowPassesIntended(titles, cells, pmin, pmax, cmin, cmax, parse) == RowPasses(titles, cells, pmin, pmax, cmin, cmax, parse)
  {
    if forall s :: s in [pmin, pmax, cmin, cmax] ==> Bound(s, parse) != Some(0.0) {
      assert pmin in [pmin, pmax, cmin, cmax] && pmax in [pmin, pmax, cmin, cmax];
      assert cmin in [pmin, pmax, cmin, cmax] && cmax in [pmin, pmax, cmin, cmax];
    }
  }
}
