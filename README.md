# COMETS Analytics: heatmap layout, option parsing and form logic, in Dafny

This project models the data-shaping core of COMETS Analytics, a web tool for
metabolite–exposure correlation analysis of cohort data, and proves properties of it.

- **Heatmap layout engine.** `getHeatmapPlot` and `getHeatmapDendrogramPlot` are in
  `heatmap_plot.dfy` and `heatmap_dendrogram.dfy`; their record and trace types are in
  `heatmap_types.dfy`. The model covers the p-value filter, the sorted x axis, and the
  y axis ordered by the pivot column through a stable insertion sort (`stable_sort.dfy`).
  It also covers the z and customdata matrices, the annotations, the dendrogram
  annotations and hover text, the trace filter, the layout allow-list and the tick
  down-sampling `sampleChunks`.
- **R option parser** (`parse_input.dfy`): `parseValue`, `parseVector`, `parseList`, and
  the grouping of model-specifier rows in `parseModelSpecifiers`.
- **Services** (`service_utils.dfy`, `query_string.dfy`, `text_util.dfy`): the CSV writer
  `toCSV`, `pluralize`, `withinValuesByKey`, `asQueryString` and `pluralCount`.
- **Analysis form.**
  - `input_form.dfy` covers the current revision: `getOptions`, `getFileCount`, the
    file and e-mail branches of `handleChange`, `filterVariable` and the `submitModel`
    payload.
  - `input_form_prior.dfy` covers the prior revision (`input-form.js`).
  - `input_form_state.dfy` covers the variable option list and the form defaults.
- **Results page.**
  - `model_results.dfy`: the table columns, the download sheet list and the default
    file name.
  - `tag_manager.dfy`: the tag manager, a class whose state the methods replace.
  - `footer.dfy`: version and date extraction from the git tag and branch.
- **Legacy heatmap view** (`legacy_views.dfy`): the row comparators, the pivot of the
  correlation records, the clustered and unclustered matrices, the size clamp and the
  p-value/correlation range filter of the results table.
- **Flask service** (`comets_server.dfy`):
  - `flatten`, which loads the YAML configuration into a dictionary;
  - the chunking generator of `buildSuccess`;
  - the parameter normalisation and dispatch of `correlate`.
- **Shared helpers**: `base.dfy` (Option/Result), `strings.dfy` (JavaScript `trim`,
  `split`, string order, decimal rendering), `js_value.dfy` (a JSON-like value with
  JavaScript truthiness and `String()`), `collections.dfy` (lodash `uniq`, duplicate-free
  sequences) and `arith.dfy`.

Values that the program takes from the browser, the clock or a library are parameters of
the model:

- the numeric test `+s` and `parseFloat`;
- `String()` of a number;
- `encodeURIComponent`;
- `json.loads`;
- the chunks of the JSON encoder;
- the current date;
- the `Date` conversion of `formatDate`.

Behaviours of the code that the model keeps:

- The pivot column of `getHeatmapPlot` falls back to the first-seen x category. It does not
  fall back to the first sorted one.
- A duplicated (x, y) pair shows its first record.
- `sampleChunks` uses a floor, so it can return more than forty ticks
  (`HeatmapDendrogram.SampleChunksOverBudget`).
- A dendrogram without a heatmap trace still returns its branch traces.

## Model

| member | source | states |
|---|---|---|
| HeatmapPlot.FilterRecords | client/src/modules/analysis/results/heatmap-results.utils.js:33-42 | a record is among the survivors iff its p-value lies within the active bounds (both, one or none); with an active bound a NaN p-value is dropped; with none every record survives; the survivors are a subsequence of the input, in their original order |
| HeatmapPlot.FilterRecordsCounts | client/src/modules/analysis/results/heatmap-results.utils.js:33-42 | every occurrence of a record within the bounds survives, and no occurrence of any other |
| HeatmapPlot.FilterExample | client/src/modules/analysis/results/heatmap-results.utils.js:33-42 | bounds 0.02 and 0.3 keep exactly the records with p 0.04 and 0.2 out of 0.01, 0.04, 0.2, 0.5 |
| HeatmapPlot.DefaultPlotWhen | client/src/modules/analysis/results/heatmap-results.utils.js:26-46 | the default plot is returned exactly when the heatmap data is missing or empty or no record survives the filter |
| HeatmapPlot.SortedCategoriesAscending | client/src/modules/analysis/results/heatmap-results.utils.js:48-50 | the sorted x categories hold every x key of the records exactly once, in strictly ascending order |
| HeatmapPlot.GroupOf | client/src/modules/analysis/results/heatmap-results.utils.js:49 | the group of y holds exactly the records with that y, as a subsequence of the input (input order kept) |
| HeatmapPlot.GroupOfCounts | client/src/modules/analysis/results/heatmap-results.utils.js:49 | each record with that y occurs in the group as often as in the input, any other not at all |
| HeatmapPlot.FindX | client/src/modules/analysis/results/heatmap-results.utils.js:51-55 | the pivot lookup finds the first record of the group at the pivot x (none before it is there), and none only when the group has none there |
| HeatmapPlot.PlotXAxis | client/src/modules/analysis/results/heatmap-results.utils.js:48-50 | the plot's x axis is the distinct x keys of the filtered records, each once, ascending |
| HeatmapPlot.YOrderPermutation | client/src/modules/analysis/results/heatmap-results.utils.js:52-58 | the y order is a permutation of the distinct y keys: none dropped, none repeated |
| HeatmapPlot.PlotYAxis | client/src/modules/analysis/results/heatmap-results.utils.js:51-58 | the plot's y axis is the distinct y keys of the filtered records, each once, ordered by the pivot comparator |
| HeatmapPlot.YOrderAscending | client/src/modules/analysis/results/heatmap-results.utils.js:51-58 | when every y group has a record at the pivot (sortColumn, else the first-seen x), the y axis is non-decreasing in that record's z |
| HeatmapPlot.YOrderTies | client/src/modules/analysis/results/heatmap-results.utils.js:52-58 | when every y group has a record at the pivot, the groups whose pivot z ties keep their first-seen order (the sort is stable) |
| HeatmapPlot.YOrderWithoutPivot | client/src/modules/analysis/results/heatmap-results.utils.js:53-57 | when no group has a pivot record, the comparator is always 0 and the y axis keeps the groups' first-seen order |
| HeatmapPlot.FirstMatch | client/src/modules/analysis/results/heatmap-results.utils.js:62 | the lookup of a cell answers the first filtered record with that (x, y), and none only when there is none |
| HeatmapPlot.CellContents | client/src/modules/analysis/results/heatmap-results.utils.js:60-72 | a cell is null with the `{pvalue: NaN}` sentinel exactly when no record has the pair; otherwise it holds the z and the record of the first match |
| HeatmapPlot.PlotMatrices | client/src/modules/analysis/results/heatmap-results.utils.js:60-72 | both matrices have one row per y category and one entry per x category, each cell as CellContents says |
| HeatmapPlot.PlotComplete | client/src/modules/analysis/results/heatmap-results.utils.js:60-72 | when no (x, y) pair repeats, every filtered record appears in exactly its own cell of both matrices |
| HeatmapPlot.PlotAnnotations | client/src/modules/analysis/results/heatmap-results.utils.js:98-107 | annotations off gives none; on gives one per filtered record, in order, at its x and y with text z and refs x/y |
| HeatmapDendrogram.ChunkSize | client/src/modules/analysis/results/heatmap-results.utils.js:21 | the chunk size is at least 1; for a positive interval it is 1 iff the length is under twice the interval, and otherwise the floor of length / interval |
| HeatmapDendrogram.Chunk | client/src/modules/analysis/results/heatmap-results.utils.js:22 | lodash `chunk`: every chunk holds between 1 and `size` elements |
| HeatmapDendrogram.ChunkConcat | client/src/modules/analysis/results/heatmap-results.utils.js:22 | the chunks put back together are the original sequence |
| HeatmapDendrogram.ChunkCount | client/src/modules/analysis/results/heatmap-results.utils.js:22 | there are ceil(n / size) chunks |
| HeatmapDendrogram.ChunkStart | client/src/modules/analysis/results/heatmap-results.utils.js:22 | chunk k starts with element k * size |
| HeatmapDendrogram.SampleChunksOfArray | client/src/modules/analysis/results/heatmap-results.utils.js:20-23 | the sample has ceil(n / c) entries and entry k is element k * c, c being the chunk size |
| HeatmapDendrogram.SampleChunksShort | client/src/modules/analysis/results/heatmap-results.utils.js:20-23 | an array shorter than the interval comes back unchanged |
| HeatmapDendrogram.SampleChunksAligned | client/src/modules/analysis/results/heatmap-results.utils.js:211-226 | tick values and tick texts of equal length are sampled at the same indices and stay aligned |
| HeatmapDendrogram.SampleChunksThousand | client/src/modules/analysis/results/heatmap-results.utils.js:20-23 | a thousand ticks are sampled to exactly forty |
| HeatmapDendrogram.SampleChunksOverBudget | client/src/modules/analysis/results/heatmap-results.utils.js:20-23 | 79 ticks give chunk size 1 and come back all 79, over the budget of forty |
| HeatmapDendrogram.BuildAnnotations | client/src/modules/analysis/results/heatmap-results.utils.js:153-168 | the nested push loop produces exactly the trace's annotations, or the TypeError of reading a missing axis or row |
| HeatmapDendrogram.TraceAnnotationsOfMatrix | client/src/modules/analysis/results/heatmap-results.utils.js:155-168 | for a trace with array x, y and z rows, there are exactly \|y\|·\|x\| annotations, and entry i·\|x\|+j is at (x[j], y[i]) with text z[i][j] |
| HeatmapDendrogram.HoverMatrixShape | client/src/modules/analysis/results/heatmap-results.utils.js:184-195 | the hover text is a \|y\| × \|x\| matrix whose cell (i, j) is the hover text of the ticks x[j] and y[i] and of z[i][j] |
| HeatmapDendrogram.HoverCellOfCategories | client/src/modules/analysis/results/heatmap-results.utils.js:184-195 | a cell whose ticks are 1-based positions in the category arrays names exactly those categories |
| HeatmapDendrogram.Kept | client/src/modules/analysis/results/heatmap-results.utils.js:172-206 | a trace is kept iff it is a scatter trace with at least two x values or a heatmap trace |
| HeatmapDendrogram.MapTracesKept | client/src/modules/analysis/results/heatmap-results.utils.js:172-206 | the output traces correspond one to one, in order, to the kept input traces |
| HeatmapDendrogram.PickAxis | client/src/modules/analysis/results/heatmap-results.utils.js:211-226 | a picked axis keeps exactly the allow-listed properties the axis has, with their values |
| HeatmapDendrogram.FindHeatmap | client/src/modules/analysis/results/heatmap-results.utils.js:152 | the trace found is the first heatmap trace of the plot (no earlier trace is one), and none only when the plot has none |
| HeatmapDendrogram.DendrogramDefaultWhen | client/src/modules/analysis/results/heatmap-results.utils.js:120-128 | the default plot is returned exactly when the heatmap data or the dendrogram is missing, or the data is empty |
| HeatmapDendrogram.DendrogramTraces | client/src/modules/analysis/results/heatmap-results.utils.js:170-206 | the result's traces are the kept traces in order, each mapped by its branch or heatmap rule |
| HeatmapDendrogram.DendrogramAnnotations | client/src/modules/analysis/results/heatmap-results.utils.js:153-168 | the annotations are empty when switched off, and otherwise those of the first heatmap trace |
| HeatmapDendrogram.DendrogramWithoutHeatmap | client/src/modules/analysis/results/heatmap-results.utils.js:170-206 | without a heatmap trace the branch traces are still returned, each without a legend entry, and there are no annotations |
| HeatmapDendrogram.SampledAxis | client/src/modules/analysis/results/heatmap-results.utils.js:211-215 | the axis holds exactly its allow-listed properties, with their values, plus `tickvals` and `ticktext`, each the sampleChunks of the source axis's array |
| HeatmapDendrogram.DendrogramAxes | client/src/modules/analysis/results/heatmap-results.utils.js:207-227 | the title and margin are copied; xaxis2 and yaxis are the allow-listed projections of theirs; xaxis and yaxis2 are both SampledAxis of theirs, with both tick arrays sampled |
| StableSort.Sort | client/src/modules/analysis/results/heatmap-results.utils.js:52-57 | the comparator-driven sort returns a permutation of its input |
| StableSort.SortSorted | client/src/modules/analysis/results/heatmap-results.utils.js:52-57 | under a comparator that is a total preorder on the elements, the result is sorted |
| StableSort.SortKeepsOrdered | client/src/modules/analysis/results/heatmap-results.utils.js:52-57 | an input the comparator already accepts as ordered comes back unchanged |
| StableSort.SortStable | client/src/modules/analysis/results/heatmap-results.utils.js:52-57 | stability: under a total preorder, the elements tied with any k come out in the order they had in the input |
| Collections.Uniq | client/src/modules/analysis/results/heatmap-results.utils.js:48 | lodash `uniq`: a value is in the result iff it is in the input, each value once, and the first input value comes first |
| Collections.UniqFirstSeenOrder | client/src/modules/analysis/results/heatmap-results.utils.js:48 | the values of `uniq` come in the order of their first occurrences in the input |
| ParseInput.ParseNull | client/src/modules/analysis/results/parse-input.js:5-6 | parseValue gives null exactly for "", "NULL" and "NA" after trimming |
| ParseInput.ParseBool | client/src/modules/analysis/results/parse-input.js:7-8 | true exactly for "TRUE"/"T" and false exactly for "FALSE"/"F", after trimming |
| ParseInput.ParseNumber | client/src/modules/analysis/results/parse-input.js:9 | a number exactly when the trimmed text is no keyword and converts, before any vector or list detection |
| ParseInput.ParseString | client/src/modules/analysis/results/parse-input.js:10-12 | a string result is the trimmed text, which is no keyword, no number, no vector and no list |
| ParseInput.Capture | client/src/modules/analysis/results/parse-input.js:10-11 | a group captured by `c\((.*)\)` or `list\((.*)\)` leaves room in the text for the opener and the closing ")" |
| ParseInput.CaptureWrapped | client/src/modules/analysis/results/parse-input.js:15-20 | wrapping a one-line body as opener + body + ")" captures the body back |
| ParseInput.LineEndMeaning | client/src/modules/analysis/results/parse-input.js:17 | `.` stops at the first line terminator: none before the end found, one at it |
| ParseInput.LastCloseMeaning | client/src/modules/analysis/results/parse-input.js:17 | the greedy group ends at the LAST ")", and there is no match only when there is no ")" |
| ParseInput.ParseVectorOfJoin | client/src/modules/analysis/results/parse-input.js:15-20 | c(p1,...,pn) with comma-free one-line pieces parses to the array of the parses of p1 ... pn, or the first failure |
| ParseInput.ParseTextOfPrefixedVector | client/src/modules/analysis/results/parse-input.js:10-20 | the vector test is unanchored: pre + c(p1,...,pn), with no "c(" in pre and no leading white space, is read as the parses of p1 ... pn, or the first failure |
| ParseInput.VectorAfterPrefix | client/src/modules/analysis/results/parse-input.js:10 | "abc(1)" is read as the vector [1] |
| ParseInput.ListInsideVector | client/src/modules/analysis/results/parse-input.js:10-11 | the vector test comes first: list(a=c(1,2)) is read as the vector [1, "2)"] |
| ParseInput.ParseTextOfList | client/src/modules/analysis/results/parse-input.js:11-33 | a non-numeric text list(i1,...,in) with no "c(" in its body is read as the list fields of i1 ... in |
| ParseInput.ParseListOfJoin | client/src/modules/analysis/results/parse-input.js:22-33 | such a list fails iff an item has no name=value split or a value fails to parse; otherwise its keys are the items' trimmed names and a name holds the parse of its last item's value |
| ParseInput.ParseTextOfVector | client/src/modules/analysis/results/parse-input.js:10 | a text c(p1,...,pn) that is no number is read as the parses of its pieces, or the first failure |
| ParseInput.MapAllAt | client/src/modules/analysis/results/parse-input.js:19 | a successful map has one element per input, element k being f of input k |
| ParseInput.MapAllErr | client/src/modules/analysis/results/parse-input.js:19 | a map fails exactly when f fails on some input |
| ParseInput.SplitPointMeaning | client/src/modules/analysis/results/parse-input.js:27 | `(.+)=(.+)` splits at the LAST "=" with a character on each side |
| ParseInput.Assignment | client/src/modules/analysis/results/parse-input.js:27 | the two groups of `(.+)=(.+)` are non-empty and, with the "=", fit within the text |
| ParseInput.AssignmentOfPair | client/src/modules/analysis/results/parse-input.js:27 | a one-line item name=value whose value holds no "=" splits into exactly that name and value |
| ParseInput.ItemPairs | client/src/modules/analysis/results/parse-input.js:26-29 | every item yields its trimmed name and its value text, or nothing when some item has no assignment |
| ParseInput.FieldsErr | client/src/modules/analysis/results/parse-input.js:29-30 | writing the pairs fails exactly when one value's parse fails |
| ParseInput.FieldsKeys | client/src/modules/analysis/results/parse-input.js:30 | the keys written are exactly the names of the pairs |
| ParseInput.FieldsLastWins | client/src/modules/analysis/results/parse-input.js:30 | a name holds the parse of the value of the LAST pair with that name |
| ParseInput.ListFieldsErr | client/src/modules/analysis/results/parse-input.js:22-33 | a list fails exactly when an item has no assignment or a value fails to parse |
| ParseInput.ListFieldsKeys | client/src/modules/analysis/results/parse-input.js:26-31 | the keys of a parsed list are the trimmed names of its items |
| ParseInput.ListFieldsLastWins | client/src/modules/analysis/results/parse-input.js:26-31 | a name holds the parse of the value of the LAST item carrying it |
| ParseInput.Specs | client/src/modules/analysis/results/parse-input.js:36-39 | the grouping key of each row, in row order |
| ParseInput.Group | client/src/modules/analysis/results/parse-input.js:36-39 | a group holds exactly the rows of its specifier, as a subsequence of the rows (row order kept) |
| ParseInput.GroupCounts | client/src/modules/analysis/results/parse-input.js:36-39 | each row of the specifier occurs in its group as often as in the input, any other row not at all |
| ParseInput.FirstWithFunction | client/src/modules/analysis/results/parse-input.js:46 | the first row with a truthy `function` cell, none before it; none only when no row has one |
| ParseInput.GroupSpecifiers | client/src/modules/analysis/results/parse-input.js:42-63 | the loop pushes the entry of each group in first-seen order, and fails at the first group whose options fail |
| ParseInput.ParseModelSpecifiers | client/src/modules/analysis/results/parse-input.js:35-67 | the result is the entry list of the distinct specifiers in first-seen order, with values parsed by parseValue |
| ParseInput.SpecifierListAt | client/src/modules/analysis/results/parse-input.js:42-63 | entry k is the entry of the k-th specifier |
| ParseInput.SpecifierListFails | client/src/modules/analysis/results/parse-input.js:42-63 | the result fails exactly when the options of some group fail to parse |
| ParseInput.SpecifierNames | client/src/modules/analysis/results/parse-input.js:36-44 | the entry names are duplicate-free, and a name appears iff some row carries it |
| ParseInput.SpecifierEntry | client/src/modules/analysis/results/parse-input.js:46-62 | each entry carries its own group's first truthy function and its options |
| ParseInput.ZipOptionsErr | client/src/modules/analysis/results/parse-input.js:49-52 | zipping fails exactly when one value of the group fails to parse |
| ParseInput.ZipOptionsKeys | client/src/modules/analysis/results/parse-input.js:49-52 | the zipped keys are exactly the options of the group |
| ParseInput.ZipOptionsLastWins | client/src/modules/analysis/results/parse-input.js:49-52 | an option holds the parse of the LAST row with that option |
| ParseInput.ModelOptionsMeaning | client/src/modules/analysis/results/parse-input.js:49-55 | "" is never a key; every other option is one, holding the parse of its last row's value |
| ServiceUtils.WithinValuesByKey | client/src/services/utils.js:9-11 | true iff some value's entry under key equals the option's; always false for missing values |
| ServiceUtils.Pluralize | client/src/services/utils.js:13-15 | the singular iff count is 1; otherwise the plural, or singular + "s" when the plural is falsy |
| ServiceUtils.EscapeQuotes | client/src/services/utils.js:34 | a text without a double quote is left unchanged |
| ServiceUtils.UnescapeEscape | client/src/services/utils.js:34 | stripping the outer quotes and halving `""` gives back String(value) |
| ServiceUtils.Field | client/src/services/utils.js:30-35 | a number as it is, a falsy non-number as the empty field, anything else wrapped in quotes that unquote back to String(value) |
| ServiceUtils.Fields | client/src/services/utils.js:38-43 | one field per column, in column order |
| ServiceUtils.RowValues | client/src/services/utils.js:41 | each column's entry of the row, in column order |
| ServiceUtils.CsvLines | client/src/services/utils.js:37-45 | the header line, then one line per row in order |
| ServiceUtils.ToCsv | client/src/services/utils.js:17-46 | undefined iff the columns or rows are missing or empty; otherwise the lines joined by the line delimiter |
| ServiceUtils.CsvLineSplit | client/src/services/utils.js:37-45 | with a one-character line delimiter no line contains, splitting the output gives back exactly the header and row lines, rows + 1 of them |
| ServiceUtils.CsvRowFields | client/src/services/utils.js:39-44 | with a one-character record delimiter no field contains, row i splits into one field per column |
| ServiceUtils.CsvHeaderFields | client/src/services/utils.js:38 | the header lists the column names in order, each quoted unless empty |
| QueryString.QueryValue | client/src/services/query.js:11 | an array value becomes its String(), its elements joined with ","; anything else is unchanged |
| QueryString.KeptEntries | client/src/services/query.js:7-16 | at most one pair per entry, and no kept value is omitted or still an array |
| QueryString.AsQueryString | client/src/services/query.js:5-18 | the for-in loop's result is "?" followed by the encoded pairs of the kept entries joined by "&" |
| QueryString.KeptEntriesInOrder | client/src/services/query.js:7-16 | the kept entries are the entries, with arrays joined, some left out and the rest in their order |
| QueryString.KeptEntriesMeaning | client/src/services/query.js:11-14 | an entry is kept iff its joined value is not undefined, null, false or ""; 0 and true are kept |
| QueryString.QueryEmpty | client/src/services/query.js:14-17 | the result is exactly "?" iff no key is kept |
| QueryString.QueryRoundTrip | client/src/services/query.js:15-17 | with an encoder that escapes "&" and "=", splitting the body on "&" and each part on "=" recovers the encoded kept pairs |
| TextUtil.PluralCount | client/src/services/text.js:1-3 | the count, one space, then the singular iff count is 1, else the plural (default singular + "s") |
| TextUtil.PluralCountIsPluralize | client/src/services/text.js:1-3 | pluralCount is the count, a space and pluralize of the same arguments, except for an empty explicit plural |
| InputForm.FindModelType | client/src/modules/analysis/input-form.jsx:232-234 | the first model type of that name; none when the list is missing |
| InputForm.FindInMeaning | client/src/modules/analysis/input-form.jsx:232-234 | `find` answers the FIRST model type with the name, and none only when no model type has it |
| InputForm.GlobalOptionsOrder | client/src/modules/analysis/input-form.jsx:251-260 | after the spread a ModelOutput option wins, else a ModelChecks option, else the base option |
| InputForm.OverrideKeysAreNotModelKeys | client/src/modules/analysis/input-form.jsx:264 | no key matching `^(check\|max\|output)\.` is "model" or "model.options" |
| InputForm.Overrides | client/src/modules/analysis/input-form.jsx:263-267 | the entries copied to the top level are never "model" or "model.options" |
| InputForm.ApplyOverrides | client/src/modules/analysis/input-form.jsx:263-267 | the loop's result is the options with the override entries written over them |
| InputForm.WithoutNulls | client/src/modules/analysis/input-form.jsx:270 | the entries that are not null, unchanged |
| InputForm.GetOptions | client/src/modules/analysis/input-form.jsx:236-277 | the method computes Options: base options, spread globals, the override loop and the clean-up, in that order |
| InputForm.CleanupMeaning | client/src/modules/analysis/input-form.jsx:270-274 | no top-level option is null; the model options hold no null and no key that is also top-level |
| InputForm.OptionsDefault | client/src/modules/analysis/input-form.jsx:238-249 | an empty or unknown model type without globals gives model "correlation" with method "pearson" |
| InputForm.OptionsOverride | client/src/modules/analysis/input-form.jsx:263-274 | a non-null model option that names a global option ends up at the top level and leaves the model options |
| InputForm.OptionsGlobal | client/src/modules/analysis/input-form.jsx:251-274 | a non-null global option that no model option overrides sits at the top level with its ModelOutput-else-ModelChecks value |
| InputForm.FilesSelectedCount | client/src/modules/analysis/input-form.jsx:113-116 | a count is read only from a text that ends in " files selected" with something before it |
| InputForm.GetFileCount | client/src/modules/analysis/input-form.jsx:109-121 | 0 for a falsy or non-text value, N for "N files selected", 1 for any other text |
| InputForm.FileCountOfLabel | client/src/modules/analysis/input-form.jsx:109-121 | the label stored for n files reads back as n |
| InputForm.Form.HandleChange | client/src/modules/analysis/input-form.jsx:32-107 | the form values after the change are AfterChange of the old values: the successive merges with their early returns |
| InputForm.TooManyFilesUnchanged | client/src/modules/analysis/input-form.jsx:44-51 | more than 100 files leave the form unchanged |
| InputForm.ChangeWrites | client/src/modules/analysis/input-form.jsx:57-106 | the changed field holds the event's value, and only it and the fields its name resets change |
| InputForm.FileCountOfChange | client/src/modules/analysis/input-form.jsx:39-55 | a file selection reads back through getFileCount as its number of files (0 for none) |
| InputForm.EmailParts | client/src/modules/analysis/input-form.jsx:86 | the field split on ";", each part trimmed |
| InputForm.InvalidEmails | client/src/modules/analysis/input-form.jsx:87 | the non-empty parts that are not addresses, as a subsequence of the parts (field order kept) |
| InputForm.InvalidEmailsCounts | client/src/modules/analysis/input-form.jsx:87 | each invalid part is listed as often as it occurs, any other part not at all |
| InputForm.EmailValidationError | client/src/modules/analysis/input-form.jsx:84-104 | null iff every non-empty part is an address; otherwise the message listing exactly the invalid parts joined by "; " |
| InputForm.EmailPatternOf | client/src/modules/analysis/input-form.jsx:85 | text, "@", text, ".", text, all free of white space and "@", matches the address pattern |
| InputForm.IndexOf | client/src/modules/analysis/input-form.jsx:224 | the first position of the entry, or -1 when it is absent |
| InputForm.FilterVariable | client/src/modules/analysis/input-form.jsx:220-230 | a metabolite shows only with showMetabolites; a search of two or more characters shows exactly the allowed entries whose label contains it case-insensitively |
| InputForm.FilterVariableShort | client/src/modules/analysis/input-form.jsx:223-225 | a short search shows a listed entry iff it may be shown at all and appears before the limit |
| InputForm.FlatOfScalars | client/src/modules/analysis/input-form.jsx:148-151 | when no selected value is an array, flattening keeps one value per selection, in order |
| InputForm.FilterText | client/src/modules/analysis/input-form.jsx:152-155 | variable + operator + value when all three are truthy, else null |
| InputForm.SubmitPayloadFails | client/src/modules/analysis/input-form.jsx:138-160 | the payload fails exactly when there are no integrity results or a selection is not an array |
| InputForm.SubmitPayloadFields | client/src/modules/analysis/input-form.jsx:143-157 | the cohort is the custom one iff "Other/Undefined" was chosen; the filter is non-null iff all three filter fields are truthy; every other form value passes through |
| InputFormPrior.GetOptionsPrior | client/src/modules/analysis/input-form.js:112-149 | the prior getOptions: the specifier's model or "correlation" without model options, globals, overrides and clean-up |
| InputFormPrior.OptionsPriorDefault | client/src/modules/analysis/input-form.js:114-121 | without a matching specifier and globals the model is "correlation" and there are no model options |
| InputFormPrior.OptionsPriorEmptyName | client/src/modules/analysis/input-form.js:106-121 | unlike the later revision, an empty name selects a specifier named "" |
| InputFormPrior.Form.HandleChange | client/src/modules/analysis/input-form.js:30-42 | only the named field is merged: the checked flag for a checkbox, the first file's name or null for a file, else the value |
| InputFormPrior.PriorFileChangeCount | client/src/modules/analysis/input-form.js:37-39 | a multiple selection keeps its first file, so its count reads back as 1 |
| InputFormPrior.AsValuePrior | client/src/modules/analysis/input-form.js:62 | destructuring null or undefined throws; otherwise the value property |
| InputFormPrior.SelectionValuesPriorMeaning | client/src/modules/analysis/input-form.js:67-70 | the selection fails iff it is not an array or an entry is null or undefined; otherwise one value per entry |
| InputFormPrior.SubmitPayloadPriorFields | client/src/modules/analysis/input-form.js:63-81 | the filter text is sent iff all three filter fields are truthy, and every other form value is passed through |
| InputFormState.Variables | client/src/modules/analysis/input-form.state.js:40-58 | nothing for missing or erroneous results; otherwise "All metabolites", then one option per variable, then one per metabolite |
| InputFormState.VariablesMetaboliteMarks | client/src/modules/analysis/input-form.state.js:49-54 | exactly the metabolite entries are marked as metabolites |
| InputFormState.DefaultFormFields | client/src/modules/analysis/input-form.state.js:5-33 | a new form is for cohort "Other/Undefined", runs "allModels", has no exposures and has "All metabolites" as its outcome |
| ModelResults.GetColumns | client/src/modules/analysis/results/model-results.utils.js:58-85 | none for a missing or empty table; otherwise one column per key of the first row, with its filter, sort type and width |
| ModelResults.ColumnsReadFirstRow | client/src/modules/analysis/results/model-results.utils.js:77-79 | each column's accessor reads back its own entry of the first row, and the column ids are distinct |
| ModelResults.KeepTruthy | client/src/modules/analysis/results/model-results.utils.js:88-90 | a name is kept iff it is listed and its result is truthy |
| ModelResults.SheetNamesMeaning | client/src/modules/analysis/results/model-results.utils.js:88-90 | a sheet is downloaded iff its data is truthy, each at most once, in the fixed order |
| ModelResults.Sheets | client/src/modules/analysis/results/model-results.utils.js:91 | one sheet per name, carrying that name's results |
| ModelResults.TimestampRoundTrip | client/src/modules/analysis/results/model-results.utils.js:93-102 | the stamp splits on "-" into year, two-digit month and two-digit day that read back as the date |
| ModelResults.UnderscoreOpt | client/src/modules/analysis/results/model-results.utils.js:103 | undefined for null or undefined, a TypeError for a non-string, else the whitespace runs replaced by "_" |
| ModelResults.CohortEntries | client/src/modules/analysis/results/model-results.utils.js:104 | fails iff an Info entry is null or undefined; otherwise only entries named "cohort" are returned |
| ModelResults.DownloadFilenameDefault | client/src/modules/analysis/results/model-results.utils.js:103-105 | the default name is name__cohort__YYYY-MM-DD.xlsx with whitespace runs as "_"; a truthy file name is used as given |
| TagManager.FindTag | client/src/modules/analysis/results/tag-manager.js:20 | the first tag with the label (no earlier tag has it); none only when no tag has it |
| TagManager.Validation | client/src/modules/analysis/results/tag-manager.js:16-38 | the label is valid iff non-empty and unused, the values iff non-empty, the whole iff both are |
| TagManager.AnyTrue | client/src/modules/analysis/results/tag-manager.js:30 | true iff some flag is set |
| TagManager.Manager.constructor | client/src/modules/analysis/results/tag-manager.state.js:8-21 | no tags, an empty label and no values |
| TagManager.Manager.GetValidationState | client/src/modules/analysis/results/tag-manager.js:16-38 | the loop over the parts computes exactly Validation of the current state |
| TagManager.Manager.CreateTag | client/src/modules/analysis/results/tag-manager.js:40-55 | a valid tag is appended and the composition reset; an invalid one changes nothing; distinct labels stay distinct |
| TagManager.Manager.RemoveTagByIndex | client/src/modules/analysis/results/tag-manager.js:57-59 | exactly the tag at the index is removed, the rest kept in order; an index out of range changes nothing |
| TagManager.AppendKeepsDistinct | client/src/modules/analysis/results/tag-manager.js:45-51 | a validated tag's label is new, so labels stay distinct |
| TagManager.RemoveKeepsDistinct | client/src/modules/analysis/results/tag-manager.js:57-59 | removing a tag keeps the labels distinct |
| Footer.FirstVersionMatch | client/src/modules/common/footer.jsx:13 | the leftmost match of `comets_(\d+\.\d+\.\d+)`, none only when there is none |
| Footer.ExtractVersionMeaning | client/src/modules/common/footer.jsx:11-18 | the result is an X.Y.Z that follows "comets_" in the source; without a match, the source itself |
| Footer.ExtractVersionOf | client/src/modules/common/footer.jsx:11-18 | "comets_X.Y.Z" followed by a non-digit gives X.Y.Z |
| Footer.NoPrefix | client/src/modules/common/footer.jsx:11-33 | a source without "comets_" keeps its text as the version and has no date |
| Footer.ExtractDateOf | client/src/modules/common/footer.jsx:21-33 | "comets_X.Y.Z_YYYYMMDD" gives "YYYY-MM-DD" |
| Footer.ExtractDateIsIso | client/src/modules/common/footer.jsx:21-33 | an extracted date has the YYYY-MM-DD shape, so formatDate passes it through |
| Footer.FormatDate | client/src/modules/common/footer.jsx:65-77 | a YYYY-MM-DD string comes back unchanged |
| Footer.DashedOrder | client/src/modules/common/footer.jsx:47 | comparing two dashed dates as strings is comparing the dates |
| Footer.VersionSourceChoice | client/src/modules/common/footer.jsx:36-62 | main branches and unversioned branches give the tag; two dates pick the branch iff it is later; otherwise the branch, so the final return is unreachable |
| Footer.VersionSourceNewer | client/src/modules/common/footer.jsx:45-48 | with both dated, the branch wins iff its eight-digit date is strictly later; a tie goes to the tag |
| LegacyViews.NameComparators | comets/javascript/appViews.js:38-43 | Z-A is A-Z with its arguments swapped; A-Z gives 0 exactly for equal names and a sign that agrees with string order |
| LegacyViews.NameAscTotalPreorder | comets/javascript/appViews.js:38-40 | the A-Z comparator orders any rows consistently |
| LegacyViews.DescendingByTotalPreorder | comets/javascript/appViews.js:44-48 | the default comparator orders consistently rows that all have the property |
| LegacyViews.PivotRecords | comets/javascript/appViews.js:441-446 | the loop builds exactly the pivot of the records |
| LegacyViews.AddRecord | comets/javascript/appViews.js:441-445 | one callback call creates the metabolite's row when it is missing (appending it to the key order) and then sets the record's exposure, which is exactly one pivot step |
| LegacyViews.PivotOrder | comets/javascript/appViews.js:441-446 | the pivot rows are the distinct metabolites in first-seen order |
| LegacyViews.PivotRows | comets/javascript/appViews.js:441-446 | a metabolite has a row iff some record names it |
| LegacyViews.PivotCell | comets/javascript/appViews.js:441-446 | a row has an entry for an exposure iff a record names both, and it is the correlation of the LAST such record |
| LegacyViews.Rows | comets/javascript/appViews.js:462-465 | the heatmap rows are the pivot's rows in key order |
| LegacyViews.Unclustered | comets/javascript/appViews.js:461-475 | rows sorted by the chosen comparator; names and value rows aligned with them, one value per exposure |
| LegacyViews.UnclusteredNames | comets/javascript/appViews.js:466-474 | every metabolite of the records is named exactly once, whatever the comparator |
| LegacyViews.UnclusteredByName | comets/javascript/appViews.js:466 | with "Metabolite Name (A-Z)" the names are strictly ascending |
| LegacyViews.SortedDescending | comets/javascript/appViews.js:44-48 | sorting rows that all have a property by the default comparator leaves those values non-increasing |
| LegacyViews.UnclusteredByExposure | comets/javascript/appViews.js:466-471 | sorting by an exposure every metabolite has puts that column's values in non-increasing order |
| LegacyViews.Clustered | comets/javascript/appViews.js:450-460 | rows and columns come in the clustering's order and each value is read from the pivot; a row name the pivot lacks throws when there are columns |
| LegacyViews.ClampSize | comets/javascript/appViews.js:478-479 | the size is kept within [200, 9000], unchanged when already there, and the nearest bound otherwise |
| LegacyViews.PlotSize.Clamp | comets/javascript/appViews.js:476-485 | both sizes are clamped, and the model is written only when a size changed |
| LegacyViews.ClampIdempotent | comets/javascript/appViews.js:478-479 | clamping twice is clamping once |
| LegacyViews.RangeFilter | comets/javascript/appViews.js:566-589 | the loop's verdict is RowPasses: everything when no bound is set (0 counting as unset); otherwise every pvalue and corr column within its set bounds |
| LegacyViews.ZeroBoundIgnored | comets/javascript/appViews.js:575-583 | a correlation minimum that reads as 0 gives the same verdict as an empty box |
| LegacyViews.UnsetBoundsPassAll | comets/javascript/appViews.js:575-588 | with every box empty or 0, every row passes, unparseable cells included |
| LegacyViews.ZeroMinimumKeepsNegative | comets/javascript/appViews.js:583 | a correlation minimum of 0 keeps a row whose correlation is −0.5 |
| LegacyViews.IntendedFilter | comets/javascript/appViews.js:575-583 | under the corrected filter a correlation below a given minimum, 0 included, is dropped; without zero bounds it agrees with the original |
| CometsServer.Config.Flatten | comets/comets.py:9-14 | the configuration afterwards is the old one with the flattened writes applied in order |
| CometsServer.WritesAreLeaves | comets/comets.py:11-14 | only non-mapping values are stored |
| CometsServer.LeafWritten | comets/comets.py:14 | a top-level value that is not a mapping is written under its key, prefixed by a non-empty parent |
| CometsServer.NestedLeafWritten | comets/comets.py:11-14 | a leaf of a nested mapping is written under "<its mapping's key>.<its key>", whatever the outer parent |
| CometsServer.OuterKeyLost | comets/comets.py:11-14 | three levels deep the outermost key is lost: {a: {b: {c: t}}} sets only "b.c" |
| CometsServer.LastWriteWins | comets/comets.py:14 | a key is set iff written or set before; the last write decides its value; an unwritten key keeps its old value |
| CometsServer.PieceStep | comets/comets.py:50-55 | reading one more chunk grows the accumulated text by that chunk, whether or not a piece is sent |
| CometsServer.Generate | comets/comets.py:48-57 | the pieces concatenate to the chunks; each non-final piece is over 10000 characters; a final piece, possibly empty, is always sent |
| CometsServer.ListFieldMeaning | comets/comets.py:136-147 | an empty decoded list, string or object becomes None; any other value with a length is kept |
| CometsServer.StrataMeaning | comets/comets.py:148-152 | empty strata become None; other strata become a one-element list of that text |
| CometsServer.WorkbookPathMeaning | comets/comets.py:134-135 | a relative name becomes tmp/<name>.xlsx; an absolute name replaces the directory |
| CometsServer.DecodeList | comets/comets.py:136-139 | one list field decoded in place, None when empty, or the decode failure |
| CometsServer.DecodeLists | comets/comets.py:136-147 | each present list field is decoded; the result fails iff some present field fails to decode |
| CometsServer.FirstValues | comets/comets.py:131-133 | every field holds its first value; an IndexError iff some field has no value |
| CometsServer.ResolveWorkbook | comets/comets.py:134-135 | a present file name becomes its workbook path; nothing else changes |
| CometsServer.WrapStrata | comets/comets.py:148-152 | present strata become None when empty, else a one-element list; nothing else changes |
| CometsServer.NormaliseFields | comets/comets.py:134-152 | the workbook path, the three list fields and the strata, in that order, as the separate steps define them |
| CometsServer.NormaliseParameters | comets/comets.py:131-152 | success iff every field has a value and every present list field decodes; the form's keys, each holding its normalised value |
| CometsServer.Correlate | comets/comets.py:128-179 | "All models" with a file name queues the normalised parameters; another model runs them; any failure answers "An unknown error occurred" |

## Left out

- JavaScript string order is by UTF-16 code unit. The model compares strings by
  character code. Case folding is ASCII-only, for `toLowerCase` in `filterVariable`.
- InputForm.FilterVariable: the model counts the search text's length in characters,
  not UTF-16 code units as `value.length` does. A single character outside the Basic
  Multilingual Plane takes the search branch in JavaScript and the short-search branch in
  the model.
- The dendrogram layout always has its `layout` object and its four axes
  (`ClusterLayout`). A clustering plot without `layout`, or without `layout.xaxis` or
  `layout.yaxis2`, makes `getHeatmapDendrogramPlot` throw a TypeError; the model does not
  cover that case.
- The clustering descriptor always has its `data` array (`Descriptor.data`). A descriptor
  without `data` makes `hcluster?.data.find(...)` throw a TypeError in
  `getHeatmapDendrogramPlot`; the model does not cover that case either.
- Object key order: JavaScript visits integer-like keys first. The model keeps
  insertion order for `Object.entries`, `Object.keys`, for-in and `groupBy`.
- Numbers are reals with `None` for NaN. IEEE arithmetic, infinities and the coercions
  `+s`, `parseFloat` and `String(n)` are parameters or left out.
- Tick values in the dendrogram are naturals. Plotly's coercion of non-integer ticks is
  not modelled.
- Constant strings of the hover templates, colour bars, `defaultPlot` and
  `defaultConfig` are opaque.
- `getHeatmapPlot2` is an unfinished stub in the same file. It is not part of this model.
- The "modelType" branch of `handleChange` merges `defaultCustomModelOptions` and a name
  built from `Object.values`. The merged map is a parameter (`modelTypeValues`), since
  `defaultCustomModelOptions` is not defined in input-form.state.js.
- A checkbox named "email" would make `value.split` throw. The model lets it fall through
  to the plain merge.
- `alert`, resetting the file input, `debounce`, timers, `fetch`, the download library,
  analytics, `Date` and rendering are left out. Dates enter as parameters.
- `indexOf` and `includes` on objects compare by identity. The model compares values.
- `model.options` that is not an object (a string, say) is not modelled. The model options
  are a map.
- ServiceUtils.CsvLineSplit: the round trip is stated for one-character delimiters only,
  since `Split` models `split` with a one-character separator.
- A git tag or branch that is not a string (the `catch` paths of `extractVersion` and
  `extractDateFromSource`) is not modelled.
- ModelResults.GetColumns: a table that is not an array is not modelled. The accessor
  closure is represented by the key it reads (`ColumnsReadFirstRow`).
- A `sortRow` naming a member of `Object.prototype` is not modelled. The comparator
  chosen is A-Z, Z-A or the default.
- An exposure named `metabolite_name` would collide with the row's name field. The model
  keeps them apart.
- LegacyViews.ClampSize: plot sizes are reals. A non-numeric or NaN size, for which
  `Math.max` gives NaN, is not modelled.
- Footer.FormatDate: only the pass-through branch is stated. The `Date` conversion of
  other strings is a parameter.
- comets.py:
  - R through pyper, the STOMP queue and SMTP are left out. `queueFile` is assumed to
    succeed.
  - The other routes and the Flask `Response` and status code are left out.
  - The form is a map from field to its list of values (`dict(request.form)`).
  - YAML keys are strings. Non-mapping YAML values are opaque text.
  - `json.loads` is the `Decoder` parameter, and the JSON encoder's chunks are an input
    sequence.
  - The model run of `correlate` (reading R's result file, `buildSuccess` of
    `saveValue`) is represented by the `RunModel` reply, which carries the parameters
    handed to R.
- The "All models" reply of `correlate` goes through `buildFailure` (status 500) with
  the message "The results will be emailed to you." The model's `Queued` reply stands for
  it.

## Findings

| source | as written | input that shows it | evidently intended | confidence | as-written member | corrected member |
|---|---|---|---|---|---|---|
| comets/javascript/appViews.js:575-583 | a bound is used only when truthy, so a bound of 0 is ignored like an empty box | correlation minimum "0" and a row with corr −0.5: the row passes | a bound typed as 0 filters like any other number (corr ≥ 0 drops −0.5) | not executed; medium | LegacyViews.ZeroMinimumKeepsNegative | LegacyViews.IntendedFilter |
