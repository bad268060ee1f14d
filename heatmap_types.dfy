/** The inputs and the annotation shape shared by the two heatmap builders of
    client/src/modules/analysis/results/heatmap-results.utils.js. */
module HeatmapTypes {
  import opened Base
  import opened JsValue

  /** One element of `results.Effects`, already projected onto the keys the heatmap
      options name: `x` is record[xKey], `y` is record[yKey], `z` is record[zKey], and
      `p` is the p-value, None when it is NaN. */
  datatype EffectRecord = EffectRecord(x: string, y: string, z: real, p: Option<real>)

  /** The heatmap options the builders read. A p-value bound is None when the text
      field is empty or not numeric. `sortColumn` is "" when unset. */
  datatype HeatmapOptions = HeatmapOptions(
    sortColumn: string,
    pValueMin: Option<real>,
    pValueMax: Option<real>,
    showAnnotations: bool)

  /** `defaultHeatmapOptions`: no sort column, no bounds, no annotations
      (the default keys term/outcomespec/corr are the projection of EffectRecord). */
  const DefaultOptions := HeatmapOptions("", None, None, false)

  /** A trace of the externally computed clustering plot. Each field is Undefined
      when the trace does not carry that property; other properties are never read. */
  datatype Trace = Trace(
    kind: Value,
    x: Value,
    y: Value,
    z: Value,
    mode: Value,
    text: Value,
    hoverinfo: Value,
    xaxis: Value,
    yaxis: Value)

  /** The layout of the clustering plot: its four axis objects as property maps, and its margin. */
  datatype ClusterLayout = ClusterLayout(
    xaxis: map<string, Value>,
    xaxis2: map<string, Value>,
    yaxis: map<string, Value>,
    yaxis2: map<string, Value>,
    margin: Value)

  /** `results.heatmap.dendrogram`. */
  datatype Descriptor = Descriptor(data: seq<Trace>, layout: ClusterLayout)

  /** `results.heatmap`: the length of `data` (None when `data` is missing or has no length)
      and the optional dendrogram. */
  datatype HeatmapSection = HeatmapSection(dataLength: Option<nat>, dendrogram: Option<Descriptor>)

  /** The model results object as far as the builders read it. */
  datatype Results = Results(heatmap: Option<HeatmapSection>, effects: Option<seq<EffectRecord>>)

  /** Both builders first check `results.heatmap.data.length`. */
  predicate HasHeatmapData(results: Results) {
    results.heatmap.Some? && results.heatmap.value.dataLength.Some?
    && results.heatmap.value.dataLength.value > 0
  }

  /** A text label placed on the plot; `showarrow` is always false. */
  datatype Annotation = Annotation(x: Value, y: Value, text: Value, xref: string, yref: string)
}
