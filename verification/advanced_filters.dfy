/**
 * The advanced filter panel: range sliders per metric and option switches
 * stored in nested objects of the filter object, named presets of the whole
 * filter object, and the same active-filter chips as the basic panel.
 */
module AdvancedFilters {
  import opened Wrappers
  import opened JsValues
  import AnalyticsFilter
  import Seqs

  type Filters = AnalyticsFilter.Filters

  /** The bounds and step of one metric's slider. */
  datatype MetricRange = MetricRange(min: int, max: int, step: int)

  const PercentRange := MetricRange(0, 100, 5)

  const MetricRanges: map<string, MetricRange> := map[
    "engagement" := PercentRange, "retention" := PercentRange,
    "utilization" := PercentRange, "popularity" := PercentRange]

  const ToggleNames: seq<string> := ["showInactive", "includeArchived", "compareToBaseline", "showProjections"]

  /** `filters[group]`, read from the filter object (`undefined` when absent). */
  function Group(filters: Filters, group: string): (r: Json)
    ensures group !in filters ==> r == Undef
    ensures group in filters ==> r == filters[group]
  {
    OptMember(Obj(filters), group)
  }

  /** `{ ...filters, [group]: { ...filters[group], [key]: value } }`. */
  function SetNested(filters: Filters, group: string, key: string, value: Json): (r: Filters)
    ensures r.Keys == filters.Keys + {group}
    ensures forall k :: k in filters && k != group ==> r[k] == filters[k]
    ensures r[group].Obj? && r[group].fields.Keys == Spread(Group(filters, group)).Keys + {key}
    ensures r[group].fields[key] == value
    ensures forall k :: k in Spread(Group(filters, group)) && k != key ==>
      r[group].fields[k] == Spread(Group(filters, group))[k]
  {
    filters[group := Obj(Spread(Group(filters, group))[key := value])]
  }

  /** `handleMetricRangeChange`: a slider moved. */
  function MetricRangeChange(filters: Filters, metric: string, value: Json): (r: Filters)
    ensures r.Keys == filters.Keys + {"metrics"}
    ensures forall k :: k in filters && k != "metrics" ==> r[k] == filters[k]
    ensures r["metrics"].Obj? && r["metrics"].fields.Keys == Spread(Group(filters, "metrics")).Keys + {metric}
    ensures metric in r["metrics"].fields && r["metrics"].fields[metric] == value
    ensures forall m :: m in Spread(Group(filters, "metrics")) && m != metric ==>
      m in r["metrics"].fields && r["metrics"].fields[m] == Spread(Group(filters, "metrics"))[m]
  {
    SetNested(filters, "metrics", metric, value)
  }

  /** `handleToggleChange(name)`: a switch flipped. */
  function ToggleChange(filters: Filters, name: string, checked: bool): (r: Filters)
    ensures r.Keys == filters.Keys + {"toggles"}
    ensures forall k :: k in filters && k != "toggles" ==> r[k] == filters[k]
    ensures r["toggles"].Obj? && r["toggles"].fields.Keys == Spread(Group(filters, "toggles")).Keys + {name}
    ensures name in r["toggles"].fields && r["toggles"].fields[name] == Prim(Bool(checked))
    ensures forall t :: t in Spread(Group(filters, "toggles")) && t != name ==>
      t in r["toggles"].fields && r["toggles"].fields[t] == Spread(Group(filters, "toggles"))[t]
  {
    SetNested(filters, "toggles", name, Prim(Bool(checked)))
  }

  /** What a slider shows: `filters.metrics?.[metric] || [range.min, range.max]`. */
  function SliderValue(filters: Filters, metric: string, range: MetricRange): (r: Json)
    ensures !JsonTruthy(OptMember(Group(filters, "metrics"), metric)) ==>
      r == Arr([Prim(Num(range.min as real)), Prim(Num(range.max as real))])
  {
    OrElse(OptMember(Group(filters, "metrics"), metric), Arr([Prim(Num(range.min as real)), Prim(Num(range.max as real))]))
  }

  /** What a switch shows: `filters.toggles?.[name] || false`. */
  function Checked(filters: Filters, name: string): (r: Json)
    ensures !JsonTruthy(OptMember(Group(filters, "toggles"), name)) ==> r == Prim(Bool(false))
  {
    OrElse(OptMember(Group(filters, "toggles"), name), Prim(Bool(false)))
  }

  /**
   * A moved slider shows the value it was moved to, and every other slider
   * keeps what it showed. Spreading an array or string into the new object
   * drops its `length`, hence the exception for that one name.
   */
  lemma SliderShowsChange(filters: Filters, metric: string, value: Json, other: string, range: MetricRange)
    requires JsonTruthy(value) && other != metric
    requires other != "length" || Group(filters, "metrics").Obj? || IsNullish(Group(filters, "metrics"))
    ensures SliderValue(MetricRangeChange(filters, metric, value), metric, range) == value
    ensures SliderValue(MetricRangeChange(filters, metric, value), other, range) == SliderValue(filters, other, range)
  {
  }

  /** A flipped switch shows its new state, and every other switch keeps its state (but for `length`, as with sliders). */
  lemma SwitchShowsToggle(filters: Filters, name: string, checked: bool, other: string)
    requires other != name
    requires other != "length" || Group(filters, "toggles").Obj? || IsNullish(Group(filters, "toggles"))
    ensures Checked(ToggleChange(filters, name, checked), name) == Prim(Bool(checked))
    ensures Checked(ToggleChange(filters, name, checked), other) == Checked(filters, other)
  {
  }

  // ---------------------------------------------------------------------
  // Presets
  // ---------------------------------------------------------------------

  datatype Preset = Preset(name: string, filters: Filters)

  /** The preset handed to the page, if any, and the preset-name field afterwards. */
  datatype PresetSave = PresetSave(saved: Option<Preset>, name: string)

  /** `handlePresetSave`: only a non-empty name saves the current filters, and saving clears the name. */
  function SavePreset(name: string, filters: Filters): (r: PresetSave)
    ensures r.saved.Some? <==> |name| > 0
    ensures r.saved.Some? ==> r.saved.value.name == name && r.saved.value.filters == filters && r.name == ""
    ensures r.saved.None? ==> r.name == name
  {
    if Truthy(Str(name)) then PresetSave(Some(Preset(name, filters)), "") else PresetSave(None, name)
  }

  /**
   * `handlePresetLoad`: the active filters become `Object.keys(preset.filters)`.
   * The order in which the keys were inserted into the object is a parameter;
   * an object holds each key once, so the order lists each key once.
   */
  function LoadPreset(preset: Preset, insertionOrder: seq<string>): (active: seq<string>)
    requires Seqs.NoDuplicates(insertionOrder)
    requires forall k :: k in insertionOrder <==> k in preset.filters
    ensures |active| == |insertionOrder|
    ensures forall k :: k in active <==> k in preset.filters
    ensures Seqs.NoDuplicates(active)
  {
    var active := EntryOrder(insertionOrder);
    Seqs.PermutationNoDuplicates(insertionOrder, active);
    active
  }

  /** Loading a freshly saved preset switches on exactly the filters that were set when it was saved. */
  lemma SaveThenLoad(name: string, filters: Filters, insertionOrder: seq<string>)
    requires |name| > 0
    requires Seqs.NoDuplicates(insertionOrder)
    requires forall k :: k in insertionOrder <==> k in filters
    ensures SavePreset(name, filters).saved.Some?
    ensures forall k :: k in LoadPreset(SavePreset(name, filters).saved.value, insertionOrder) <==> k in filters
  {
  }

  // ---------------------------------------------------------------------
  // Clearing and chips
  // ---------------------------------------------------------------------

  const ClearedFilters: Filters := map[
    "metrics" := Obj(map[]), "toggles" := Obj(map[]),
    "timeRange" := Prim(Str("30d")), "comparisonType" := Prim(Str("none"))]

  /** `clearFilters`: empty metric ranges and switches, the 30-day range, no comparison, no active filters. */
  function ClearFilters(p: AnalyticsFilter.Panel): (r: AnalyticsFilter.Panel)
    ensures r.active == []
    ensures r.filters.Keys == {"metrics", "toggles", "timeRange", "comparisonType"}
    // on the keys both panels share, the cleared object is the basic panel's
    ensures forall k :: k in AnalyticsFilter.ClearedFilters ==> r.filters[k] == AnalyticsFilter.ClearedFilters[k]
  {
    AnalyticsFilter.Panel(ClearedFilters, [])
  }

  /** After clearing, every slider spans its whole range and every switch is off. */
  lemma ClearedShowsDefaults(p: AnalyticsFilter.Panel, metric: string, name: string)
    requires metric in MetricRanges
    ensures SliderValue(ClearFilters(p).filters, metric, MetricRanges[metric]) == Arr([Prim(Num(0.0)), Prim(Num(100.0))])
    ensures Checked(ClearFilters(p).filters, name) == Prim(Bool(false))
  {
  }

  /** A chip's delete button: the same removal as the basic panel's. */
  function DeleteChip(p: AnalyticsFilter.Panel, filter: string): (r: AnalyticsFilter.Panel)
    ensures filter !in r.active && filter !in r.filters
    ensures forall f :: f in r.active <==> f in p.active && f != filter
    ensures r.filters.Keys == p.filters.Keys - {filter}
    ensures forall k :: k in r.filters ==> r.filters[k] == p.filters[k]
  {
    AnalyticsFilter.RemoveFilter(p, filter)
  }
}
