/**
 * The analytics filter panel: a filter object (time range, comparison type
 * and one value per extra filter) owned by the page, the list of extra
 * filters the user has switched on, the options still offered, and the
 * chips that summarise the active filters.
 */
module AnalyticsFilter {
  import opened Wrappers
  import opened JsValues
  import Seqs

  /** The filter object the page owns. */
  type Filters = map<string, Json>

  /** One option of a select filter. */
  datatype Choice = Choice(value: Json, caption: string)

  /** An entry of `availableFilters`: its key, label, input type and (for selects) options. */
  datatype FilterConfig = FilterConfig(value: string, caption: string, kind: string, options: seq<Choice>)

  const TimeRanges: seq<string> := ["7d", "30d", "90d", "180d", "1y", "custom"]
  const ComparisonTypes: seq<string> := ["none", "previousPeriod", "previousYear", "custom"]

  /** The panel: the page's filter object and the keys of the active extra filters. */
  datatype Panel = Panel(filters: Filters, active: seq<string>)

  // ---------------------------------------------------------------------
  // Setting values
  // ---------------------------------------------------------------------

  /** `{ ...filters, [key]: value }`. */
  function SetField(filters: Filters, key: string, value: Json): (r: Filters)
    ensures r.Keys == filters.Keys + {key} && r[key] == value
    ensures forall k :: k in filters && k != key ==> r[k] == filters[k]
  {
    filters[key := value]
  }

  /** `handleTimeRangeChange`. */
  function TimeRangeChange(filters: Filters, range: string): (r: Filters)
    ensures r.Keys == filters.Keys + {"timeRange"} && r["timeRange"] == Prim(Str(range))
    ensures forall k :: k in filters && k != "timeRange" ==> r[k] == filters[k]
  {
    SetField(filters, "timeRange", Prim(Str(range)))
  }

  /** `handleComparisonTypeChange`. */
  function ComparisonTypeChange(filters: Filters, comparison: string): (r: Filters)
    ensures r.Keys == filters.Keys + {"comparisonType"} && r["comparisonType"] == Prim(Str(comparison))
    ensures forall k :: k in filters && k != "comparisonType" ==> r[k] == filters[k]
  {
    SetField(filters, "comparisonType", Prim(Str(comparison)))
  }

  /** `handleFilterValueChange`: the value typed or picked for one extra filter. */
  function FilterValueChange(filters: Filters, filter: string, value: Json): (r: Filters)
    ensures r.Keys == filters.Keys + {filter} && r[filter] == value
    ensures forall k :: k in filters && k != filter ==> r[k] == filters[k]
  {
    SetField(filters, filter, value)
  }

  /** The last value set wins, and setting the value already there changes nothing. */
  lemma SetFieldLastWins(filters: Filters, key: string, a: Json, b: Json)
    ensures SetField(SetField(filters, key, a), key, b) == SetField(filters, key, b)
    ensures key in filters ==> SetField(filters, key, filters[key]) == filters
  {
  }

  /** Setting two different keys gives the same object in either order. */
  lemma SetFieldCommutes(filters: Filters, k1: string, a: Json, k2: string, b: Json)
    requires k1 != k2
    ensures SetField(SetField(filters, k1, a), k2, b) == SetField(SetField(filters, k2, b), k1, a)
  {
  }

  // ---------------------------------------------------------------------
  // Switching extra filters on and off
  // ---------------------------------------------------------------------

  /** `handleFilterAdd`: appends a filter that is not yet active. */
  function AddFilter(active: seq<string>, filter: string): (r: seq<string>)
    ensures filter in r && forall f :: f in active ==> f in r
    ensures forall f :: f in r ==> f in active || f == filter
    ensures filter in active ==> r == active
    ensures filter !in active ==> |r| == |active| + 1 && r[..|active|] == active
    // the active list never holds a filter twice
    ensures Seqs.NoDuplicates(active) ==> Seqs.NoDuplicates(r)
  {
    if filter in active then active else active + [filter]
  }

  /** Adding a filter that is already active is a no-op, so adding twice is adding once. */
  lemma AddFilterIdempotent(active: seq<string>, filter: string)
    ensures AddFilter(AddFilter(active, filter), filter) == AddFilter(active, filter)
  {
  }

  /**
   * `handleFilterRemove` (and a chip's delete button): the filter leaves the
   * active list and its value leaves the filter object.
   */
  function RemoveFilter(p: Panel, filter: string): (r: Panel)
    ensures filter !in r.active && filter !in r.filters
    ensures forall f :: f in r.active <==> f in p.active && f != filter
    ensures r.filters.Keys == p.filters.Keys - {filter}
    ensures forall k :: k in r.filters ==> r.filters[k] == p.filters[k]
    ensures Seqs.NoDuplicates(p.active) ==> Seqs.NoDuplicates(r.active)
  {
    var keep := (f: string) => f != filter;
    forall f | f in p.active && f != filter
      ensures f in Seqs.Filter(p.active, keep)
    {
      Seqs.FilterKeeps(p.active, keep, f);
    }
    Seqs.FilterNoDuplicates(p.active, keep);
    Panel(p.filters - {filter}, Seqs.Filter(p.active, keep))
  }

  /** Switching a filter on and off again restores the panel. */
  lemma RemoveUndoesAdd(p: Panel, filter: string)
    requires filter !in p.active && filter !in p.filters
    ensures RemoveFilter(Panel(p.filters, AddFilter(p.active, filter)), filter) == p
  {
    var keep := (f: string) => f != filter;
    Seqs.FilterAppend(p.active, [filter], keep);
    Seqs.FilterAll(p.active, keep);
    assert Seqs.Filter([filter], keep) == [];
    assert p.filters - {filter} == p.filters;
  }

  /** The filter object `clearFilters` installs. */
  const ClearedFilters: Filters := map["timeRange" := Prim(Str("30d")), "comparisonType" := Prim(Str("none"))]

  /** `clearFilters`: no active filters, the default 30-day range and no comparison. */
  function ClearFilters(p: Panel): (r: Panel)
    ensures r.active == []
    ensures r.filters.Keys == {"timeRange", "comparisonType"}
    ensures r.filters["timeRange"] == Prim(Str(TimeRanges[1]))
    ensures r.filters["comparisonType"] == Prim(Str(ComparisonTypes[0]))
  {
    Panel(ClearedFilters, [])
  }

  // ---------------------------------------------------------------------
  // Options and chips
  // ---------------------------------------------------------------------

  /** The filters the picker still offers: the available ones that are not active. */
  function Options(available: seq<FilterConfig>, active: seq<string>): (r: seq<FilterConfig>)
    ensures forall c :: c in r <==> c in available && c.value !in active
    ensures Seqs.Subsequence(r, available)
  {
    var offered := (c: FilterConfig) => c.value !in active;
    Seqs.FilterIsSubsequence(available, offered);
    forall c | c in available && c.value !in active
      ensures c in Seqs.Filter(available, offered)
    {
      Seqs.FilterKeeps(available, offered, c);
    }
    Seqs.Filter(available, offered)
  }

  /** After clearing, every available filter is offered again, in its order. */
  lemma ClearOffersEverything(p: Panel, available: seq<FilterConfig>)
    ensures Options(available, ClearFilters(p).active) == available
  {
    Seqs.FilterAll(available, (c: FilterConfig) => c.value !in ClearFilters(p).active);
  }

  /** An added filter is no longer offered; a removed one is offered again if it is available. */
  lemma OptionsFollowActive(p: Panel, available: seq<FilterConfig>, filter: string, c: FilterConfig)
    requires c in available && c.value == filter
    ensures c !in Options(available, AddFilter(p.active, filter))
    ensures c in Options(available, RemoveFilter(p, filter).active)
  {
  }

  /** The picker's change handler: the active filters become the keys of the chosen options. */
  function SelectFilters(chosen: seq<FilterConfig>): (r: seq<string>)
    ensures |r| == |chosen|
    ensures forall i :: 0 <= i < |chosen| ==> r[i] == chosen[i].value
  {
    seq(|chosen|, i requires 0 <= i < |chosen| => chosen[i].value)
  }

  /** No configuration before position i has the key. */
  predicate FirstWith(available: seq<FilterConfig>, filter: string, i: int)
    requires 0 <= i <= |available|
  {
    forall j :: 0 <= j < i ==> available[j].value != filter
  }

  /** `availableFilters.find(f => f.value === filter)`: the first configuration for a key. */
  function FindConfig(available: seq<FilterConfig>, filter: string): (r: Option<FilterConfig>)
    ensures r.None? <==> forall i :: 0 <= i < |available| ==> available[i].value != filter
    ensures r.Some? ==> r.value.value == filter
    ensures r.Some? ==> exists i :: 0 <= i < |available| && available[i] == r.value && FirstWith(available, filter, i)
  {
    if |available| == 0 then None
    else if available[0].value == filter then
      assert available[0] == available[0];
      Some(available[0])
    else
      var r := FindConfig(available[1..], filter);
      if r.Some? then
        var i :| 0 <= i < |available[1..]| && available[1..][i] == r.value && FirstWith(available[1..], filter, i);
        assert available[i + 1] == r.value && FirstWith(available, filter, i + 1);
        r
      else r
  }

  /** `options.find(o => o.value === value)?.label`. */
  function ChoiceLabel(options: seq<Choice>, value: Json): (r: Option<string>)
    ensures r.None? <==> forall i :: 0 <= i < |options| ==> options[i].value != value
    ensures r.Some? ==> exists i :: 0 <= i < |options| && options[i].value == value && options[i].caption == r.value &&
                                    forall j :: 0 <= j < i ==> options[j].value != value
  {
    if |options| == 0 then None
    else if options[0].value == value then Some(options[0].caption)
    else
      var r := ChoiceLabel(options[1..], value);
      if r.Some? then
        var i :| 0 <= i < |options[1..]| && options[1..][i].value == value && options[1..][i].caption == r.value
          && forall j :: 0 <= j < i ==> options[1..][j].value != value;
        assert options[i + 1] == options[1..][i];
        assert forall j :: 0 <= j < i + 1 ==> options[j].value != value by {
          forall j | 0 <= j < i + 1
            ensures options[j].value != value
          {
            if j > 0 { assert options[j] == options[1..][j - 1]; }
          }
        }
        r
      else r
  }

  /**
   * The text after the label on a chip: for a select, the label of the option
   * holding the current value, or "Any" when there is none or it is empty;
   * otherwise the value itself, or "Any" when it is falsy.
   */
  function ChipValue(config: FilterConfig, filters: Filters, numberText: real -> string): (r: string)
    ensures config.kind == "select" ==> var caption := ChoiceLabel(config.options, OptMember(Obj(filters), config.value));
      if caption.Some? && |caption.value| > 0 then r == caption.value else r == "Any"
    ensures config.kind != "select" && !JsonTruthy(OptMember(Obj(filters), config.value)) ==> r == "Any"
    ensures config.kind != "select" && JsonTruthy(OptMember(Obj(filters), config.value)) ==>
      r == JsonText(OptMember(Obj(filters), config.value), numberText)
  {
    var value := OptMember(Obj(filters), config.value);
    if config.kind == "select" then
      var caption := ChoiceLabel(config.options, value);
      if caption.Some? && |caption.value| > 0 then caption.value else "Any"
    else JsonText(OrElse(value, Prim(Str("Any"))), numberText)
  }

  /** One chip: the active filter's key and the text shown on it. */
  datatype Chip = Chip(key: string, text: string)

  /** Whether a filter key has a configuration among the available filters. */
  function Configured(available: seq<FilterConfig>): string -> bool
  {
    (f: string) => FindConfig(available, f).Some?
  }

  /** The text on the chip of a configured filter: its label, a colon, and its value. */
  function ChipText(config: FilterConfig, filters: Filters, numberText: real -> string): string
  {
    config.caption + ": " + ChipValue(config, filters, numberText)
  }

  /**
   * The chips of the active filters, skipping keys with no configuration:
   * the configured active keys, in the order they were switched on, each with
   * its own label and value.
   */
  function Chips(active: seq<string>, available: seq<FilterConfig>, filters: Filters,
                 numberText: real -> string): (r: seq<Chip>)
    ensures |r| == Seqs.Count(active, Configured(available))
    ensures forall i :: 0 <= i < |r| ==> r[i].key == Seqs.Filter(active, Configured(available))[i]
    ensures forall i :: 0 <= i < |r| ==>
      FindConfig(available, r[i].key).Some? && r[i].text == ChipText(FindConfig(available, r[i].key).value, filters, numberText)
    ensures forall c :: c in r ==> c.key in active && FindConfig(available, c.key).Some?
    ensures forall f :: f in active && FindConfig(available, f).Some? ==> exists c :: c in r && c.key == f
  {
    if |active| == 0 then []
    else
      var init := Chips(active[..|active| - 1], available, filters, numberText);
      var f := active[|active| - 1];
      assert forall g :: g in active <==> g in active[..|active| - 1] || g == f;
      match FindConfig(available, f)
      case None => init
      case Some(config) =>
        var chip := Chip(f, ChipText(config, filters, numberText));
        assert chip in init + [chip];
        init + [chip]
  }

  /** Deleting a chip takes it off the panel, and leaves every other chip's key showing. */
  lemma RemovedFilterHasNoChip(p: Panel, available: seq<FilterConfig>, filter: string, numberText: real -> string)
    ensures var q := RemoveFilter(p, filter);
      forall c :: c in Chips(q.active, available, q.filters, numberText) ==> c.key != filter
    ensures var q := RemoveFilter(p, filter);
      forall f :: f in p.active && f != filter && FindConfig(available, f).Some? ==>
        exists c :: c in Chips(q.active, available, q.filters, numberText) && c.key == f
  {
    var q := RemoveFilter(p, filter);
    forall f | f in p.active && f != filter && FindConfig(available, f).Some?
      ensures exists c :: c in Chips(q.active, available, q.filters, numberText) && c.key == f
    {
      assert f in q.active;
      var chips := Chips(q.active, available, q.filters, numberText);
      assert exists c :: c in chips && c.key == f;
    }
  }
}
