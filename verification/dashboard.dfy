/**
 * The analytics dashboard page's data shaping: defaulting of the statistics
 * response, the template action on the widget list, and the builders that
 * turn API responses into chart series.
 */
module Dashboard {
  import opened Wrappers
  import opened JsValues
  import Seqs
  import Calendar

  const Zero: Json := Prim(Num(0.0))

  // ---------------------------------------------------------------------
  // Pie data
  // ---------------------------------------------------------------------

  datatype PieSlice = PieSlice(name: Json, value: Json)

  predicate NoNullish(items: seq<Json>)
  {
    forall i :: 0 <= i < |items| ==> !IsNullish(items[i])
  }

  const ReadOfNullish := "TypeError: Cannot read properties of null or undefined"

  /** `generatePieData(data)`: nothing for a non-array, otherwise one slice per item with defaults. */
  function GeneratePieData(data: Json): (r: Result<seq<PieSlice>, string>)
    ensures !data.Arr? ==> r == Ok([])
    ensures r.Err? <==> data.Arr? && !NoNullish(data.items)
    ensures r.Ok? && data.Arr? ==> |r.value| == |data.items|
    ensures r.Ok? && data.Arr? ==> forall i :: 0 <= i < |data.items| ==>
      r.value[i].name == OrElse(Member(data.items[i], "category").value, Prim(Str("Unknown")))
      && r.value[i].value == OrElse(Member(data.items[i], "value").value, Zero)
  {
    if !data.Arr? then Ok([])
    else if !NoNullish(data.items) then Err(ReadOfNullish)
    else
      Ok(seq(|data.items|, i requires 0 <= i < |data.items| && NoNullish(data.items) =>
        PieSlice(OrElse(Member(data.items[i], "category").value, Prim(Str("Unknown"))),
                 OrElse(Member(data.items[i], "value").value, Zero))))
  }

  /** Every slice has a truthy name, and a value that is truthy or 0. */
  lemma PieSlicesAreLabelled(data: Json)
    requires GeneratePieData(data).Ok?
    ensures forall s :: s in GeneratePieData(data).value ==> JsonTruthy(s.name) && (JsonTruthy(s.value) || s.value == Zero)
  {
  }

  // ---------------------------------------------------------------------
  // Statistics defaulting
  // ---------------------------------------------------------------------

  /** The fields the page relies on, each with the value it falls back to. */
  const StatsDefaults: map<string, Json> := map[
    "totalBooks" := Zero, "activeUsers" := Zero, "averageRating" := Zero,
    "totalLendings" := Zero, "activeLendings" := Zero, "overdueBooks" := Zero,
    "metrics" := Obj(map[]), "categories" := Arr([]), "booksByGenre" := Obj(map[]),
    "lendingsByMonth" := Obj(map[]), "timeline" := Arr([]), "comparisonTimeline" := Arr([]),
    "mostBorrowedBooks" := Arr([]), "mostActiveMembers" := Arr([]), "highestRatedBooks" := Arr([])]

  /** The stats object the page stores: every field of the response, with each expected field defaulted when falsy. */
  function DefaultStats(data: Json): (r: map<string, Json>)
    ensures r.Keys == Spread(data).Keys + StatsDefaults.Keys
    ensures forall k :: k in Spread(data) && k !in StatsDefaults ==> r[k] == Spread(data)[k]
    ensures forall k :: k in StatsDefaults && JsonTruthy(OptMember(data, k)) ==> r[k] == OptMember(data, k)
    ensures forall k :: k in StatsDefaults && !JsonTruthy(OptMember(data, k)) ==> r[k] == StatsDefaults[k]
  {
    map k | k in Spread(data).Keys + StatsDefaults.Keys ::
      if k in StatsDefaults then OrElse(OptMember(data, k), StatsDefaults[k]) else Spread(data)[k]
  }

  /** Defaulting an already defaulted stats object changes nothing. */
  lemma DefaultStatsIdempotent(data: Json)
    ensures DefaultStats(Obj(DefaultStats(data))) == DefaultStats(data)
  {
    var once := DefaultStats(data);
    forall k | k in StatsDefaults && !JsonTruthy(once[k])
      ensures once[k] == StatsDefaults[k]
    {
    }
    DefaultedIsFixed(once);
  }

  /** A stats object that has every expected field, each falsy one at its default, is left as it is. */
  lemma DefaultedIsFixed(m: map<string, Json>)
    requires StatsDefaults.Keys <= m.Keys
    requires forall k :: k in StatsDefaults && !JsonTruthy(m[k]) ==> m[k] == StatsDefaults[k]
    ensures DefaultStats(Obj(m)) == m
  {
    var r := DefaultStats(Obj(m));
    assert Spread(Obj(m)) == m;
    forall k | k in m
      ensures r[k] == m[k]
    {
      assert OptMember(Obj(m), k) == m[k];
    }
  }

  // ---------------------------------------------------------------------
  // Templates
  // ---------------------------------------------------------------------

  datatype Template<W> = Template(replaceExisting: bool, widgets: seq<W>)

  /** `handleApplyTemplate`: the new widget list, and the template picker's visibility (always closed). */
  function ApplyTemplate<W>(widgets: seq<W>, t: Template<W>): (r: (seq<W>, bool))
    ensures !r.1
    ensures t.replaceExisting ==> r.0 == t.widgets
    ensures !t.replaceExisting ==> |r.0| == |widgets| + |t.widgets| && r.0[..|widgets|] == widgets && r.0[|widgets|..] == t.widgets
  {
    if t.replaceExisting then (t.widgets, false) else (widgets + t.widgets, false)
  }

  /** Applying a replacing template twice is applying it once; an appending one adds its widgets each time. */
  lemma ApplyTemplateTwice<W>(widgets: seq<W>, t: Template<W>)
    ensures t.replaceExisting ==> ApplyTemplate(ApplyTemplate(widgets, t).0, t) == ApplyTemplate(widgets, t)
    ensures !t.replaceExisting ==> ApplyTemplate(ApplyTemplate(widgets, t).0, t).0 == widgets + t.widgets + t.widgets
  {
  }

  // ---------------------------------------------------------------------
  // Comparative series
  // ---------------------------------------------------------------------

  datatype ComparativePoint = ComparativePoint(period: Json, current: Json, previous: Json)

  /** `previousData[index]?.value || 0`. */
  function PreviousValue(previousData: Json, index: nat): Json
  {
    OrElse(OptMember(At(previousData, index), "value"), Zero)
  }

  const MapOfNonArray := "TypeError: currentData.map is not a function"

  /** `generateComparativeData(stats)`. */
  function GenerateComparativeData(stats: Json): (r: Result<seq<ComparativePoint>, string>)
    ensures !JsonTruthy(stats) ==> r == Ok([])
    ensures JsonTruthy(stats) ==> var current := OrElse(Member(stats, "timeline").value, Arr([]));
      (r.Err? <==> !current.Arr? || !NoNullish(current.items))
      && (r.Ok? ==>
            (|r.value| == |current.items|
             && forall i :: 0 <= i < |current.items| ==>
                  r.value[i].period == Member(current.items[i], "date").value
                  && r.value[i].current == Member(current.items[i], "value").value))
  {
    if !JsonTruthy(stats) then Ok([])
    else
      var current := OrElse(Member(stats, "timeline").value, Arr([]));
      var previous := OrElse(Member(stats, "comparisonTimeline").value, Arr([]));
      if !current.Arr? then Err(MapOfNonArray)
      else if !NoNullish(current.items) then Err(ReadOfNullish)
      else
        Ok(seq(|current.items|, i requires 0 <= i < |current.items| && NoNullish(current.items) =>
          ComparativePoint(Member(current.items[i], "date").value, Member(current.items[i], "value").value,
                           PreviousValue(previous, i))))
  }

  /**
   * The previous series is aligned by position: a point past the end of the
   * comparison timeline, or with a falsy value there, compares against 0.
   */
  lemma PreviousAlignedByIndex(stats: Json, i: nat)
    requires GenerateComparativeData(stats).Ok? && i < |GenerateComparativeData(stats).value|
    requires JsonTruthy(stats)
    ensures var previous := OrElse(Member(stats, "comparisonTimeline").value, Arr([]));
      GenerateComparativeData(stats).value[i].previous == PreviousValue(previous, i)
      && (previous.Arr? && i >= |previous.items| ==> GenerateComparativeData(stats).value[i].previous == Zero)
      && (previous.Arr? && i < |previous.items| && previous.items[i].Obj? && JsonTruthy(OptMember(previous.items[i], "value"))
          ==> GenerateComparativeData(stats).value[i].previous == previous.items[i].fields["value"])
  {
  }

  // ---------------------------------------------------------------------
  // Radar
  // ---------------------------------------------------------------------

  datatype RadarPoint = RadarPoint(metric: string, score: Json)

  const RadarMetrics: seq<string> := ["Engagement", "Retention", "Activity", "Satisfaction", "Diversity"]
  const RadarKeys: seq<string> := ["avgEngagementScore", "avgRetentionScore", "avgActivityScore",
                                   "avgSatisfactionScore", "avgDiversityScore"]

  /** `generateRadarData(userBehavior)`: nothing without a response, otherwise the five fixed axes. */
  function GenerateRadarData(userBehavior: Json): (r: seq<RadarPoint>)
    ensures |r| == 0 <==> !JsonTruthy(userBehavior)
    ensures JsonTruthy(userBehavior) ==> |r| == 5 && forall i :: 0 <= i < 5 ==> r[i].metric == RadarMetrics[i]
    ensures JsonTruthy(userBehavior) ==> forall i :: 0 <= i < 5 ==>
      r[i].score == OrElse(Member(userBehavior, RadarKeys[i]).value, Zero)
  {
    if !JsonTruthy(userBehavior) then []
    else
      seq(5, i requires 0 <= i < 5 => RadarPoint(RadarMetrics[i], OrElse(Member(userBehavior, RadarKeys[i]).value, Zero)))
  }

  /** A response with none of the score fields gives the five axes at 0. */
  lemma RadarDefaultsToZero(fields: map<string, Json>)
    requires forall i :: 0 <= i < 5 ==> RadarKeys[i] !in fields
    ensures forall p :: p in GenerateRadarData(Obj(fields)) ==> p.score == Zero
  {
  }

  // ---------------------------------------------------------------------
  // Counting by a field
  // ---------------------------------------------------------------------

  datatype NamedCount = NamedCount(name: string, value: nat)

  /** One entry per listed key with its number of occurrences. */
  function TallyOver(order: seq<string>, keys: seq<string>): (r: seq<NamedCount>)
    ensures |r| == |order|
    ensures forall i :: 0 <= i < |order| ==> r[i] == NamedCount(order[i], Seqs.CountOf(keys, order[i]))
  {
    if |order| == 0 then []
    else TallyOver(order[..|order| - 1], keys) + [NamedCount(order[|order| - 1], Seqs.CountOf(keys, order[|order| - 1]))]
  }

  function TotalOf(counts: seq<NamedCount>): nat
  {
    if |counts| == 0 then 0 else TotalOf(counts[..|counts| - 1]) + counts[|counts| - 1].value
  }

  lemma {:induction false} TallyTotal(order: seq<string>, keys: seq<string>)
    ensures TotalOf(TallyOver(order, keys)) == Seqs.CountsOver(order, keys)
  {
    if |order| > 0 {
      TallyTotal(order[..|order| - 1], keys);
      assert TallyOver(order, keys)[..|order| - 1] == TallyOver(order[..|order| - 1], keys);
    }
  }

  /**
   * `list.reduce((acc, x) => { acc[key(x)] = (acc[key(x)] || 0) + 1 }, {})`
   * followed by `Object.entries`: one entry per distinct key, in entry order.
   */
  function Tally(keys: seq<string>): seq<NamedCount>
  {
    TallyOver(EntryOrder(Seqs.Distinct(keys)), keys)
  }

  /** Each entry names a key of the list and carries its (positive) number of occurrences. */
  lemma TallyEntries(keys: seq<string>)
    ensures |Tally(keys)| == |Seqs.Distinct(keys)|
    ensures forall e :: e in Tally(keys) ==> e.name in keys && e.value == Seqs.CountOf(keys, e.name) && e.value >= 1
  {
    var d := Seqs.Distinct(keys);
    var order := EntryOrder(d);
    var t := Tally(keys);
    forall e | e in t
      ensures e.name in keys && e.value == Seqs.CountOf(keys, e.name) && e.value >= 1
    {
      var i :| 0 <= i < |order| && t[i] == e;
      assert order[i] in multiset(d);
      CountOfPositive(keys, order[i]);
    }
  }

  /** Every key of the list has an entry. */
  lemma TallyCoversKeys(keys: seq<string>)
    ensures forall k :: k in keys ==> exists e :: e in Tally(keys) && e.name == k
  {
    var d := Seqs.Distinct(keys);
    var order := EntryOrder(d);
    forall k | k in keys
      ensures exists e :: e in Tally(keys) && e.name == k
    {
      assert k in d;
      assert k in order;
      var i :| 0 <= i < |order| && order[i] == k;
      assert Tally(keys)[i].name == k;
    }
  }

  /** The counts add up to the length of the list. */
  lemma TallySumsToLength(keys: seq<string>)
    ensures TotalOf(Tally(keys)) == |keys|
  {
    var d := Seqs.Distinct(keys);
    var order := EntryOrder(d);
    TallyTotal(order, keys);
    Seqs.GroupCountsSumToLength(keys);
    Seqs.CountsOverPermutation(d, order, keys);
  }

  lemma {:induction false} CountOfPositive(s: seq<string>, k: string)
    requires k in s
    ensures Seqs.CountOf(s, k) >= 1
  {
    if s[|s| - 1] != k {
      assert k in s[..|s| - 1] by {
        var i :| 0 <= i < |s| && s[i] == k;
        assert s[..|s| - 1][i] == k;
      }
      CountOfPositive(s[..|s| - 1], k);
    }
  }

  /** `name.replace('_', ' ')`: only the first underscore becomes a space. */
  function ReplaceFirstUnderscore(s: string): (r: string)
    ensures |r| == |s|
    ensures '_' !in s ==> r == s
    ensures '_' in s ==> r == s[Seqs.IndexOf(s, '_') := ' ']
  {
    if |s| == 0 then s
    else if s[0] == '_' then [' '] + s[1..]
    else [s[0]] + ReplaceFirstUnderscore(s[1..])
  }

  /** A name with two underscores keeps its second one. */
  lemma SecondUnderscoreKept(s: string, i: nat, j: nat)
    requires i < j < |s| && s[i] == '_' && s[j] == '_'
    ensures ReplaceFirstUnderscore(s)[j] == '_'
  {
  }

  const ReduceOfNonArray := "TypeError: reduce is not a function"

  /** The keys `String(item[field])` of a list that is known to be an array of non-nullish items. */
  function FieldKeys(items: seq<Json>, field: string, numberText: real -> string): (r: seq<string>)
    requires NoNullish(items)
    ensures |r| == |items|
  {
    seq(|items|, i requires 0 <= i < |items| && NoNullish(items) => JsonText(Member(items[i], field).value, numberText))
  }

  /** A tally key as shown: passed through `replace('_', ' ')` when asked. */
  function Renamed(name: string, replaceUnderscore: bool): string
  {
    if replaceUnderscore then ReplaceFirstUnderscore(name) else name
  }

  /** The tally with every name shown as `Renamed` shows it. */
  function RenameAll(t: seq<NamedCount>, replaceUnderscore: bool): (r: seq<NamedCount>)
    ensures |r| == |t|
    ensures forall i :: 0 <= i < |r| ==> r[i] == NamedCount(Renamed(t[i].name, replaceUnderscore), t[i].value)
  {
    seq(|t|, i requires 0 <= i < |t| => NamedCount(Renamed(t[i].name, replaceUnderscore), t[i].value))
  }

  /**
   * r counts the keys: one entry per distinct key, each carrying the key's
   * shown name and its number of occurrences, and every key has its entry.
   */
  ghost predicate CountsOf(r: seq<NamedCount>, keys: seq<string>, replaceUnderscore: bool)
  {
    |r| == |Seqs.Distinct(keys)|
    && (forall i :: 0 <= i < |r| ==>
          exists k :: k in keys && r[i] == NamedCount(Renamed(k, replaceUnderscore), Seqs.CountOf(keys, k)))
    && (forall k :: k in keys ==>
          exists i :: 0 <= i < |r| && r[i] == NamedCount(Renamed(k, replaceUnderscore), Seqs.CountOf(keys, k)))
  }

  /** The renamed tally counts the keys. */
  lemma RenamedTallyCounts(keys: seq<string>, replaceUnderscore: bool)
    ensures CountsOf(RenameAll(Tally(keys), replaceUnderscore), keys, replaceUnderscore)
  {
    var t := Tally(keys);
    var r := RenameAll(t, replaceUnderscore);
    TallyEntries(keys);
    TallyCoversKeys(keys);
    forall i | 0 <= i < |r|
      ensures exists k :: k in keys && r[i] == NamedCount(Renamed(k, replaceUnderscore), Seqs.CountOf(keys, k))
    {
      assert t[i] in t;
      var k := t[i].name;
      assert k in keys && r[i] == NamedCount(Renamed(k, replaceUnderscore), Seqs.CountOf(keys, k));
    }
    forall k | k in keys
      ensures exists i :: 0 <= i < |r| && r[i] == NamedCount(Renamed(k, replaceUnderscore), Seqs.CountOf(keys, k))
    {
      var e :| e in t && e.name == k;
      var i :| 0 <= i < |t| && t[i] == e;
      assert r[i] == NamedCount(Renamed(k, replaceUnderscore), Seqs.CountOf(keys, k));
    }
  }

  /**
   * What counting `container?.[listKey]` by `item[field]` gives: nothing when
   * the list is missing, a TypeError when it is not an array or holds a
   * nullish item, otherwise the counts of the keys `String(item[field])`.
   */
  ghost predicate CountedBy(container: Json, listKey: string, field: string, replaceUnderscore: bool,
                            numberText: real -> string, r: Result<seq<NamedCount>, string>)
  {
    var list := OptMember(container, listKey);
    (!JsonTruthy(list) ==> r == Ok([]))
    && (JsonTruthy(list) ==>
          (r.Err? <==> !list.Arr? || !NoNullish(list.items))
          && (r.Ok? ==>
                list.Arr? && NoNullish(list.items)
                && CountsOf(r.value, FieldKeys(list.items, field, numberText), replaceUnderscore)
                && TotalRenamed(r.value, Tally(FieldKeys(list.items, field, numberText)))))
  }

  /**
   * Counting the items of `container?.[listKey]` by `item[field]`, with names
   * optionally passed through `replace('_', ' ')`.
   */
  function CountBy(container: Json, listKey: string, field: string, replaceUnderscore: bool,
                   numberText: real -> string): (r: Result<seq<NamedCount>, string>)
    ensures CountedBy(container, listKey, field, replaceUnderscore, numberText, r)
  {
    var list := OptMember(container, listKey);
    if !JsonTruthy(list) then Ok([])
    else if !list.Arr? then Err(ReduceOfNonArray)
    else if !NoNullish(list.items) then Err(ReadOfNullish)
    else
      var keys := FieldKeys(list.items, field, numberText);
      RenamedTallyCounts(keys, replaceUnderscore);
      Ok(RenameAll(Tally(keys), replaceUnderscore))
  }

  /** The same counts, entry by entry, under possibly different names. */
  predicate TotalRenamed(r: seq<NamedCount>, t: seq<NamedCount>)
  {
    |r| == |t| && forall i :: 0 <= i < |r| ==> r[i].value == t[i].value
  }

  lemma {:induction false} TotalOfSameValues(r: seq<NamedCount>, t: seq<NamedCount>)
    requires TotalRenamed(r, t)
    ensures TotalOf(r) == TotalOf(t)
  {
    if |r| > 0 {
      TotalOfSameValues(r[..|r| - 1], t[..|t| - 1]);
    }
  }

  /** `generateUserSegmentData(userBehavior)`. */
  function GenerateUserSegmentData(userBehavior: Json, numberText: real -> string): (r: Result<seq<NamedCount>, string>)
    ensures CountedBy(userBehavior, "userSegments", "segment", true, numberText, r)
  {
    CountBy(userBehavior, "userSegments", "segment", true, numberText)
  }

  /** `generateGenreData(inventoryAnalytics)`. */
  function GenerateGenreData(inventoryAnalytics: Json, numberText: real -> string): (r: Result<seq<NamedCount>, string>)
    ensures CountedBy(inventoryAnalytics, "inventoryHealth", "genre", false, numberText, r)
  {
    CountBy(inventoryAnalytics, "inventoryHealth", "genre", false, numberText)
  }

  /** `generateInventoryStatusData(inventoryAnalytics)`. */
  function GenerateInventoryStatusData(inventoryAnalytics: Json, numberText: real -> string): (r: Result<seq<NamedCount>, string>)
    ensures CountedBy(inventoryAnalytics, "inventoryHealth", "status", true, numberText, r)
  {
    CountBy(inventoryAnalytics, "inventoryHealth", "status", true, numberText)
  }

  /** In every counter the counts add up to the number of items counted. */
  lemma CountsAddUpToItems(container: Json, listKey: string, field: string, replaceUnderscore: bool,
                           numberText: real -> string)
    requires CountBy(container, listKey, field, replaceUnderscore, numberText).Ok?
    requires JsonTruthy(OptMember(container, listKey))
    ensures TotalOf(CountBy(container, listKey, field, replaceUnderscore, numberText).value)
      == |OptMember(container, listKey).items|
  {
    var list := OptMember(container, listKey);
    var keys := FieldKeys(list.items, field, numberText);
    TallySumsToLength(keys);
    TotalOfSameValues(CountBy(container, listKey, field, replaceUnderscore, numberText).value, Tally(keys));
  }

  // ---------------------------------------------------------------------
  // Activity heatmap
  // ---------------------------------------------------------------------

  datatype HeatCell = HeatCell(day: nat, hour: nat, activity: Json, dayName: string)

  const Days: seq<string> := ["Sunday", "Monday", "Tuesday", "Wednesday", "Thursday", "Friday", "Saturday"]

  /** `generateHeatmapData(userBehavior)`: nothing without activity patterns, otherwise every hour of the week. */
  function GenerateHeatmapData(userBehavior: Json): (r: seq<HeatCell>)
    ensures |r| == 0 <==> !JsonTruthy(OptMember(userBehavior, "activityPatterns"))
    ensures |r| != 0 ==> |r| == 168
    ensures forall k :: 0 <= k < |r| ==> r[k].day < 7 && r[k].hour < 24 && r[k].day * 24 + r[k].hour == k
    ensures forall k :: 0 <= k < |r| ==> r[k].dayName == Days[r[k].day]
    ensures forall k :: 0 <= k < |r| ==>
      r[k].activity == OrElse(At(At(OptMember(userBehavior, "activityPatterns"), r[k].day), r[k].hour), Zero)
  {
    var patterns := OptMember(userBehavior, "activityPatterns");
    if !JsonTruthy(patterns) then []
    else
      seq(168, k requires 0 <= k < 168 =>
        HeatCell(k / 24, k % 24, OrElse(At(At(patterns, k / 24), k % 24), Zero), Days[k / 24]))
  }

  /** Every hour of every weekday has its cell, at position day·24 + hour. */
  lemma HeatmapCoversWeek(userBehavior: Json, day: nat, hour: nat)
    requires JsonTruthy(OptMember(userBehavior, "activityPatterns"))
    requires day < 7 && hour < 24
    ensures day * 24 + hour < |GenerateHeatmapData(userBehavior)|
    ensures GenerateHeatmapData(userBehavior)[day * 24 + hour].day == day
    ensures GenerateHeatmapData(userBehavior)[day * 24 + hour].hour == hour
  {
    var r := GenerateHeatmapData(userBehavior);
    var k := day * 24 + hour;
    assert r[k].day * 24 + r[k].hour == k;
    assert k / 24 == day && k % 24 == hour;
  }

  // ---------------------------------------------------------------------
  // Bubble series
  // ---------------------------------------------------------------------

  datatype BubblePoint = BubblePoint(name: Json, x: Option<real>, y: Json, z: Json)
  datatype BubbleSeries = BubbleSeries(name: string, data: seq<BubblePoint>)

  /** `Number(v)` of a nested value; arrays and objects are treated as NaN here. */
  function JsonNumber(j: Json): Option<real>
  {
    if j.Prim? then ToNumber(j.v) else None
  }

  /** One book's bubble: x is `popularityScore * 100` (NaN when not a number). */
  function BubbleOf(book: Json): (p: BubblePoint)
    requires !IsNullish(book)
    ensures p.x.Some? <==> JsonNumber(Member(book, "popularityScore").value).Some?
    ensures p.x.Some? ==> p.x.value == JsonNumber(Member(book, "popularityScore").value).value * 100.0
  {
    var score := JsonNumber(Member(book, "popularityScore").value);
    BubblePoint(Member(book, "title").value, if score.Some? then Some(score.value * 100.0) else None,
                Member(book, "turnoverRate").value, Member(book, "demandLevel").value)
  }

  predicate IsBookList(j: Json)
  {
    j.Arr? && NoNullish(j.items)
  }

  /** A genre's series, or the TypeError of mapping over something that is not a list of books. */
  function SeriesOf(genre: string, books: Json): (r: Result<BubbleSeries, string>)
    ensures r.Ok? <==> IsBookList(books)
    ensures r.Ok? ==> r.value.name == genre && |r.value.data| == |books.items|
    ensures r.Ok? ==> forall i :: 0 <= i < |books.items| ==> r.value.data[i] == BubbleOf(books.items[i])
  {
    if !books.Arr? then Err("TypeError: books.map is not a function")
    else if !NoNullish(books.items) then Err(ReadOfNullish)
    else Ok(BubbleSeries(genre, seq(|books.items|, i requires 0 <= i < |books.items| && NoNullish(books.items) =>
      BubbleOf(books.items[i]))))
  }

  /** The series for the genres in `order`, stopping at the first one that throws. */
  function SeriesFor(order: seq<string>, fields: map<string, Json>): (r: Result<seq<BubbleSeries>, string>)
    requires forall k :: k in order ==> k in fields
    ensures r.Ok? <==> forall i :: 0 <= i < |order| ==> IsBookList(fields[order[i]])
    ensures r.Ok? ==> |r.value| == |order| && forall i :: 0 <= i < |order| ==>
      r.value[i] == SeriesOf(order[i], fields[order[i]]).value
  {
    if |order| == 0 then Ok([])
    else
      match SeriesFor(order[..|order| - 1], fields)
      case Err(e) => Err(e)
      case Ok(init) =>
        var g := order[|order| - 1];
        match SeriesOf(g, fields[g])
        case Err(e) => Err(e)
        case Ok(s) => Ok(init + [s])
  }

  /**
   * `generateBubbleData(inventoryAnalytics)` for a `bookPerformance` object
   * whose keys were inserted in the order `keys` (the order of the response
   * text): one series per genre, in `Object.entries` order.
   */
  function GenerateBubbleData(inventoryAnalytics: Json, keys: seq<string>): (r: Result<seq<BubbleSeries>, string>)
    requires var perf := OptMember(inventoryAnalytics, "bookPerformance");
      perf.Obj? ==> Seqs.NoDuplicates(keys) && (forall k :: k in keys <==> k in perf.fields)
    ensures !JsonTruthy(OptMember(inventoryAnalytics, "bookPerformance")) ==> r == Ok([])
    ensures var perf := OptMember(inventoryAnalytics, "bookPerformance");
      perf.Obj? && r.Ok? ==>
        (|r.value| == |keys| && forall i :: 0 <= i < |keys| ==> r.value[i].name == EntryOrder(keys)[i])
  {
    var perf := OptMember(inventoryAnalytics, "bookPerformance");
    if !JsonTruthy(perf) then Ok([])
    else if perf.Obj? then
      SeriesFor(EntryOrder(keys), perf.fields)
    else if perf.Arr? then
      // the entries of an array are its elements under the keys "0", "1", ...
      var indexKeys := seq(|perf.items|, i requires 0 <= i < |perf.items| => Calendar.Digits(i));
      SeriesFor(indexKeys, Spread(perf))
    else if perf.v.Str? then Err("TypeError: books.map is not a function")
    else Ok([])
  }

  /** Each point of a genre's series is one book of that genre, with x its popularity score scaled to percent. */
  lemma BubblesFollowBooks(inventoryAnalytics: Json, keys: seq<string>, i: nat, j: nat)
    requires var perf := OptMember(inventoryAnalytics, "bookPerformance");
      perf.Obj? && Seqs.NoDuplicates(keys) && (forall k :: k in keys <==> k in perf.fields)
    requires GenerateBubbleData(inventoryAnalytics, keys).Ok?
    requires i < |keys|
    ensures var perf := OptMember(inventoryAnalytics, "bookPerformance");
      var books := perf.fields[EntryOrder(keys)[i]];
      books.Arr? && i < |GenerateBubbleData(inventoryAnalytics, keys).value|
      && |GenerateBubbleData(inventoryAnalytics, keys).value[i].data| == |books.items|
      && (j < |books.items| ==> GenerateBubbleData(inventoryAnalytics, keys).value[i].data[j] == BubbleOf(books.items[j]))
  {
    var perf := OptMember(inventoryAnalytics, "bookPerformance");
    var order := EntryOrder(keys);
    var r := SeriesFor(order, perf.fields);
    assert GenerateBubbleData(inventoryAnalytics, keys) == r;
    assert IsBookList(perf.fields[order[i]]);
    assert r.value[i] == SeriesOf(order[i], perf.fields[order[i]]).value;
  }
}
