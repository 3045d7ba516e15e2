/**
 * The table side of the data explorer: the filter list, free-text search,
 * the brush window, grouping with an aggregation function, column sort and
 * paging.  A row is a record of JavaScript values; rendering a number as
 * text (`String(x)`) is the platform's `numberText`.
 */
module DataExplorer {
  import opened Wrappers
  import opened JsValues
  import Seqs
  import Calendar

  // ---------------------------------------------------------------------
  // Filters
  // ---------------------------------------------------------------------

  /** The operators the filter row offers; `Other` is any other string, which keeps every row. */
  datatype Operator = Eq | Neq | Gt | Gte | Lt | Lte | Contains | Between | Other(name: string)

  /**
   * What the value inputs hold: one text, or the two ends of a `between`
   * filter (a JavaScript array). An end the user has not typed is whatever
   * indexing the previous value gave, possibly `undefined` (`None`).
   */
  datatype FilterValue = Single(text: string) | Range(lo: Option<string>, hi: Option<string>)

  datatype Filter = Filter(field: string, operator: Operator, value: FilterValue, availableFields: seq<string>)

  /** `filter.value` used as an operand of `>`: an array converts to its comma-joined text. */
  function Operand(v: FilterValue): Value
  {
    match v
    case Single(t) => Str(t)
    case Range(lo, hi) => Str(EndText(lo) + "," + EndText(hi))
  }

  /** An array element as `Array.prototype.join` writes it: `undefined` becomes the empty text. */
  function EndText(e: Option<string>): string
  {
    if e.Some? then e.value else ""
  }

  /** One end of a range as a value: `undefined` when missing. */
  function EndValue(e: Option<string>): Value
  {
    if e.Some? then Str(e.value) else Undefined
  }

  /** `filter.value[i]` for i in {0, 1}: one character of a text, or one end of a range. */
  function Bound(v: FilterValue, i: nat): Value
    requires i < 2
  {
    match v
    case Range(lo, hi) => EndValue(if i == 0 then lo else hi)
    case Single(t) => if i < |t| then Str([t[i]]) else Undefined
  }

  /** `filter.value[i]` read back as a range end. */
  function End(v: FilterValue, i: nat): Option<string>
    requires i < 2
  {
    match v
    case Range(lo, hi) => if i == 0 then lo else hi
    case Single(t) => if i < |t| then Some([t[i]]) else None
  }

  /**
   * Typing `text` into box i of a `between` filter: the value becomes the
   * array of the typed text and `filter.value[1 - i]` of the old value.
   */
  function EditBetween(f: Filter, i: nat, text: string): (r: Filter)
    requires i < 2
    ensures r.value.Range? && End(r.value, i) == Some(text)
    ensures Bound(r.value, 1 - i) == Bound(f.value, 1 - i)
    ensures r.field == f.field && r.operator == f.operator && r.availableFields == f.availableFields
  {
    var other := End(f.value, 1 - i);
    f.(value := if i == 0 then Range(Some(text), other) else Range(other, Some(text)))
  }

  /** A `contains` filter whose value is an array throws, since arrays have no `toLowerCase`. */
  predicate Throws(f: Filter)
  {
    f.operator == Contains && f.value.Range?
  }

  /** Whether one row passes one filter, following the operator switch. */
  predicate Matches(item: Record, f: Filter, numberText: real -> string)
  {
    var value := Get(item, f.field);
    match f.operator
    case Eq => f.value.Single? && value == Str(f.value.text)
    case Neq => !(f.value.Single? && value == Str(f.value.text))
    case Gt => Less(Operand(f.value), value)
    case Gte => LessOrEqual(Operand(f.value), value)
    case Lt => Less(value, Operand(f.value))
    case Lte => LessOrEqual(value, Operand(f.value))
    case Contains => f.value.Single? && Includes(Lower(Text(value, numberText)), Lower(f.value.text))
    case Between => LessOrEqual(Bound(f.value, 0), value) && LessOrEqual(value, Bound(f.value, 1))
    case Other(_) => true
  }

  const ContainsOnArray := "TypeError: filter.value.toLowerCase is not a function"

  /** `result.filter(item => ...)` for one filter. */
  function ApplyFilter(rows: seq<Record>, f: Filter, numberText: real -> string): (r: Result<seq<Record>, string>)
    ensures r.Err? <==> Throws(f) && |rows| > 0
    ensures r.Ok? ==> r.value == Seqs.Filter(rows, (item: Record) => Matches(item, f, numberText))
  {
    if Throws(f) && |rows| > 0 then Err(ContainsOnArray)
    else Ok(Seqs.Filter(rows, (item: Record) => Matches(item, f, numberText)))
  }

  /** `filters.forEach(...)`: the filters in sequence, each on the survivors of the previous ones. */
  function ApplyFilters(rows: seq<Record>, filters: seq<Filter>, numberText: real -> string): (r: Result<seq<Record>, string>)
    decreases |filters|
  {
    if |filters| == 0 then Ok(rows)
    else
      match ApplyFilters(rows, filters[..|filters| - 1], numberText)
      case Err(e) => Err(e)
      case Ok(kept) => ApplyFilter(kept, filters[|filters| - 1], numberText)
  }

  /** A row passes every filter of the list. */
  predicate PassesAll(item: Record, filters: seq<Filter>, numberText: real -> string)
    decreases |filters|
  {
    |filters| == 0
    || (PassesAll(item, filters[..|filters| - 1], numberText) && Matches(item, filters[|filters| - 1], numberText))
  }

  /** Passing the list means passing each filter in it. */
  lemma {:induction false} PassesAllEach(item: Record, filters: seq<Filter>, numberText: real -> string)
    ensures PassesAll(item, filters, numberText) <==> forall i :: 0 <= i < |filters| ==> Matches(item, filters[i], numberText)
    decreases |filters|
  {
    if |filters| > 0 {
      var init := filters[..|filters| - 1];
      PassesAllEach(item, init, numberText);
      assert forall i :: 0 <= i < |init| ==> init[i] == filters[i];
    }
  }

  /**
   * The filters act conjunctively: a row survives exactly when it is an input
   * row that passes every filter, and survivors keep their input order.
   */
  lemma {:induction false} FiltersAreConjunctive(rows: seq<Record>, filters: seq<Filter>, numberText: real -> string)
    requires ApplyFilters(rows, filters, numberText).Ok?
    ensures ApplyFilters(rows, filters, numberText).value
      == Seqs.Filter(rows, (item: Record) => PassesAll(item, filters, numberText))
    decreases |filters|
  {
    if |filters| > 0 {
      var init := filters[..|filters| - 1];
      var f := filters[|filters| - 1];
      FiltersAreConjunctive(rows, init, numberText);
      var kept := ApplyFilters(rows, init, numberText).value;
      assert ApplyFilters(rows, filters, numberText) == ApplyFilter(kept, f, numberText);
      var p := (item: Record) => PassesAll(item, init, numberText);
      var q := (item: Record) => Matches(item, f, numberText);
      var pq := (item: Record) => PassesAll(item, filters, numberText);
      Seqs.FilterTwice(rows, p, q, pq);
    } else {
      Seqs.FilterAll(rows, (item: Record) => PassesAll(item, filters, numberText));
    }
  }

  /** An unknown operator keeps every row. */
  lemma UnknownOperatorKeepsAll(rows: seq<Record>, f: Filter, numberText: real -> string)
    requires f.operator.Other?
    ensures ApplyFilter(rows, f, numberText) == Ok(rows)
  {
    Seqs.FilterAll(rows, (item: Record) => Matches(item, f, numberText));
  }

  /** `between` on a numeric field with two digit-string bounds is an inclusive range test. */
  lemma BetweenIsInclusive(item: Record, f: Filter, numberText: real -> string, x: real)
    requires f.operator == Between && f.value.Range? && f.value.lo.Some? && f.value.hi.Some?
    requires Calendar.IsDigits(f.value.lo.value) && |f.value.lo.value| > 0
    requires Calendar.IsDigits(f.value.hi.value) && |f.value.hi.value| > 0
    requires Get(item, f.field) == Num(x)
    ensures Matches(item, f, numberText)
      <==> Calendar.ParseDigits(f.value.lo.value) as real <= x <= Calendar.ParseDigits(f.value.hi.value) as real
  {
    JsValues.DigitsRead(f.value.lo.value);
    JsValues.DigitsRead(f.value.hi.value);
    assert Bound(f.value, 0) == Str(f.value.lo.value) && Bound(f.value, 1) == Str(f.value.hi.value);
  }

  /** A `between` filter with a missing end compares against `undefined` and keeps no row. */
  lemma MissingEndKeepsNone(rows: seq<Record>, f: Filter, numberText: real -> string)
    requires f.operator == Between && (Bound(f.value, 0) == Undefined || Bound(f.value, 1) == Undefined)
    ensures ApplyFilter(rows, f, numberText) == Ok([])
  {
    var kept := Seqs.Filter(rows, (item: Record) => Matches(item, f, numberText));
    if |kept| > 0 {
      assert kept[0] in kept;
    }
  }

  /**
   * A new filter switched to `between` and given one bound keeps no row:
   * its value was `''`, so the other end reads `''[i]`, which is `undefined`.
   */
  lemma OneBoxKeepsNone(rows: seq<Record>, filters: seq<Filter>, fields: seq<string>, i: nat, text: string, numberText: real -> string)
    requires i < 2
    ensures var f := AddFilter(filters, fields)[|filters|].(operator := Between);
      ApplyFilter(rows, EditBetween(f, i, text), numberText) == Ok([])
  {
    var f := AddFilter(filters, fields)[|filters|].(operator := Between);
    MissingEndKeepsNone(rows, EditBetween(f, i, text), numberText);
  }

  /** `eq` and `neq` are complementary. */
  lemma EqNeqComplementary(item: Record, field: string, v: FilterValue, fields: seq<string>, numberText: real -> string)
    ensures Matches(item, Filter(field, Neq, v, fields), numberText) <==> !Matches(item, Filter(field, Eq, v, fields), numberText)
  {
  }

  // ---------------------------------------------------------------------
  // Search and brush
  // ---------------------------------------------------------------------

  /** `Object.values(item).some(value => String(value).toLowerCase().includes(term.toLowerCase()))`. */
  predicate Found(item: Record, term: string, numberText: real -> string)
  {
    exists k :: k in item && Includes(Lower(Text(item[k], numberText)), Lower(term))
  }

  /** The search step: an empty term keeps everything. */
  function Search(rows: seq<Record>, term: string, numberText: real -> string): (r: seq<Record>)
    ensures term == "" ==> r == rows
    ensures term != "" ==> r == Seqs.Filter(rows, (item: Record) => Found(item, term, numberText))
  {
    if term == "" then rows else Seqs.Filter(rows, (item: Record) => Found(item, term, numberText))
  }

  /** The two intervals the brush selects. */
  datatype Brush = Brush(x0: real, x1: real, y0: real, y1: real)

  predicate InBrush(item: Record, b: Brush, xAxis: string, yAxis: string)
  {
    LessOrEqual(Num(b.x0), Get(item, xAxis)) && LessOrEqual(Get(item, xAxis), Num(b.x1))
    && LessOrEqual(Num(b.y0), Get(item, yAxis)) && LessOrEqual(Get(item, yAxis), Num(b.y1))
  }

  /** The brush step: rows whose x and y values lie in the brushed window, when a brush is set. */
  function BrushFilter(rows: seq<Record>, brush: Option<Brush>, xAxis: string, yAxis: string): seq<Record>
  {
    if brush.None? then rows else Seqs.Filter(rows, (item: Record) => InBrush(item, brush.value, xAxis, yAxis))
  }

  /** `filteredData`: filters, then search, then brush. */
  function FilteredData(rows: seq<Record>, filters: seq<Filter>, term: string, brush: Option<Brush>,
                        xAxis: string, yAxis: string, numberText: real -> string): (r: Result<seq<Record>, string>)
    ensures r.Err? <==> ApplyFilters(rows, filters, numberText).Err?
    ensures r.Ok? ==> |r.value| <= |rows|
  {
    match ApplyFilters(rows, filters, numberText)
    case Err(e) => Err(e)
    case Ok(kept) =>
      FiltersAreConjunctive(rows, filters, numberText);
      Ok(BrushFilter(Search(kept, term, numberText), brush, xAxis, yAxis))
  }

  /** A row is shown exactly when it is an input row that passes the filters, the search and the brush. */
  lemma FilteredDataMembership(rows: seq<Record>, filters: seq<Filter>, term: string, brush: Option<Brush>,
                               xAxis: string, yAxis: string, numberText: real -> string, item: Record)
    requires FilteredData(rows, filters, term, brush, xAxis, yAxis, numberText).Ok?
    ensures item in FilteredData(rows, filters, term, brush, xAxis, yAxis, numberText).value
      <==> item in rows && PassesAll(item, filters, numberText)
           && (term == "" || Found(item, term, numberText))
           && (brush.None? || InBrush(item, brush.value, xAxis, yAxis))
  {
    FiltersAreConjunctive(rows, filters, numberText);
    var kept := ApplyFilters(rows, filters, numberText).value;
    var pAll := (i: Record) => PassesAll(i, filters, numberText);
    var pFound := (i: Record) => Found(i, term, numberText);
    var searched := Search(kept, term, numberText);
    if item in rows && pAll(item) {
      Seqs.FilterKeeps(rows, pAll, item);
      if term != "" && pFound(item) {
        Seqs.FilterKeeps(kept, pFound, item);
      }
      if item in searched && brush.Some? && InBrush(item, brush.value, xAxis, yAxis) {
        Seqs.FilterKeeps(searched, (i: Record) => InBrush(i, brush.value, xAxis, yAxis), item);
      }
    }
  }

  // ---------------------------------------------------------------------
  // Grouping
  // ---------------------------------------------------------------------

  datatype Aggregation = Sum | Avg | Min | Max | Count

  /** `values.reduce((a, b) => a + b, 0)` with JavaScript `+`. */
  function SumValues(values: seq<Value>, numberText: real -> string): Value
  {
    if |values| == 0 then Num(0.0)
    else Plus(SumValues(values[..|values| - 1], numberText), values[|values| - 1], numberText)
  }

  /** `Math.min(...values)` / `Math.max(...values)` of a non-empty list: NaN as soon as one value is not a number. */
  function Extreme(values: seq<Value>, largest: bool): (r: Value)
    requires |values| > 0
    ensures r.Num? <==> forall i :: 0 <= i < |values| ==> ToNumber(values[i]).Some?
  {
    var last := ToNumber(values[|values| - 1]);
    if |values| == 1 then (if last.Some? then Num(last.value) else NaN)
    else
      var rest := Extreme(values[..|values| - 1], largest);
      assert forall i :: 0 <= i < |values| - 1 ==> values[..|values| - 1][i] == values[i];
      if rest.Num? && last.Some? then
        Num(if largest == (rest.n < last.value) then last.value else rest.n)
      else NaN
  }

  /** `AGGREGATION_FUNCTIONS[fn](values)` for the values of one (never empty) group. */
  function Aggregate(fn: Aggregation, values: seq<Value>, numberText: real -> string): (r: Value)
    requires |values| > 0
    ensures fn == Count ==> r == Num(|values| as real)
  {
    match fn
    case Sum => SumValues(values, numberText)
    case Avg =>
      var total := ToNumber(SumValues(values, numberText));
      if total.Some? then Num(total.value / (|values| as real)) else NaN
    case Min => Extreme(values, false)
    case Max => Extreme(values, true)
    case Count => Num(|values| as real)
  }

  function Numbers(values: seq<real>): (r: seq<Value>)
    ensures |r| == |values| && forall i :: 0 <= i < |values| ==> r[i] == Num(values[i])
  {
    seq(|values|, i requires 0 <= i < |values| => Num(values[i]))
  }

  /** On numbers, `sum` adds them up. */
  lemma {:induction false} SumOfNumbers(values: seq<real>, numberText: real -> string)
    ensures SumValues(Numbers(values), numberText) == Num(Seqs.Sum(values))
    decreases |values|
  {
    if |values| > 0 {
      var init := values[..|values| - 1];
      assert Numbers(values)[..|values| - 1] == Numbers(init);
      SumOfNumbers(init, numberText);
    }
  }

  /** On numbers, `avg` is the sum divided by the group size, and `min`/`max` are the extremes. */
  lemma AggregatesOfNumbers(values: seq<real>, numberText: real -> string)
    requires |values| > 0
    ensures Aggregate(Sum, Numbers(values), numberText) == Num(Seqs.Sum(values))
    ensures Aggregate(Avg, Numbers(values), numberText) == Num(Seqs.Mean(values))
    ensures Aggregate(Min, Numbers(values), numberText) == Num(Seqs.Min(values))
    ensures Aggregate(Max, Numbers(values), numberText) == Num(Seqs.Max(values))
  {
    SumOfNumbers(values, numberText);
    ExtremeOfNumbers(values, false);
    ExtremeOfNumbers(values, true);
  }

  lemma {:induction false} ExtremeOfNumbers(values: seq<real>, largest: bool)
    requires |values| > 0
    ensures Extreme(Numbers(values), largest) == Num(if largest then Seqs.Max(values) else Seqs.Min(values))
    decreases |values|
  {
    if |values| > 1 {
      var init := values[..|values| - 1];
      assert Numbers(values)[..|values| - 1] == Numbers(init);
      ExtremeOfNumbers(init, largest);
      var e := Extreme(Numbers(values), largest);
      var bound := if largest then Seqs.Max(values) else Seqs.Min(values);
      assert e.Num?;
      // Both sides are the extreme of the same values: each is attained and bounds all values.
      assert forall i :: 0 <= i < |init| ==> init[i] == values[i];
      if largest {
        assert e.n in values && forall i :: 0 <= i < |values| ==> values[i] <= e.n;
        assert bound in values && forall i :: 0 <= i < |values| ==> values[i] <= bound;
      } else {
        assert e.n in values && forall i :: 0 <= i < |values| ==> e.n <= values[i];
        assert bound in values && forall i :: 0 <= i < |values| ==> bound <= values[i];
      }
    }
  }

  /** The property key a grouping value becomes: `String(item[aggregateBy])`. */
  function GroupKey(item: Record, aggregateBy: string, numberText: real -> string): string
  {
    Text(Get(item, aggregateBy), numberText)
  }

  function GroupKeys(rows: seq<Record>, aggregateBy: string, numberText: real -> string): (r: seq<string>)
    ensures |r| == |rows| && forall i :: 0 <= i < |rows| ==> r[i] == GroupKey(rows[i], aggregateBy, numberText)
  {
    seq(|rows|, i requires 0 <= i < |rows| => GroupKey(rows[i], aggregateBy, numberText))
  }

  /** One output row per group: the key, the aggregated y value and the group size, later keys overriding earlier ones. */
  function GroupRow(key: string, items: seq<Record>, aggregateBy: string, fn: Aggregation, yAxis: string,
                    numberText: real -> string): Record
    requires |items| > 0
  {
    var ys := seq(|items|, i requires 0 <= i < |items| => Get(items[i], yAxis));
    map[aggregateBy := Str(key)][yAxis := Aggregate(fn, ys, numberText)]["count" := Num(|items| as real)]
  }

  /** The rows of one group, in their original order. */
  function GroupItems(rows: seq<Record>, key: string, aggregateBy: string, numberText: real -> string): seq<Record>
  {
    Seqs.Filter(rows, (item: Record) => GroupKey(item, aggregateBy, numberText) == key)
  }

  /**
   * The properties every plain object inherits from `Object.prototype`.
   * `groups[key]` is already truthy for these keys (a function, or the
   * prototype itself for `__proto__`), so no array is made for them.
   */
  const InheritedKeys: set<string> := {
    "constructor", "__defineGetter__", "__defineSetter__", "hasOwnProperty",
    "__lookupGetter__", "__lookupSetter__", "isPrototypeOf", "propertyIsEnumerable",
    "toString", "valueOf", "__proto__", "toLocaleString"}

  const PushOnInherited := "TypeError: groups[key].push is not a function"

  /** Some row's group key names an inherited property of the `groups` object. */
  predicate HitsInherited(rows: seq<Record>, aggregateBy: string, numberText: real -> string)
  {
    exists i :: 0 <= i < |rows| && GroupKey(rows[i], aggregateBy, numberText) in InheritedKeys
  }

  /** The group rows when every key is an own property of `groups`: one per distinct key, in entry order. */
  function GroupedRows(rows: seq<Record>, aggregateBy: string, fn: Aggregation, yAxis: string,
                       numberText: real -> string): (r: seq<Record>)
    ensures |r| == |Seqs.Distinct(GroupKeys(rows, aggregateBy, numberText))|
  {
    var order := EntryOrder(Seqs.Distinct(GroupKeys(rows, aggregateBy, numberText)));
    assert |order| == |Seqs.Distinct(GroupKeys(rows, aggregateBy, numberText))| by {
      assert |multiset(order)| == |order|;
    }
    seq(|order|, i requires 0 <= i < |order| =>
      var items := GroupItems(rows, order[i], aggregateBy, numberText);
      GroupNonEmpty(rows, order[i], aggregateBy, numberText, order);
      GroupRow(order[i], items, aggregateBy, fn, yAxis, numberText))
  }

  /**
   * `aggregatedData`: unchanged without a grouping field, else one row per
   * distinct key; `push` throws as soon as a row's key is an inherited
   * property name.
   */
  function AggregatedData(rows: seq<Record>, aggregateBy: string, fn: Aggregation, yAxis: string,
                          numberText: real -> string): (r: Result<seq<Record>, string>)
    ensures aggregateBy == "" ==> r == Ok(rows)
    ensures aggregateBy != "" ==> (r.Err? <==> HitsInherited(rows, aggregateBy, numberText))
    ensures r.Err? ==> r.error == PushOnInherited
    ensures aggregateBy != "" && r.Ok? ==> |r.value| == |Seqs.Distinct(GroupKeys(rows, aggregateBy, numberText))|
    ensures aggregateBy != "" && r.Ok? ==> r.value == GroupedRows(rows, aggregateBy, fn, yAxis, numberText)
  {
    if aggregateBy == "" then Ok(rows)
    else if HitsInherited(rows, aggregateBy, numberText) then Err(PushOnInherited)
    else Ok(GroupedRows(rows, aggregateBy, fn, yAxis, numberText))
  }

  /** Grouping by a field whose value is the text "constructor" throws. */
  lemma ConstructorKeyThrows(rows: seq<Record>, aggregateBy: string, fn: Aggregation, yAxis: string, numberText: real -> string)
    requires aggregateBy != "" && |rows| > 0 && Get(rows[0], aggregateBy) == Str("constructor")
    ensures AggregatedData(rows, aggregateBy, fn, yAxis, numberText) == Err(PushOnInherited)
  {
    assert GroupKey(rows[0], aggregateBy, numberText) in InheritedKeys;
  }

  /** Every key of the entry order names a non-empty group. */
  lemma GroupNonEmpty(rows: seq<Record>, key: string, aggregateBy: string, numberText: real -> string, order: seq<string>)
    requires order == EntryOrder(Seqs.Distinct(GroupKeys(rows, aggregateBy, numberText)))
    requires key in order
    ensures |GroupItems(rows, key, aggregateBy, numberText)| > 0
  {
    var keys := GroupKeys(rows, aggregateBy, numberText);
    assert key in multiset(order);
    assert key in Seqs.Distinct(keys);
    var i :| 0 <= i < |keys| && keys[i] == key;
    Seqs.FilterKeeps(rows, (item: Record) => GroupKey(item, aggregateBy, numberText) == key, rows[i]);
  }

  /** The size of a group is the number of rows carrying its key. */
  lemma {:induction false} GroupSize(rows: seq<Record>, key: string, aggregateBy: string, numberText: real -> string)
    ensures |GroupItems(rows, key, aggregateBy, numberText)| == Seqs.CountOf(GroupKeys(rows, aggregateBy, numberText), key)
    decreases |rows|
  {
    if |rows| > 0 {
      var init := rows[..|rows| - 1];
      GroupSize(init, key, aggregateBy, numberText);
      var keys := GroupKeys(rows, aggregateBy, numberText);
      assert keys == GroupKeys(init, aggregateBy, numberText) + [keys[|rows| - 1]];
      Seqs.CountOfAppend(GroupKeys(init, aggregateBy, numberText), [keys[|rows| - 1]], key);
      assert [keys[|rows| - 1]][..0] == [];
    }
  }

  /** Each group row reports its group's size, and the sizes add up to the number of rows grouped. */
  lemma GroupCountsAddUp(rows: seq<Record>, aggregateBy: string, fn: Aggregation, yAxis: string, numberText: real -> string)
    ensures var keys := GroupKeys(rows, aggregateBy, numberText);
            var order := EntryOrder(Seqs.Distinct(keys));
            |order| == |GroupedRows(rows, aggregateBy, fn, yAxis, numberText)|
            && (forall i :: 0 <= i < |order| ==>
                  GroupedRows(rows, aggregateBy, fn, yAxis, numberText)[i]["count"] == Num(Seqs.CountOf(keys, order[i]) as real))
            && Seqs.CountsOver(order, keys) == |rows|
  {
    var keys := GroupKeys(rows, aggregateBy, numberText);
    var order := EntryOrder(Seqs.Distinct(keys));
    var r := GroupedRows(rows, aggregateBy, fn, yAxis, numberText);
    assert |order| == |r| by {
      assert |multiset(order)| == |order|;
    }
    forall i | 0 <= i < |order|
      ensures "count" in r[i] && r[i]["count"] == Num(Seqs.CountOf(keys, order[i]) as real)
    {
      GroupRowCount(rows, aggregateBy, fn, yAxis, numberText, i);
    }
    Seqs.GroupCountsSumToLength(keys);
    Seqs.CountsOverPermutation(Seqs.Distinct(keys), order, keys);
  }

  /** The i-th group row's count is the number of rows with the i-th key. */
  lemma GroupRowCount(rows: seq<Record>, aggregateBy: string, fn: Aggregation, yAxis: string, numberText: real -> string, i: nat)
    requires i < |EntryOrder(Seqs.Distinct(GroupKeys(rows, aggregateBy, numberText)))|
    ensures var keys := GroupKeys(rows, aggregateBy, numberText);
            var key := EntryOrder(Seqs.Distinct(keys))[i];
            var r := GroupedRows(rows, aggregateBy, fn, yAxis, numberText);
            i < |r| && "count" in r[i] && r[i]["count"] == Num(Seqs.CountOf(keys, key) as real)
  {
    var keys := GroupKeys(rows, aggregateBy, numberText);
    var order := EntryOrder(Seqs.Distinct(keys));
    assert |multiset(order)| == |order|;
    GroupSize(rows, order[i], aggregateBy, numberText);
  }

  // ---------------------------------------------------------------------
  // Sorting
  // ---------------------------------------------------------------------

  datatype Direction = Asc | Desc

  datatype SortState = SortState(sortBy: string, direction: Direction)

  /** `handleSort(field)`: the same column flips the direction, a new column sorts ascending. */
  function HandleSort(s: SortState, field: string): (r: SortState)
    ensures r.sortBy == field
    ensures s.sortBy == field ==> r.direction != s.direction
    ensures s.sortBy != field ==> r.direction == Asc
  {
    if s.sortBy == field then s.(direction := if s.direction == Asc then Desc else Asc)
    else SortState(field, Asc)
  }

  /** Clicking the same column twice restores the original state. */
  lemma HandleSortTwice(s: SortState, field: string)
    ensures HandleSort(HandleSort(s, field), field) == (if s.sortBy == field then s else SortState(field, Desc))
  {
  }

  /** Row a may come before row b: the comparator `a > b ? 1 : -1` (or its mirror) returns −1. */
  predicate Before(a: Record, b: Record, s: SortState)
  {
    if s.direction == Asc then !Less(Get(b, s.sortBy), Get(a, s.sortBy))
    else !Less(Get(a, s.sortBy), Get(b, s.sortBy))
  }

  /** `sortedData`: a sorted copy unless no sort column is chosen. */
  function SortedData(rows: seq<Record>, s: SortState): (r: seq<Record>)
    ensures |r| == |rows| && multiset(r) == multiset(rows)
    ensures s.sortBy == "" ==> r == rows
  {
    if s.sortBy == "" then rows else Seqs.SortWith(rows, (a: Record, b: Record) => Before(a, b, s))
  }

  /** On a numeric column the sorted rows are in ascending (or descending) order of that column. */
  lemma SortedByNumbers(rows: seq<Record>, s: SortState)
    requires s.sortBy != ""
    requires forall i :: 0 <= i < |rows| ==> Get(rows[i], s.sortBy).Num?
    ensures forall i :: 0 <= i < |rows| ==> Get(SortedData(rows, s)[i], s.sortBy).Num?
    ensures forall i, j :: 0 <= i < j < |rows| ==>
      var a, b := Get(SortedData(rows, s)[i], s.sortBy).n, Get(SortedData(rows, s)[j], s.sortBy).n;
      if s.direction == Asc then a <= b else b <= a
  {
    var le := (a: Record, b: Record) => Before(a, b, s);
    forall a | a in rows
      ensures Get(a, s.sortBy).Num?
    {
      var i :| 0 <= i < |rows| && rows[i] == a;
    }
    Seqs.SortWithOrdered(rows, le);
    var r := SortedData(rows, s);
    forall i | 0 <= i < |r|
      ensures Get(r[i], s.sortBy).Num?
    {
      assert r[i] in multiset(rows);
    }
  }

  /** On a text column the sorted rows are in code-unit order of that column. */
  lemma SortedByText(rows: seq<Record>, s: SortState)
    requires s.sortBy != "" && s.direction == Asc
    requires forall i :: 0 <= i < |rows| ==> Get(rows[i], s.sortBy).Str?
    ensures forall i :: 0 <= i < |rows| ==> Get(SortedData(rows, s)[i], s.sortBy).Str?
    ensures forall i, j :: 0 <= i < j < |rows| ==>
      !StringLess(Get(SortedData(rows, s)[j], s.sortBy).s, Get(SortedData(rows, s)[i], s.sortBy).s)
  {
    var le := (a: Record, b: Record) => Before(a, b, s);
    forall a | a in rows
      ensures Get(a, s.sortBy).Str?
    {
      var i :| 0 <= i < |rows| && rows[i] == a;
    }
    forall a, b | a in rows && b in rows
      ensures le(a, b) || le(b, a)
    {
      var x, y := Get(a, s.sortBy).s, Get(b, s.sortBy).s;
      if x == y {
        StringLessIrreflexive(x);
      } else if StringLess(x, y) && StringLess(y, x) {
        StringLessTransitive(x, y, x);
        StringLessIrreflexive(x);
      }
    }
    forall a, b, c | a in rows && b in rows && c in rows && le(a, b) && le(b, c)
      ensures le(a, c)
    {
      var x, y, z := Get(a, s.sortBy).s, Get(b, s.sortBy).s, Get(c, s.sortBy).s;
      if StringLess(z, x) && x != y {
        StringLessTotal(x, y);
        StringLessTransitive(z, x, y);
      }
    }
    Seqs.SortWithOrdered(rows, le);
    var r := SortedData(rows, s);
    forall i | 0 <= i < |r|
      ensures Get(r[i], s.sortBy).Str?
    {
      assert r[i] in multiset(rows);
    }
  }

  // ---------------------------------------------------------------------
  // Filter list and paging
  // ---------------------------------------------------------------------

  /** `handleAddFilter`: appends an `eq` filter on the first field with an empty value (`fields[0]` is `undefined` when there are none). */
  function AddFilter(filters: seq<Filter>, fields: seq<string>): (r: seq<Filter>)
    ensures |r| == |filters| + 1 && r[..|filters|] == filters
    ensures r[|filters|].operator == Eq && r[|filters|].value == Single("")
    ensures r[|filters|].field == (if |fields| > 0 then fields[0] else "undefined")
  {
    filters + [Filter(if |fields| > 0 then fields[0] else "undefined", Eq, Single(""), fields)]
  }

  /** `handleFilterChange(index, newFilter)` for the index of a displayed filter. */
  function ChangeFilter(filters: seq<Filter>, index: nat, f: Filter): (r: seq<Filter>)
    requires index < |filters|
    ensures |r| == |filters| && r[index] == f
    ensures forall j :: 0 <= j < |filters| && j != index ==> r[j] == filters[j]
  {
    filters[index := f]
  }

  /** `handleRemoveFilter(index)`: drops exactly that position; an index past the end changes nothing. */
  function RemoveFilter(filters: seq<Filter>, index: nat): (r: seq<Filter>)
    ensures index < |filters| ==> |r| == |filters| - 1
    ensures index < |filters| ==> forall j :: 0 <= j < |r| ==> r[j] == if j < index then filters[j] else filters[j + 1]
    ensures index >= |filters| ==> r == filters
  {
    if index < |filters| then filters[..index] + filters[index + 1..] else filters
  }

  /** Removing a freshly added filter restores the list. */
  lemma AddThenRemove(filters: seq<Filter>, fields: seq<string>)
    ensures RemoveFilter(AddFilter(filters, fields), |filters|) == filters
  {
  }

  /** `sortedData.slice(page * rowsPerPage, (page + 1) * rowsPerPage)`, with `slice` clamping to the length. */
  function Page<T>(rows: seq<T>, page: nat, rowsPerPage: nat): (r: seq<T>)
    ensures |r| <= rowsPerPage
    ensures forall i :: 0 <= i < |r| ==> page * rowsPerPage + i < |rows| && r[i] == rows[page * rowsPerPage + i]
  {
    var start := page * rowsPerPage;
    var end := start + rowsPerPage;
    if start >= |rows| then []
    else if end >= |rows| then rows[start..]
    else rows[start..end]
  }

  /** Every row appears on page i / rowsPerPage at position i % rowsPerPage. */
  lemma RowOnItsPage<T>(rows: seq<T>, rowsPerPage: nat, i: nat)
    requires rowsPerPage > 0 && i < |rows|
    ensures i % rowsPerPage < |Page(rows, i / rowsPerPage, rowsPerPage)|
    ensures Page(rows, i / rowsPerPage, rowsPerPage)[i % rowsPerPage] == rows[i]
  {
    var p := i / rowsPerPage;
    assert p * rowsPerPage + i % rowsPerPage == i;
  }
}
