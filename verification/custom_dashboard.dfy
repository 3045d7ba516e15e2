/**
 * The user-arranged dashboard: an ordered list of widgets (plain objects with
 * an `id`, a title, a chart type, a grid width, a pixel height and a
 * configuration) that can be reordered by dragging, added, edited and
 * deleted, and the dialog that fills in a widget's fields.
 */
module CustomDashboard {
  import opened Wrappers
  import opened JsValues
  import Seqs
  import Calendar

  /** A widget as the dashboard stores it: a plain object. */
  type Widget = map<string, Json>

  /** `w.id`, `undefined` when the widget has none. */
  function Id(w: Widget): (r: Json)
    ensures "id" !in w ==> r == Undef
  {
    if "id" in w then w["id"] else Undef
  }

  // ---------------------------------------------------------------------
  // The widget dialog
  // ---------------------------------------------------------------------

  const RadarType := "radar"
  const FormKeys: set<string> := {"title", "type", "width", "height", "config"}

  /** The value each form field falls back to when the widget's own is falsy. */
  function FormDefault(key: string): Json
  {
    if key == "title" then Prim(Str(""))
    else if key == "type" then Prim(Str(RadarType))
    else if key == "width" then Prim(Num(6.0))
    else if key == "height" then Prim(Num(400.0))
    else Obj(map[])
  }

  /**
   * The dialog's initial form data, read from its `widget` property.  The
   * parameter default `{}` applies only to `undefined`; the dashboard passes
   * `editingWidget`, which is `null` whenever no widget is being edited, and
   * reading `title` of `null` throws.
   */
  function DialogForm(widget: Json): (r: Result<Widget, string>)
    ensures r.Err? <==> widget == Prim(Null)
    ensures r.Ok? ==> r.value.Keys == FormKeys
    ensures r.Ok? ==> forall k :: k in FormKeys && JsonTruthy(OptMember(widget, k)) ==> r.value[k] == OptMember(widget, k)
    ensures r.Ok? ==> forall k :: k in FormKeys && !JsonTruthy(OptMember(widget, k)) ==> r.value[k] == FormDefault(k)
  {
    var w := if widget == Undef then Obj(map[]) else widget;
    if IsNullish(w) then Err(Member(w, "title").error)
    else
      Ok(map k | k in FormKeys :: OrElse(Member(w, k).value, FormDefault(k)))
  }

  /** The dialog as evidently intended: no widget (`null` or `undefined`) means an empty form. */
  function DialogFormOrEmpty(widget: Json): (r: Widget)
    ensures r.Keys == FormKeys
    ensures !IsNullish(widget) ==> Ok(r) == DialogForm(widget)
  {
    DialogForm(if IsNullish(widget) then Undef else widget).value
  }

  /** Opening the dialog with no widget being edited fails as written. */
  lemma DialogFormFailsWithoutWidget()
    ensures DialogForm(Prim(Null)).Err?
    ensures DialogFormOrEmpty(Prim(Null)) == DialogFormOrEmpty(Obj(map[]))
  {
  }

  /** The intended empty form is exactly the defaults: untitled, a radar chart, half width, 400 pixels high. */
  lemma EmptyFormIsDefaults()
    ensures forall k :: k in FormKeys ==> DialogFormOrEmpty(Prim(Null))[k] == FormDefault(k)
    ensures DialogFormOrEmpty(Prim(Null))["type"] == Prim(Str("radar"))
    ensures DialogFormOrEmpty(Prim(Null))["width"] == Prim(Num(6.0))
  {
  }

  // ---------------------------------------------------------------------
  // Width and height inputs (`parseInt` and clamping)
  // ---------------------------------------------------------------------

  /** `Math.min(12, Math.max(1, parseInt(text) || 1))`: a grid width. */
  function WidthInput(text: string): (w: int)
    ensures 1 <= w <= 12
    ensures ParseInt(text).None? ==> w == 1
    ensures ParseInt(text).Some? && 1 <= ParseInt(text).value <= 12 ==> w == ParseInt(text).value
    ensures ParseInt(text).Some? && ParseInt(text).value > 12 ==> w == 12
    ensures ParseInt(text).Some? && ParseInt(text).value < 1 ==> w == 1
  {
    var v := ParseInt(text);
    var n := if v.Some? && v.value != 0 then v.value else 1;
    var lower := if n > 1 then n else 1;
    if lower < 12 then lower else 12
  }

  /** `Math.max(200, parseInt(text) || 200)`: a height of at least 200 pixels. */
  function HeightInput(text: string): (h: int)
    ensures h >= 200
    ensures ParseInt(text).None? ==> h == 200
    ensures ParseInt(text).Some? && ParseInt(text).value >= 200 ==> h == ParseInt(text).value
    ensures ParseInt(text).Some? && ParseInt(text).value < 200 ==> h == 200
  {
    var v := ParseInt(text);
    var n := if v.Some? && v.value != 0 then v.value else 200;
    if n > 200 then n else 200
  }

  /** Typing a width the grid supports keeps it; the number field's own digits always land in 1..12. */
  lemma WidthKeepsValidInput(n: nat)
    ensures 1 <= n <= 12 ==> WidthInput(Calendar.Digits(n)) == n
    ensures n > 12 ==> WidthInput(Calendar.Digits(n)) == 12
    ensures n == 0 ==> WidthInput(Calendar.Digits(n)) == 1
  {
    ParseIntOfDigits(n);
  }

  /** Typing a height of 200 pixels or more keeps it. */
  lemma HeightKeepsValidInput(n: nat)
    ensures n >= 200 ==> HeightInput(Calendar.Digits(n)) == n
    ensures n < 200 ==> HeightInput(Calendar.Digits(n)) == 200
  {
    ParseIntOfDigits(n);
  }

  // ---------------------------------------------------------------------
  // Reordering by drag and drop
  // ---------------------------------------------------------------------

  /** Where a widget dropped at `to` ends up: `splice` clamps the index to the end. */
  function Landing(widgets: seq<Widget>, to: nat): (j: nat)
    requires |widgets| > 0
    ensures j < |widgets|
    ensures to < |widgets| ==> j == to
  {
    if to < |widgets| then to else |widgets| - 1
  }

  /** `splice(from, 1)` followed by `splice(to, 0, removed)`. */
  function Move(widgets: seq<Widget>, from: nat, to: nat): (r: seq<Widget>)
    requires from < |widgets|
    ensures |r| == |widgets|
    ensures multiset(r) == multiset(widgets)
    ensures r[Landing(widgets, to)] == widgets[from]
    // the other widgets keep their relative order
    ensures Seqs.RemoveAt(r, Landing(widgets, to)) == Seqs.RemoveAt(widgets, from)
  {
    var rest := Seqs.RemoveAt(widgets, from);
    Seqs.InsertThenRemove(rest, to, widgets[from]);
    Seqs.InsertAt(rest, to, widgets[from])
  }

  /**
   * `handleDragEnd`: a drop outside the list changes nothing (`None`, no
   * change is reported); otherwise the dragged widget moves to the drop
   * position.
   */
  function DragEnd(widgets: seq<Widget>, source: nat, destination: Option<nat>): (r: Option<seq<Widget>>)
    requires destination.Some? ==> source < |widgets|
    ensures r.None? <==> destination.None?
    ensures r.Some? ==> |r.value| == |widgets| && multiset(r.value) == multiset(widgets)
    ensures r.Some? ==> r.value[Landing(widgets, destination.value)] == widgets[source]
  {
    match destination
    case None => None
    case Some(to) => Some(Move(widgets, source, to))
  }

  /** Dragging the widget back from where it landed restores the original order. */
  lemma MoveBack(widgets: seq<Widget>, from: nat, to: nat)
    requires from < |widgets|
    ensures Move(Move(widgets, from, to), Landing(widgets, to), from) == widgets
  {
    var moved := Move(widgets, from, to);
    var j := Landing(widgets, to);
    assert Seqs.RemoveAt(moved, j) == Seqs.RemoveAt(widgets, from);
    Seqs.RemoveThenInsert(widgets, from);
  }

  // ---------------------------------------------------------------------
  // Adding, editing, saving and deleting
  // ---------------------------------------------------------------------

  /**
   * `handleAddWidget`: `{ id: Date.now().toString(), ...widgetData }` appended;
   * the clock's text is a parameter, and an `id` in the data overrides it.
   */
  function AddWidget(widgets: seq<Widget>, data: Widget, now: string): (r: seq<Widget>)
    ensures |r| == |widgets| + 1 && r[..|widgets|] == widgets
    ensures r[|widgets|].Keys == data.Keys + {"id"}
    ensures forall k :: k in data ==> r[|widgets|][k] == data[k]
    ensures "id" !in data ==> Id(r[|widgets|]) == Prim(Str(now))
  {
    widgets + [map["id" := Prim(Str(now))] + data]
  }

  /** The dashboard's own state: the widget being edited, if any, and whether the dialog is open. */
  datatype Board = Board(widgets: seq<Widget>, editing: Option<Widget>, dialogOpen: bool)

  /** `handleEditWidget`: remember the widget and open the dialog. */
  function EditWidget(b: Board, w: Widget): (r: Board)
    ensures r.widgets == b.widgets && r.editing == Some(w) && r.dialogOpen
  {
    Board(b.widgets, Some(w), true)
  }

  /** `{ ...w, ...widgetData }`: the data's fields over the widget's. */
  function Merge(w: Widget, data: Widget): (r: Widget)
    ensures r.Keys == w.Keys + data.Keys
    ensures forall k :: k in data ==> r[k] == data[k]
    ensures forall k :: k in w && k !in data ==> r[k] == w[k]
  {
    w + data
  }

  /**
   * `handleSaveWidget`: while editing, every widget whose id equals the edited
   * widget's id gets the data merged in; otherwise the data is added as a new
   * widget.  Either way nothing is being edited afterwards.
   */
  function SaveWidget(b: Board, data: Widget, now: string): (r: Board)
    ensures r.editing.None? && r.dialogOpen == b.dialogOpen
    ensures b.editing.None? ==> r.widgets == AddWidget(b.widgets, data, now)
    ensures b.editing.Some? ==> |r.widgets| == |b.widgets|
    ensures b.editing.Some? ==> forall i :: 0 <= i < |b.widgets| && Id(b.widgets[i]) != Id(b.editing.value) ==>
      r.widgets[i] == b.widgets[i]
    ensures b.editing.Some? ==> forall i :: 0 <= i < |b.widgets| && Id(b.widgets[i]) == Id(b.editing.value) ==>
      r.widgets[i] == Merge(b.widgets[i], data)
  {
    var widgets :=
      match b.editing
      case Some(e) =>
        seq(|b.widgets|, i requires 0 <= i < |b.widgets| =>
          if Id(b.widgets[i]) == Id(e) then Merge(b.widgets[i], data) else b.widgets[i])
      case None => AddWidget(b.widgets, data, now);
    Board(widgets, None, b.dialogOpen)
  }

  /** `onClose`: the dialog closes and nothing is being edited. */
  function CloseDialog(b: Board): (r: Board)
    ensures r.widgets == b.widgets && r.editing.None? && !r.dialogOpen
  {
    Board(b.widgets, None, false)
  }

  /** The dialog's Save button: `onSave(formData)` and then `onClose()`. */
  function SaveFromDialog(b: Board, formData: Widget, now: string): (r: Board)
    ensures r.widgets == SaveWidget(b, formData, now).widgets
    ensures r.editing.None? && !r.dialogOpen
  {
    CloseDialog(SaveWidget(b, formData, now))
  }

  /** Saving form data never changes an id, so saving the same data twice is the same as saving it once. */
  lemma SaveIsIdempotent(b: Board, e: Widget, data: Widget, now: string)
    requires "id" !in data
    ensures var once := SaveWidget(Board(b.widgets, Some(e), b.dialogOpen), data, now);
      forall i :: 0 <= i < |b.widgets| ==> Id(once.widgets[i]) == Id(b.widgets[i])
    ensures var once := SaveWidget(Board(b.widgets, Some(e), b.dialogOpen), data, now);
      SaveWidget(Board(once.widgets, Some(e), b.dialogOpen), data, now) == once
  {
    var once := SaveWidget(Board(b.widgets, Some(e), b.dialogOpen), data, now);
    var twice := SaveWidget(Board(once.widgets, Some(e), b.dialogOpen), data, now);
    forall i | 0 <= i < |b.widgets|
      ensures Id(once.widgets[i]) == Id(b.widgets[i])
      ensures twice.widgets[i] == once.widgets[i]
    {
      var w := b.widgets[i];
      if Id(w) == Id(e) {
        assert once.widgets[i] == Merge(w, data);
        assert Merge(Merge(w, data), data) == Merge(w, data);
      }
    }
  }

  /** `handleDeleteWidget`: every widget whose id is not the given one, in order. */
  function DeleteWidget(widgets: seq<Widget>, id: Json): (r: seq<Widget>)
    ensures forall w :: w in r ==> w in widgets && Id(w) != id
    ensures forall w :: w in widgets && Id(w) != id ==> w in r
    ensures |r| == |widgets| - Seqs.Count(widgets, (w: Widget) => Id(w) == id)
    ensures Seqs.Subsequence(r, widgets)
  {
    var keep := (w: Widget) => Id(w) != id;
    Seqs.FilterIsSubsequence(widgets, keep);
    var drop := (w: Widget) => Id(w) == id;
    forall w | w in widgets && Id(w) != id
      ensures w in Seqs.Filter(widgets, keep)
    {
      Seqs.FilterKeeps(widgets, keep, w);
    }
    Seqs.FilterSplits(widgets, keep, drop);
    var kept, dropped := Seqs.Filter(widgets, keep), Seqs.Filter(widgets, drop);
    assert |multiset(kept) + multiset(dropped)| == |multiset(widgets)|;
    assert |multiset(kept)| == |kept| && |multiset(dropped)| == |dropped| && |multiset(widgets)| == |widgets|;
    Seqs.Filter(widgets, keep)
  }

  /** Deleting twice is deleting once. */
  lemma DeleteIsIdempotent(widgets: seq<Widget>, id: Json)
    ensures DeleteWidget(DeleteWidget(widgets, id), id) == DeleteWidget(widgets, id)
  {
    var once := DeleteWidget(widgets, id);
    var keep := (w: Widget) => Id(w) != id;
    assert forall i :: 0 <= i < |once| ==> once[i] in once;
    Seqs.FilterAll(once, keep);
  }

  /** Deleting a freshly added widget by its new id restores the list, when no older widget shares that id. */
  lemma DeleteUndoesAdd(widgets: seq<Widget>, data: Widget, now: string)
    requires "id" !in data
    requires forall i :: 0 <= i < |widgets| ==> Id(widgets[i]) != Prim(Str(now))
    ensures DeleteWidget(AddWidget(widgets, data, now), Prim(Str(now))) == widgets
  {
    var keep := (w: Widget) => Id(w) != Prim(Str(now));
    var added := AddWidget(widgets, data, now);
    assert added == widgets + [added[|widgets|]];
    Seqs.FilterAppend(widgets, [added[|widgets|]], keep);
    Seqs.FilterAll(widgets, keep);
    assert Seqs.Filter([added[|widgets|]], keep) == [];
  }
}
