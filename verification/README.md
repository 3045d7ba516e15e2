# Library web app: a Dafny model of its logic

The library web app has two halves. A React front end shows a catalogue and an analytics suite. A Spring back end holds the books, authors, members, lendings and reviews. This project models the logic under both halves as pure Dafny functions over immutable datatypes, and proves what that logic promises. Clocks, random numbers, UUIDs and the mail server become explicit parameters. Repository queries are read over the tables with the meaning Spring Data derives from their method names; the few whose meaning no name or query text gives are parameters.

The model is split into five groups.

**Client-side analytics.** Numbers are `real`. `Math.sqrt`, `Math.exp`, `Math.log`, jStat's distribution functions and division by a possibly-zero divisor come from a `MathLib` record (module `Numerics`). The model relies only on the facts collected in its `Sound` predicate.

- `ClusterAnalysis` covers min-max normalisation, k-means (Lloyd's algorithm), DBSCAN, complete-linkage agglomerative clustering and the per-cluster statistics.
- `TimeSeries` covers the moving average, exponential smoothing, ratio-to-moving-average decomposition, autocorrelation, the ETS and AR(1) forecasts and Holt-Winters.
- `GaussJordan` is the normal-equation solver without pivoting.
- `ModelComparison` covers the three regression models, contiguous k-fold cross-validation with MSE, MAE and R², and the results table of both copies of the page.
- `StatisticalAnalysis` holds the descriptive statistics with nearest-rank quartiles and the seasonality test.
- `AdvancedStatistics` holds Welch's t-test, one-way ANOVA and the chi-square test.

**Data shaping in the user interface.**

- `DataExplorer`: filters, search, grouping, sort and paging.
- `Dashboard`: the chart-data builders of the analytics page.
- `CustomDashboard`: the widget list and its dialog.
- `AnalyticsFilter` and `AdvancedFilters`: the two filter panels.
- `CorrelationMatrix`, `TrendChart`, `HeatmapChart` and `ComparativeChart`: the chart helpers.
- `RegisterForm` and `ImageUpload`: the sign-up checks and the image picker's gate.

**State machines.**

- `MockApi`: the in-browser mock of the REST API (login, register, book and author operations, borrow and return).
- `LendingController`: the server's borrow and return endpoints.
- `ReviewController`: the review approval workflow.
- `BookController`: book lookup, search, conversion and update.

Their common entities and tables are in `Library`. The key invariant is that the available copies of a book plus its open loans stay constant.

**Server-side rules.** `InventoryPrediction`, `PredictiveAnalytics`, `UserBehavior`, `Recommendation` and `AnalyticsService` hold the classifiers and score formulas of the analysis services.

**Reports and uploads.**

- `NotificationService`: overdue notices and reminders, where a failed notice never stops the run.
- `ExportService`: the plain-text reports.
- `FileUpload`: the stored name and the served path of an uploaded image.

**Shared modules.**

- `Wrappers`: `Option` and `Result`.
- `Seqs`: sums, counts, filters and stable sorts.
- `Calendar`: Java's `LocalDateTime` as whole seconds, with the Gregorian calendar and the date formats the services print.
- `JsValues`: the JavaScript value semantics the front end relies on: `undefined`, `isNaN`, truthiness, string order and `parseInt`.

Paths in the table are relative to the repository root.

## Model

| member | source | states |
|---|---|---|
| TrendChart.GradientOffset | src/components/TrendChart.js:29-39 | the gradient's stop lies in [0, 1]: 0 for no data or nothing above zero, 1 for nothing below zero, and strictly between 0 and 1, at the point where the line crosses zero, when the values change sign |
| TrendChart.OffsetBetween | src/components/TrendChart.js:35-38 | with a positive maximum and a negative minimum the divisor is non-zero and the offset lies strictly inside (0, 1) |
| TrendChart.ZeroCrossing | src/components/TrendChart.js:38 | the offset is the fraction of the range, measured from the top, at which the value zero lies |
| ImageUpload.Choose | src/components/ImageUpload.js:19-47 | no file does nothing; a non-image is refused before its size is looked at; over 5 MiB is refused; an acceptable file is uploaded, and only the endpoint's success yields a path, its failure the generic alert |
| ImageUpload.AfterChoose | src/components/ImageUpload.js:36-40 | a successful upload shows the returned path and reports it to the parent; a refusal or failure changes nothing |
| ImageUpload.Remove | src/components/ImageUpload.js:49-52 | removing clears the image and reports `null` |
| ImageUpload.SizeLimitIsInclusive | src/components/ImageUpload.js:29-33 | a file of exactly 5 MiB is uploaded and one of 5 MiB plus one byte is refused |
| ImageUpload.TypeCheckedFirst | src/components/ImageUpload.js:23-27 | a file that is not an image is refused whatever its size and the picker stays as it was |
| ImageUpload.RemoveThenUpload | src/components/ImageUpload.js:36-52 | remove and upload undo each other: removing after an upload empties the picker, uploading after a removal shows the new path |
| ComparativeChart.ItemValues | src/components/analytics/ComparativeChart.js:63 | one value per series, in series order, each the item's field named by the series key |
| ComparativeChart.AllValues | src/components/analytics/ComparativeChart.js:62-64 | the flattened values have one entry per item and series |
| ComparativeChart.AllValuesPosition | src/components/analytics/ComparativeChart.js:62-64 | entry i * S + j of the flattened values is item i's value of series j (item-major order) |
| ComparativeChart.AllValuesArePlotted | src/components/analytics/ComparativeChart.js:62-64 | every flattened value is some item's value of some series |
| ComparativeChart.CalculateDomain | src/components/analytics/ComparativeChart.js:59-70 | automatic bounds exactly when change percentages are off; a numeric interval exactly when they are on and every plotted value is a number, and then every plotted value lies inside it |
| ComparativeChart.DomainWidensRange | src/components/analytics/ComparativeChart.js:65-69 | the interval is the value range widened by a tenth of its span on each side |
| ComparativeChart.ChangeOf | src/components/analytics/ComparativeChart.js:35-38 | a change line only for exactly two bars; a finite percentage exactly when the first bar is non-zero, otherwise JavaScript's `Infinity`, `-Infinity` or `NaN` text |
| ComparativeChart.ChangeReproducesSecond | src/components/analytics/ComparativeChart.js:37 | applying the reported percentage to the first bar gives back the second bar |
| ComparativeChart.GrowthInverse | src/components/analytics/ComparativeChart.js:37 | the relative-change formula and "apply a percentage" are inverse to each other |
| HeatmapChart.Plotted | frontend/src/components/analytics/HeatmapChart.js:57-58 | one plotted number per cell, read from the value field, `None` where JavaScript's number conversion gives NaN |
| HeatmapChart.ValueRange | frontend/src/components/analytics/HeatmapChart.js:57-58 | a finite range exists exactly when there is a cell and every value is a number; then lo <= hi, every value lies in [lo, hi], and both ends are attained by some cell |
| HeatmapChart.HexNat | frontend/src/components/analytics/HeatmapChart.js:62 | `toString(16)`: at least one lower-case hex digit, one digit exactly below 16, at most two below 256 |
| HeatmapChart.HexRoundTrip | frontend/src/components/analytics/HeatmapChart.js:62 | the hex text reads back as the number it renders |
| HeatmapChart.PadTwo | frontend/src/components/analytics/HeatmapChart.js:62 | `padStart(2, '0')`: at least two characters, the text kept at the end, only zeros added in front |
| HeatmapChart.ColorOf | frontend/src/components/analytics/HeatmapChart.js:60-64 | the colour is the dark theme colour followed by the alpha suffix, nothing else |
| HeatmapChart.RatioInUnitInterval | frontend/src/components/analytics/HeatmapChart.js:61-62 | for a value inside a proper range the ratio lies in [0, 1] and the rounded alpha in 0..255 |
| HeatmapChart.SuffixIsTwoHexDigits | frontend/src/components/analytics/HeatmapChart.js:62 | for a value inside a proper range the suffix is exactly two hex digits, which read back as the rounded scaled ratio |
| HeatmapChart.EndsOfTheScale | frontend/src/components/analytics/HeatmapChart.js:60-63 | the lowest value gets alpha `00` and the highest `ff` |
| HeatmapChart.EnrichedData | frontend/src/components/analytics/HeatmapChart.js:66-71 | every cell keeps its own fields and gains exactly the three label fields, which carry the configured labels |
| CorrelationMatrix.SignificanceOf | frontend/src/components/analytics/CorrelationMatrix.js:59-64 | Weak, Moderate and Strong exactly for \|c\| below 0.3, in [0.3, 0.7) and from 0.7 on |
| CorrelationMatrix.SignificanceMonotone | frontend/src/components/analytics/CorrelationMatrix.js:59-64 | a stronger correlation never gets a weaker label, and the sign does not matter |
| CorrelationMatrix.ColorOf | frontend/src/components/analytics/CorrelationMatrix.js:51-57 | grey exactly below the threshold; above it the success colour exactly for positive and the error colour for zero or negative coefficients |
| CorrelationMatrix.ColorFlipsWithSign | frontend/src/components/analytics/CorrelationMatrix.js:51-57 | negating a non-zero coefficient keeps grey grey and swaps the success and error colours |
| CorrelationMatrix.Lookup | frontend/src/components/analytics/CorrelationMatrix.js:68 | `data[key] \|\| 0`: a missing pair reads as 0, a stored one as itself |
| CorrelationMatrix.MakeEntry | frontend/src/components/analytics/CorrelationMatrix.js:67-78 | the point names its two metrics, x is the first index, y is the first index of the second name, a missing pair has coefficient 0, and the dot size agrees with the label (Weak below 30, Strong from 70) |
| CorrelationMatrix.EntryCoordinates | frontend/src/components/analytics/CorrelationMatrix.js:72-73 | with distinct metric names y is the pair's own second index, so every point lies on one side of the diagonal |
| CorrelationMatrix.PairCount | frontend/src/components/analytics/CorrelationMatrix.js:66-80 | m metrics give exactly m(m-1)/2 points |
| CorrelationMatrix.PairPosition | frontend/src/components/analytics/CorrelationMatrix.js:66-80 | every pair i < j appears, at row-major position RowStart(m, i) + (j - i - 1) |
| CorrelationMatrix.EveryPointIsAPair | frontend/src/components/analytics/CorrelationMatrix.js:66-80 | every point is the entry of some pair i < j |
| CustomDashboard.DialogForm | frontend/src/components/analytics/CustomDashboard.js:71-78 | as written: the dialog fails exactly when its widget is `null`; otherwise the form has the five fields, each the widget's truthy value or its default |
| CustomDashboard.DialogFormOrEmpty | frontend/src/components/analytics/CustomDashboard.js:71-78 | corrected: the form always has the five fields and agrees with the written dialog whenever a widget is given |
| CustomDashboard.DialogFormFailsWithoutWidget | frontend/src/components/analytics/CustomDashboard.js:288-296 | the dashboard's `widget={editingWidget}` with nothing being edited makes the written dialog fail, while the corrected one treats `null` as an empty widget |
| CustomDashboard.EmptyFormIsDefaults | frontend/src/components/analytics/CustomDashboard.js:72-78 | the empty form is untitled, a radar chart, six columns wide and 400 pixels high |
| CustomDashboard.WidthInput | frontend/src/components/analytics/CustomDashboard.js:122-125 | the width is always in 1..12: unreadable input gives 1, an in-range number is kept, larger numbers give 12 and smaller ones 1 |
| CustomDashboard.HeightInput | frontend/src/components/analytics/CustomDashboard.js:134-137 | the height is at least 200: unreadable or smaller input gives 200, anything from 200 on is kept |
| CustomDashboard.WidthKeepsValidInput | frontend/src/components/analytics/CustomDashboard.js:122-125 | typing the digits of a width from 1 to 12 keeps it, larger widths give 12 and 0 gives 1 |
| CustomDashboard.HeightKeepsValidInput | frontend/src/components/analytics/CustomDashboard.js:134-137 | typing the digits of a height from 200 on keeps it, smaller ones give 200 |
| CustomDashboard.Landing | frontend/src/components/analytics/CustomDashboard.js:166 | the dropped widget lands at the drop index, clamped by `splice` to the end of the list |
| CustomDashboard.Move | frontend/src/components/analytics/CustomDashboard.js:164-166 | moving keeps the same widgets (a permutation), puts the dragged one at its landing place, and leaves the others in their relative order |
| CustomDashboard.DragEnd | frontend/src/components/analytics/CustomDashboard.js:161-169 | a drop outside the list reports nothing; any other drop reports a permutation of the widgets with the dragged one at its landing place |
| CustomDashboard.MoveBack | frontend/src/components/analytics/CustomDashboard.js:164-166 | dragging the widget back from where it landed restores the original order |
| CustomDashboard.AddWidget | frontend/src/components/analytics/CustomDashboard.js:171-177 | the old widgets stay in front; the new one has the data's fields plus an id, which is the clock's text unless the data brings an id |
| CustomDashboard.EditWidget | frontend/src/components/analytics/CustomDashboard.js:179-182 | editing remembers the widget and opens the dialog without touching the list |
| CustomDashboard.Merge | frontend/src/components/analytics/CustomDashboard.js:187 | `{ ...w, ...data }`: the data's fields win, the widget's other fields stay |
| CustomDashboard.SaveWidget | frontend/src/components/analytics/CustomDashboard.js:184-194 | without an edited widget the data is added; with one, exactly the widgets sharing its id get the data merged in and the others stay; nothing is being edited afterwards |
| CustomDashboard.CloseDialog | frontend/src/components/analytics/CustomDashboard.js:290-293 | closing hides the dialog and forgets the edited widget, keeping the list |
| CustomDashboard.SaveFromDialog | frontend/src/components/analytics/CustomDashboard.js:80-83 | Save is the save of the form data followed by a close |
| CustomDashboard.SaveIsIdempotent | frontend/src/components/analytics/CustomDashboard.js:184-194 | saving the same id-free data twice while editing gives the same list as saving it once |
| CustomDashboard.DeleteWidget | frontend/src/components/analytics/CustomDashboard.js:196-198 | the result is the widgets whose id differs, in their original order, and its length drops by the number of widgets with that id |
| CustomDashboard.DeleteIsIdempotent | frontend/src/components/analytics/CustomDashboard.js:196-198 | deleting twice is deleting once |
| CustomDashboard.DeleteUndoesAdd | frontend/src/components/analytics/CustomDashboard.js:171-198 | deleting a freshly added widget by its new id restores the list when no older widget shares the id |
| AnalyticsFilter.SetField | frontend/src/components/analytics/AnalyticsFilter.js:74-79 | the spread with one key set: that key holds the new value, every other key keeps its value, no other key appears |
| AnalyticsFilter.TimeRangeChange | frontend/src/components/analytics/AnalyticsFilter.js:47-52 | only `timeRange` changes, to the chosen range |
| AnalyticsFilter.ComparisonTypeChange | frontend/src/components/analytics/AnalyticsFilter.js:54-59 | only `comparisonType` changes, to the chosen comparison |
| AnalyticsFilter.FilterValueChange | frontend/src/components/analytics/AnalyticsFilter.js:74-79 | only the named filter's value changes |
| AnalyticsFilter.SetFieldLastWins | frontend/src/components/analytics/AnalyticsFilter.js:74-79 | the last value set wins, and setting the value already present changes nothing |
| AnalyticsFilter.SetFieldCommutes | frontend/src/components/analytics/AnalyticsFilter.js:74-79 | changes to two different filters commute |
| AnalyticsFilter.AddFilter | frontend/src/components/analytics/AnalyticsFilter.js:61-65 | the filter becomes active, at the end, only if it was not active already; nothing else is added and a duplicate-free list stays duplicate-free |
| AnalyticsFilter.AddFilterIdempotent | frontend/src/components/analytics/AnalyticsFilter.js:61-65 | adding twice is adding once |
| AnalyticsFilter.RemoveFilter | frontend/src/components/analytics/AnalyticsFilter.js:67-72 | the filter leaves both the active list and the filter object; every other active filter and every other value stays |
| AnalyticsFilter.RemoveUndoesAdd | frontend/src/components/analytics/AnalyticsFilter.js:61-72 | switching an inactive filter on and off again restores the panel |
| AnalyticsFilter.ClearFilters | frontend/src/components/analytics/AnalyticsFilter.js:81-87 | clearing leaves no active filter and exactly the 30-day range with no comparison |
| AnalyticsFilter.Options | frontend/src/components/analytics/AnalyticsFilter.js:194-196 | the picker offers exactly the available filters that are not active, in the order they are available |
| AnalyticsFilter.ClearOffersEverything | frontend/src/components/analytics/AnalyticsFilter.js:81-87 | after clearing every available filter is offered again, in its order |
| AnalyticsFilter.OptionsFollowActive | frontend/src/components/analytics/AnalyticsFilter.js:61-72 | an added filter is no longer offered; a removed one is offered again |
| AnalyticsFilter.SelectFilters | frontend/src/components/analytics/AnalyticsFilter.js:198-200 | the active list becomes the chosen options' keys, in the chosen order |
| AnalyticsFilter.FindConfig | frontend/src/components/analytics/AnalyticsFilter.js:214 | `find`: none exactly when no configuration has the key, otherwise the first one that does |
| AnalyticsFilter.ChoiceLabel | frontend/src/components/analytics/AnalyticsFilter.js:265-267 | none exactly when no option holds the value, otherwise the label of the first option that holds it |
| AnalyticsFilter.ChipValue | frontend/src/components/analytics/AnalyticsFilter.js:263-269 | a select shows its chosen option's label or "Any"; any other kind shows its value, or "Any" when the value is falsy |
| AnalyticsFilter.Chips | frontend/src/components/analytics/AnalyticsFilter.js:256-274 | one chip per active filter that has a configuration, in the active order, each showing its configuration's label and value text, and no chip for anything else |
| AnalyticsFilter.RemovedFilterHasNoChip | frontend/src/components/analytics/AnalyticsFilter.js:67-72 | after a removal no chip shows the removed filter and every other configured active filter still has its chip |
| AdvancedFilters.SetNested | frontend/src/components/analytics/AdvancedFilters.js:50-68 | the nested spread: only the group changes at top level, and inside it only the one key changes |
| AdvancedFilters.MetricRangeChange | frontend/src/components/analytics/AdvancedFilters.js:50-58 | moving a slider sets that metric's range; the new metrics object has exactly the old group's own fields plus that metric, each other one unchanged, and every other top-level field is kept |
| AdvancedFilters.ToggleChange | frontend/src/components/analytics/AdvancedFilters.js:60-68 | flipping a switch sets that switch's boolean; the new toggles object has exactly the old group's own fields plus that switch, each other one unchanged, and every other top-level field is kept |
| AdvancedFilters.SliderValue | frontend/src/components/analytics/AdvancedFilters.js:135 | a slider without a truthy stored range shows the metric's whole range |
| AdvancedFilters.Checked | frontend/src/components/analytics/AdvancedFilters.js:162 | a switch without a truthy stored value shows off |
| AdvancedFilters.SliderShowsChange | frontend/src/components/analytics/AdvancedFilters.js:135-136 | a moved slider shows the value it was moved to and every other slider shows what it showed before; the one exception is a slider named `length` when `metrics` was an array or string, whose `length` the spread drops |
| AdvancedFilters.SwitchShowsToggle | frontend/src/components/analytics/AdvancedFilters.js:160-198 | a flipped switch shows its new state and every other switch keeps its state, with the same `length` exception as sliders |
| AdvancedFilters.SavePreset | frontend/src/components/analytics/AdvancedFilters.js:70-78 | a preset is saved exactly when the name is non-empty, holding that name and the current filters, and the name field is then cleared; otherwise the name stays |
| AdvancedFilters.LoadPreset | frontend/src/components/analytics/AdvancedFilters.js:80-83 | the active filters become exactly the preset's keys, once each |
| AdvancedFilters.SaveThenLoad | frontend/src/components/analytics/AdvancedFilters.js:70-83 | loading a freshly saved preset switches on exactly the filters that were set when it was saved |
| AdvancedFilters.ClearFilters | frontend/src/components/analytics/AdvancedFilters.js:85-93 | clearing leaves no active filter, empty metric and switch groups, the 30-day range and no comparison |
| AdvancedFilters.ClearedShowsDefaults | frontend/src/components/analytics/AdvancedFilters.js:85-93 | after clearing every slider spans 0..100 and every switch is off |
| AdvancedFilters.DeleteChip | frontend/src/components/analytics/AdvancedFilters.js:269-274 | a chip's delete removes the filter from the active list and its value from the filter object and keeps everything else |
| RegisterForm.Initial | src/pages/Register.js:17-33 | the page mounts with the six fields empty, every flag valid and no error |
| RegisterForm.Change | src/pages/Register.js:35-47 | typing sets that field, marks only that field valid and clears the error; every other field and flag stays |
| RegisterForm.TestEmail | src/pages/Register.js:52 | the direct test agrees with the pattern `^[^\s@]+@[^\s@]+\.[^\s@]+$` on every text (both directions) |
| RegisterForm.PatternHasShape | src/pages/Register.js:52 | a text matching the pattern has a non-empty part before its first `@`, no space or second `@`, and a dot strictly inside the rest |
| RegisterForm.ShapeIsPattern | src/pages/Register.js:52 | those conditions are enough for the pattern to match |
| RegisterForm.EmailExamples | src/pages/Register.js:52 | `a@b.c` passes; a missing domain dot, an empty local part or a space fails |
| RegisterForm.Validate | src/pages/Register.js:49-57 | each of the six flags holds exactly when its check holds: username of 3 or more, the e-mail pattern, password of 6 or more, matching confirmation, non-empty names |
| RegisterForm.HelperText | src/pages/Register.js:121-194 | a field's message shows exactly while its flag is false |
| RegisterForm.Registration | src/pages/Register.js:72-78 | the registration carries exactly the five fields other than the confirmation, with the typed values |
| RegisterForm.Submit | src/pages/Register.js:62-83 | submitting refreshes the flags; invalid input only shows the fix message; valid input registers and either moves to the login page or shows the store's rejection message |
| RegisterForm.AcceptedIffAllChecks | src/pages/Register.js:59 | the form is accepted exactly when all six checks hold |
| RegisterForm.TypingHidesMessage | src/pages/Register.js:35-47 | after a failed submission, typing into a field hides that field's message and leaves every other field's message as it was |
| RegisterForm.SignUpThenSignIn | src/services/api.js:40-70 | a valid form with a new username and e-mail moves to the login page, and when the username is Latin-1 the new user can sign in with the typed credentials, as an ordinary USER |
| Dashboard.GeneratePieData | src/pages/Dashboard.js:147-153 | a non-array gives no slices; an array with a nullish item throws; otherwise one slice per item, in order, named by its category or `Unknown` and valued by its value or 0 |
| Dashboard.PieSlicesAreLabelled | src/pages/Dashboard.js:149-152 | every slice has a truthy name and a value that is truthy or 0 |
| Dashboard.DefaultStats | src/pages/Dashboard.js:176-193 | the stored stats keep every field of the response and have every expected field; a truthy response value is kept, a falsy or missing one takes its default |
| Dashboard.DefaultStatsIdempotent | src/pages/Dashboard.js:176-193 | defaulting already defaulted stats changes nothing |
| Dashboard.DefaultedIsFixed | src/pages/Dashboard.js:176-193 | stats that already hold every expected field, each falsy one at its default, come back unchanged |
| Dashboard.ApplyTemplate | src/pages/Dashboard.js:310-317 | a replacing template becomes the widget list, any other is appended after the current widgets; the template picker closes either way |
| Dashboard.ApplyTemplateTwice | src/pages/Dashboard.js:310-317 | applying a replacing template twice is applying it once; an appending one adds its widgets each time |
| Dashboard.GenerateComparativeData | src/pages/Dashboard.js:522-534 | no stats give no points; a timeline that is not an array or holds a nullish item throws; otherwise one point per timeline entry with its date and value |
| Dashboard.PreviousAlignedByIndex | src/pages/Dashboard.js:527-533 | the previous value is matched by position: past the end of the comparison timeline, or falsy there, it is 0, otherwise the comparison entry's value |
| Dashboard.GenerateRadarData | src/pages/Dashboard.js:536-546 | no response gives no points; otherwise exactly the five axes in their fixed order, each the response's score or 0 |
| Dashboard.RadarDefaultsToZero | src/pages/Dashboard.js:539-545 | a response without any score field gives five axes at 0 |
| Dashboard.TallyOver | src/pages/Dashboard.js:551-559 | one entry per listed key, carrying its number of occurrences in the list |
| Dashboard.TallyEntries | src/pages/Dashboard.js:551-559 | one entry per distinct key, each naming a key of the list with its positive number of occurrences |
| Dashboard.TallyCoversKeys | src/pages/Dashboard.js:551-559 | every key of the list has an entry |
| Dashboard.TallySumsToLength | src/pages/Dashboard.js:551-559 | the counts add up to the length of the list |
| Dashboard.ReplaceFirstUnderscore | src/pages/Dashboard.js:557 | `replace('_', ' ')` replaces only the first underscore and keeps the length |
| Dashboard.SecondUnderscoreKept | src/pages/Dashboard.js:585 | a name with two underscores keeps its second one (`IN_STOCK_LOW` would keep one) |
| Dashboard.CountBy | src/pages/Dashboard.js:548-588 | a missing list gives no entries; a list that is not an array or holds a nullish item throws; otherwise one entry per distinct key text, named by the key (first underscore shown as a space where asked) with its number of occurrences, every key having its entry, the counts adding up to the items |
| Dashboard.GenerateUserSegmentData | src/pages/Dashboard.js:548-560 | `generateUserSegmentData`: nothing without the list, a TypeError for a non-array or a nullish item, otherwise one entry per distinct `segment` text with its first underscore shown as a space and its number of occurrences, and every such text has its entry |
| Dashboard.GenerateGenreData | src/pages/Dashboard.js:562-574 | `generateGenreData`: nothing without the list, a TypeError for a non-array or a nullish item, otherwise one entry per distinct `genre` text with its number of occurrences, and every such text has its entry |
| Dashboard.GenerateInventoryStatusData | src/pages/Dashboard.js:576-588 | `generateInventoryStatusData`: nothing without the list, a TypeError for a non-array or a nullish item, otherwise one entry per distinct `status` text with its first underscore shown as a space and its number of occurrences, and every such text has its entry |
| Dashboard.CountsAddUpToItems | src/pages/Dashboard.js:548-588 | in the segment, genre and status counters the counts add up to the number of items counted |
| Dashboard.GenerateHeatmapData | src/pages/Dashboard.js:590-609 | no activity patterns give no cells; otherwise 168 cells, cell k being day k / 24 and hour k % 24 with that day's name and the pattern's activity or 0 |
| Dashboard.HeatmapCoversWeek | src/pages/Dashboard.js:596-606 | every hour of every weekday has its cell, at position day * 24 + hour |
| Dashboard.BubbleOf | src/pages/Dashboard.js:616-621 | a book's x is its popularity score times 100, and is not a number exactly when the score is not |
| Dashboard.SeriesOf | src/pages/Dashboard.js:614-622 | a genre's series succeeds exactly for a list of non-nullish books and then has one point per book, in order |
| Dashboard.SeriesFor | src/pages/Dashboard.js:614-622 | the series succeed exactly when every genre holds a book list, one series per genre in the given order |
| Dashboard.GenerateBubbleData | src/pages/Dashboard.js:611-623 | no performance object gives no series; otherwise one series per genre in `Object.entries` order |
| Dashboard.BubblesFollowBooks | src/pages/Dashboard.js:614-622 | each point of a genre's series is one book of that genre, with x its popularity score scaled to percent |
| DataExplorer.ApplyFilter | frontend/src/components/analytics/DataExplorer.js:143-165 | one filter keeps, in order, exactly the rows its operator accepts; only a `contains` filter whose value is an array throws (arrays have no `toLowerCase`), and only when there is a row to test |
| DataExplorer.EditBetween | frontend/src/components/analytics/DataExplorer.js:82-101 | typing into one `between` box makes the value an array whose typed end is the text and whose other end is whatever indexing the old value gave |
| DataExplorer.MissingEndKeepsNone | frontend/src/components/analytics/DataExplorer.js:160-161 | a `between` filter with an `undefined` end keeps no row, since every comparison with `undefined` is false |
| DataExplorer.OneBoxKeepsNone | frontend/src/components/analytics/DataExplorer.js:86-99 | a new filter (value `''`) switched to `between` and given only one bound keeps no row |
| DataExplorer.PassesAllEach | frontend/src/components/analytics/DataExplorer.js:142-166 | passing the filter list means passing every filter in it |
| DataExplorer.FiltersAreConjunctive | frontend/src/components/analytics/DataExplorer.js:142-166 | the filters act as a conjunction: the survivors are exactly the input rows that pass every filter, in input order |
| DataExplorer.UnknownOperatorKeepsAll | frontend/src/components/analytics/DataExplorer.js:162-163 | an unknown operator keeps every row |
| DataExplorer.BetweenIsInclusive | frontend/src/components/analytics/DataExplorer.js:160-161 | `between` on a number with two typed digit-string bounds accepts exactly the closed interval |
| DataExplorer.EqNeqComplementary | frontend/src/components/analytics/DataExplorer.js:146-149 | `neq` accepts exactly the rows `eq` rejects |
| DataExplorer.Search | frontend/src/components/analytics/DataExplorer.js:168-175 | an empty term keeps every row; otherwise exactly the rows with a value whose lower-cased text contains the lower-cased term, in order |
| DataExplorer.FilteredData | frontend/src/components/analytics/DataExplorer.js:138-188 | the pipeline fails exactly when a filter throws, and never adds rows |
| DataExplorer.FilteredDataMembership | frontend/src/components/analytics/DataExplorer.js:138-188 | a row is shown exactly when it is an input row that passes the filters, the search and the brush window |
| DataExplorer.Extreme | frontend/src/components/analytics/DataExplorer.js:48-49 | `Math.min`/`Math.max` give a number exactly when every value converts to one, NaN otherwise |
| DataExplorer.Aggregate | frontend/src/components/analytics/DataExplorer.js:45-51 | `count` is the group size |
| DataExplorer.SumOfNumbers | frontend/src/components/analytics/DataExplorer.js:46 | on numbers `sum` adds them up |
| DataExplorer.AggregatesOfNumbers | frontend/src/components/analytics/DataExplorer.js:45-51 | on numbers `avg` is the mean and `min`/`max` the extremes |
| DataExplorer.ExtremeOfNumbers | frontend/src/components/analytics/DataExplorer.js:48-49 | on numbers the extreme is the least or greatest value |
| DataExplorer.AggregatedData | frontend/src/components/analytics/DataExplorer.js:190-207 | without a grouping field the rows pass through; otherwise it throws a TypeError exactly when some row's key is a property name inherited from `Object.prototype`, and else yields one row per distinct group key |
| DataExplorer.ConstructorKeyThrows | frontend/src/components/analytics/DataExplorer.js:193-199 | grouping rows one of which has the key text `constructor` throws |
| DataExplorer.GroupNonEmpty | frontend/src/components/analytics/DataExplorer.js:193-200 | every group that is listed has at least one row |
| DataExplorer.GroupSize | frontend/src/components/analytics/DataExplorer.js:193-200 | a group holds exactly the rows carrying its key |
| DataExplorer.GroupCountsAddUp | frontend/src/components/analytics/DataExplorer.js:202-206 | each row of the grouped result has a `count` equal to its group's size, and the counts add up to the number of rows grouped |
| DataExplorer.HandleSort | frontend/src/components/analytics/DataExplorer.js:256-263 | the clicked column becomes the sort column; clicking it again flips the direction, a new column sorts ascending |
| DataExplorer.HandleSortTwice | frontend/src/components/analytics/DataExplorer.js:256-263 | clicking the current column twice restores the state |
| DataExplorer.SortedData | frontend/src/components/analytics/DataExplorer.js:209-219 | the sorted rows are a permutation of the rows, and no sort column leaves them as they are |
| DataExplorer.SortedByNumbers | frontend/src/components/analytics/DataExplorer.js:212-218 | on a numeric column the rows come out in ascending or descending order of that column |
| DataExplorer.SortedByText | frontend/src/components/analytics/DataExplorer.js:212-218 | on a text column sorted ascending the rows come out in code-unit order of that column |
| DataExplorer.AddFilter | frontend/src/components/analytics/DataExplorer.js:221-231 | a new `eq` filter with an empty value on the first field (`undefined` without fields) is appended and the others stay |
| DataExplorer.ChangeFilter | frontend/src/components/analytics/DataExplorer.js:233-237 | only the filter at the index is replaced |
| DataExplorer.RemoveFilter | frontend/src/components/analytics/DataExplorer.js:239-241 | exactly the filter at the index is dropped and the others close up in order; an index past the end changes nothing |
| DataExplorer.AddThenRemove | frontend/src/components/analytics/DataExplorer.js:221-241 | removing a freshly added filter restores the list |
| DataExplorer.Page | frontend/src/components/analytics/DataExplorer.js:498 | a page holds at most `rowsPerPage` rows, the consecutive rows starting at `page * rowsPerPage` |
| DataExplorer.RowOnItsPage | frontend/src/components/analytics/DataExplorer.js:498 | row i is on page i / rowsPerPage at position i % rowsPerPage |
| MockApi.IdValue | src/services/api.js:182 | `parseInt(id)`: the number the text starts with, or NaN |
| MockApi.IndexById | src/services/api.js:199 | `findIndex(b => b.id === parseInt(id))`: -1 exactly when no record's id is strictly equal, otherwise the first that is |
| MockApi.Login | src/services/api.js:40-48 | sign-in succeeds exactly when the first user with both the username and the password has an id, name and role that `btoa` can encode (no character above U+00FF); the token then names that user and is stored; with no such user the answer is `Invalid credentials`, and otherwise `btoa` throws `InvalidCharacterError` |
| MockApi.Logout | src/services/api.js:72-75 | signing out drops the token and keeps every table |
| MockApi.CurrentUser | src/services/api.js:77-85 | there is a current user exactly when a token is stored |
| MockApi.NewUser | src/services/api.js:62-66 | the new user carries the data's fields, the id one past the user count unless the data brings one, and always the role USER |
| MockApi.Register | src/services/api.js:50-70 | registration fails exactly when the username or the e-mail is taken, the username being reported first; otherwise exactly one user is appended |
| MockApi.RegisterThenLogin | src/services/api.js:40-70 | a newly registered user whose id and name are Latin-1 can sign in with the same credentials, gets the USER role, and the token names them |
| MockApi.WideUsernameThrows | src/services/api.js:40-48 | a user found under a name with a character above U+00FF cannot sign in: encoding the token throws |
| MockApi.AdminCanSignIn | src/services/api.js:27-48 | the seeded administrator signs in with the seeded password and gets the ADMIN role |
| MockApi.GetBook | src/services/api.js:181-186 | a book is found exactly when some book has the id, and then it is the first such book; otherwise 404 |
| MockApi.NewBook | src/services/api.js:188-194 | the new book has the data's fields, rating and reviews 0, as many available copies as total copies, and the given id unless the data brings one |
| MockApi.CreateBook | src/services/api.js:187-197 | as written: the new book, with id one past the number of books, is appended |
| MockApi.CreateAfterDeleteRepeatsAnId | src/services/api.js:187-213 | with books 1, 2 and 3, deleting book 1 and creating a book gives two books with id 3 |
| MockApi.MaxId | src/services/api.js:189 | the largest numeric book id, or 0: no book's numeric id exceeds it |
| MockApi.CreateBookFresh | src/services/api.js:187-197 | corrected: the new id is one past the largest id in use |
| MockApi.FreshIdIsUnused | src/services/api.js:187-197 | a book created with the corrected id never shares it with an existing book |
| MockApi.UpdateBook | src/services/api.js:198-205 | 404 exactly when no book has the id; otherwise the first such book gets the data merged in and no other book changes |
| MockApi.UpdateThenGet | src/services/api.js:181-205 | after an update that keeps the id, fetching the book returns the merged record |
| MockApi.DeleteBook | src/services/api.js:206-213 | 404 exactly when no book has the id; otherwise exactly the first such book leaves the list and the others keep their order |
| MockApi.SearchBooks | src/services/api.js:214-225 | the result holds exactly the books matching the given title substring (ignoring case) and the given genre; an absent parameter does not filter |
| MockApi.SearchIsConjunction | src/services/api.js:214-225 | the two filters in a row are one filter by their conjunction, in catalogue order |
| MockApi.AvailableBooks | src/services/api.js:226-229 | exactly the books with more than zero available copies |
| MockApi.CreateAuthor | src/services/api.js:240-248 | the new author has the data's fields, an empty book list, and the id one past the author count unless the data brings one |
| MockApi.SearchAuthors | src/services/api.js:265-270 | exactly the authors whose name contains the query, ignoring case; a query or name that is not text throws |
| MockApi.FixedDigits | src/services/api.js:302-303 | a field of `toISOString` is exactly w decimal digits |
| MockApi.FixedDigitsOrder | src/services/api.js:337 | fixed-width digits compare as text exactly as the numbers compare |
| MockApi.DateTextOrder | src/services/api.js:337 | comparing `yyyy-MM-dd` texts as strings is comparing the dates, for years 0 to 9999 |
| MockApi.IsoDateOrder | src/services/api.js:335-337 | the same for the calendar dates of two instants |
| MockApi.Step | src/services/api.js:309 | `availableCopies--` and `++` move a number by one |
| MockApi.AdjustCopies | src/services/api.js:309 | only the one book's copy count moves; no other book and no other field changes |
| MockApi.Borrow | src/services/api.js:283-312 | 401 without a signed-in user, 404 for an unknown book, 400 without a copy left, checked in that order; otherwise an ACTIVE lending due in fourteen days is recorded and the book loses a copy |
| MockApi.Return | src/services/api.js:313-333 | 404 for an unknown lending, 400 when it is not ACTIVE; otherwise it becomes RETURNED today and its book, if present, gains a copy |
| MockApi.MyLendings | src/services/api.js:275-282 | 401 exactly without a signed-in user; otherwise exactly the lendings whose user id is the signed-in user's |
| MockApi.Overdue | src/services/api.js:334-340 | exactly the ACTIVE lendings whose due-date text sorts before today's |
| MockApi.BorrowedBookFallsDue | src/services/api.js:298-306 | a lending borrowed now is overdue from the fifteenth day on, and not before |
| MockApi.AdjustKeepsIds | src/services/api.js:309 | changing a copy count keeps every id, so lookups by id find the same book |
| MockApi.BorrowKeepsStock | src/services/api.js:283-312 | borrowing moves one copy from the shelf to a loan: every book's available copies plus its ACTIVE lendings stay the same |
| MockApi.LendKeepsStock | src/services/api.js:298-309 | taking a copy off the first book with the lent id and appending a lending of that id leaves every book's available copies plus ACTIVE lendings unchanged |
| MockApi.ShelveKeepsStock | src/services/api.js:319-330 | closing an ACTIVE lending and putting a copy back on its book keeps every book's stock |
| MockApi.ReturnKeepsStock | src/services/api.js:313-333 | returning moves one copy from a loan back to the shelf: every book's stock stays the same |
| FileUpload.StoredName | src/main/java/com/library/controller/FileUploadController.java:36 | the stored name is the UUID, an underscore, then the original name (`null` when absent), each part recoverable by position |
| FileUpload.UploadImage | src/main/java/com/library/controller/FileUploadController.java:23-48 | the type directory always exists afterwards; the upload succeeds exactly when the copy raises nothing and no file has the path, and then the content is at the path and the answer is the public path; otherwise the files are unchanged and the answer is a 400 that starts `Failed to upload file: ` |
| FileUpload.PublicPathLocatesFile | src/main/java/com/library/controller/FileUploadController.java:37-44 | the upload directory followed by the returned path names the stored file, which holds the uploaded content |
| FileUpload.DistinctUuidsDistinctNames | src/main/java/com/library/controller/FileUploadController.java:36 | two different UUIDs of one length never give the same stored name, whatever the original names |
| FileUpload.PathIsNotSanitised | src/main/java/com/library/controller/FileUploadController.java:29-37 | the type and the original name reach the path verbatim, so a type like `../x` leaves the upload directory |
| ExportService.Selection | src/main/java/com/library/service/ExportService.java:17 | exactly the lendings borrowed from midnight of the start day to midnight of the end day, both inclusive, with the count of them |
| ExportService.ExportLendingHistory | src/main/java/com/library/service/ExportService.java:16-32 | the report is the header followed by the lines of the selected lendings; with nothing selected it is the header alone |
| ExportService.ConcatAppend | src/main/java/com/library/service/ExportService.java:22-29 | appending texts in two runs gives the text of appending them in one |
| ExportService.LinesAppend | src/main/java/com/library/service/ExportService.java:22-29 | the lines of two runs of lendings are the lines of the first followed by those of the second |
| ExportService.LendingLineIsOneLine | src/main/java/com/library/service/ExportService.java:23-28 | a lending whose title, member name and status hold no line break prints as exactly one line |
| ExportService.HeaderIsThreeLines | src/main/java/com/library/service/ExportService.java:19-20 | the header is three lines: the title, the range, and a blank line |
| ExportService.HistoryLineCount | src/main/java/com/library/service/ExportService.java:16-32 | the history has three header lines plus one line per selected lending |
| ExportService.ExportAnalyticsReport | src/main/java/com/library/service/ExportService.java:34-44 | the report is the header and `Total Lendings: ` followed by a decimal number and nothing else |
| ExportService.TotalMatchesHistory | src/main/java/com/library/service/ExportService.java:16-44 | the number the analytics report prints is the number of lendings the history lists for the same range |
| NotificationService.NoticeFor | src/main/java/com/library/service/NotificationService.java:31-35 | a notice goes to the member's e-mail, names the book, and carries the due date as `MMMM d, yyyy` |
| Calendar.LongDateReadsBack | src/main/java/com/library/service/NotificationService.java:22 | for years 1 to 9999 a date printed as `MMMM d, yyyy` reads back as the same year, month and day |
| Calendar.LongDateMeansSameDay | src/main/java/com/library/service/NotificationService.java:22 | for years 1 to 9999 two due dates print the same text exactly when they fall on the same day |
| NotificationService.ErrorLog | src/main/java/com/library/service/NotificationService.java:36-39 | one error line per failed notice, each starting with the failure prefix |
| NotificationService.SendEach | src/main/java/com/library/service/NotificationService.java:29-40 | every selected lending gets exactly one notice attempt, in order, and the log has one line per failure |
| NotificationService.ErrorLogAppend | src/main/java/com/library/service/NotificationService.java:29-40 | the log of a run is the log of its first part followed by that of the rest |
| NotificationService.FailuresDoNotStopLaterSends | src/main/java/com/library/service/NotificationService.java:29-40 | a failed notice does not stop the loop: the lendings after it are tried and logged as if they were a run of their own |
| NotificationService.NoFailureNoLog | src/main/java/com/library/service/NotificationService.java:36-39 | when every notice goes out, nothing is logged |
| NotificationService.OverdueSelection | src/main/java/com/library/repository/BookLendingRepository.java:13-14 | exactly the unreturned lendings due strictly before now |
| NotificationService.SendOverdueNotifications | src/main/java/com/library/service/NotificationService.java:26-41 | one overdue notice per overdue lending, in order |
| NotificationService.ReminderSelection | src/main/java/com/library/service/NotificationService.java:46-53 | exactly the unreturned lendings due strictly between one and two days from now |
| NotificationService.SendDueDateReminders | src/main/java/com/library/service/NotificationService.java:45-66 | one reminder per lending due soon, in order |
| NotificationService.RemindersAreNeverOverdue | src/main/java/com/library/service/NotificationService.java:26-66 | no lending gets both a reminder and an overdue notice in the same run |
| AnalyticsService.ActiveLendings | src/main/java/com/library/service/AnalyticsService.java:41 | the active lendings are a part of all lendings |
| AnalyticsService.OverdueLendings | src/main/java/com/library/service/AnalyticsService.java:42 | the overdue lendings are a part of all lendings |
| AnalyticsService.OverdueAreActive | src/main/java/com/library/service/AnalyticsService.java:41-42 | the dashboard never shows more overdue books than active lendings |
| AnalyticsService.Approved | src/main/java/com/library/service/AnalyticsService.java:45-46 | the approved reviews only, all of them |
| AnalyticsService.AverageApprovedRating | src/main/java/com/library/service/AnalyticsService.java:45-50 | without approved reviews the average is 0.0 |
| AnalyticsService.AverageApprovedRatingInScale | src/main/java/com/library/service/AnalyticsService.java:45-50 | with ratings 1 to 5 and some approved review, the average lies between 1 and 5 |
| AnalyticsService.PendingReviewsIgnored | src/main/java/com/library/service/AnalyticsService.java:45-50 | a review awaiting approval does not move the average |
| AnalyticsService.TopCounts | src/main/java/com/library/service/AnalyticsService.java:52-72 | the first ten ranking rows, or all when fewer, each turned into an item with the same id, name and count |
| AnalyticsService.TopRatings | src/main/java/com/library/service/AnalyticsService.java:74-83 | the same for the rating rows, keeping the average rating |
| AnalyticsService.TopCountsIgnoreTail | src/main/java/com/library/service/AnalyticsService.java:52-60 | rows past the tenth never show in a top list |
| AnalyticsService.BooksByGenre | src/main/java/com/library/service/AnalyticsService.java:86-90 | a key for exactly the genres that occur, each mapped to its number of books |
| AnalyticsService.CountOfGenres | src/main/java/com/library/service/AnalyticsService.java:86-90 | counting a genre among the genres is counting the books of that genre |
| AnalyticsService.GenreCountsCoverBooks | src/main/java/com/library/service/AnalyticsService.java:86-90 | every book is counted in exactly one genre: the counts add up to the number of books |
| AnalyticsService.LastYear | src/main/java/com/library/service/AnalyticsService.java:94 | exactly the lendings borrowed strictly after twelve months before now |
| AnalyticsService.MonthCounts | src/main/java/com/library/service/AnalyticsService.java:95-97 | a key for exactly the months in which a lending was made, each with its positive count |
| AnalyticsService.LendingsByMonth | src/main/java/com/library/service/AnalyticsService.java:92-98 | the same, for the lendings of the last twelve months only |
| AnalyticsService.MonthKeysOccur | src/main/java/com/library/service/AnalyticsService.java:96 | a month key is listed exactly when some lending was borrowed in that month |
| AnalyticsService.MonthCountsCoverLastYear | src/main/java/com/library/service/AnalyticsService.java:92-98 | every lending of the last twelve months counts in exactly one month: the month counts add up to their number |
| AnalyticsService.LibraryStatsOf | src/main/java/com/library/service/AnalyticsService.java:34-101 | the statistics: the three table sizes, overdue at most active at most all lendings, the approved average, top lists of at most ten, and the genre and month maps |
| Recommendation.TallyCounts | src/main/java/com/library/service/RecommendationService.java:38-50 | after the merges a genre holds its old weight plus the step for every occurrence, and the genres with a weight are the old ones and the new ones |
| Recommendation.GenresRatedHigh | src/main/java/com/library/service/RecommendationService.java:45-50 | exactly the genres of the books the user rated 4 or more |
| Recommendation.PreferenceWeights | src/main/java/com/library/service/RecommendationService.java:34-50 | a genre's weight is its number of lendings plus twice its number of high ratings; it has a weight exactly when it has either |
| Recommendation.PreferenceKeys | src/main/java/com/library/service/RecommendationService.java:34-50 | the genres with a weight are exactly those borrowed or rated highly |
| Recommendation.Heaviest | src/main/java/com/library/service/RecommendationService.java:53-57 | at most n distinct keys, heaviest first, none left out weighing more than one kept |
| Recommendation.PreferredGenres | src/main/java/com/library/service/RecommendationService.java:52-57 | at most three distinct preferred genres, heaviest first, and no other genre outweighs one of them |
| Recommendation.ApprovedAverage | src/main/java/com/library/repository/ReviewRepository.java:13-14 | there is an average exactly when the book has an approved review |
| Recommendation.BookScore | src/main/java/com/library/service/RecommendationService.java:83-100 | with a genre rank 0 to 2 and a rating 0 to 5, a score lies between 0.4 and 3.0 |
| Recommendation.PreferredGenreScoresHigher | src/main/java/com/library/service/RecommendationService.java:86-87 | between two books alike but for genre rank, the more preferred genre scores strictly higher |
| Recommendation.LendingCount | src/main/java/com/library/service/RecommendationService.java:96 | a book's lending count is a part of all lendings |
| Recommendation.Candidates | src/main/java/com/library/service/RecommendationService.java:59-62 | exactly the books the user has not borrowed whose genre is preferred, in table order |
| Recommendation.PersonalizedAsWritten | src/main/java/com/library/service/RecommendationService.java:60-66 | as written: exactly min(10, number of candidates) candidates drawn without repetition, all of them when there are at most ten, lowest score first, and no candidate left out scores lower than one returned |
| Recommendation.Personalized | src/main/java/com/library/service/RecommendationService.java:60-66 | corrected: exactly min(10, number of candidates) candidates drawn without repetition, all of them when there are at most ten, best first, and no candidate left out scores higher than one returned |
| Recommendation.BestCandidateDropped | src/main/java/com/library/service/RecommendationService.java:60-66 | with more than ten candidates, the strictly best-scoring one is never recommended as written, and leads the corrected list |
| Recommendation.CandidatesNoDuplicates | src/main/java/com/library/service/RecommendationService.java:60-62 | with unique book ids, no candidate is listed twice |
| Recommendation.Similarity | src/main/java/com/library/service/RecommendationService.java:102-126 | with ratings 0 to 5, similarity lies between 0 and 1, and is at least 0.7 for two books of one genre with a common author |
| Recommendation.SimilarityIsSymmetric | src/main/java/com/library/service/RecommendationService.java:102-126 | similarity does not depend on which book is the source |
| Recommendation.SameGenre | src/main/java/com/library/service/RecommendationService.java:75-77 | exactly the other books of the source's genre |
| Recommendation.SimilarAsWritten | src/main/java/com/library/service/RecommendationService.java:71-81 | as written: an unknown id throws `Book not found`; otherwise exactly min(5, books of the genre) other books of the genre drawn without repetition, least similar first, none left out less similar than one returned |
| Recommendation.SimilarBooks | src/main/java/com/library/service/RecommendationService.java:71-81 | corrected: the same error; otherwise exactly min(5, books of the genre) other books of the genre drawn without repetition, most similar first, none left out more similar than one returned |
| Recommendation.MostSimilarDropped | src/main/java/com/library/service/RecommendationService.java:71-81 | with more than five books of the genre, the strictly most similar one is never returned as written, and leads the corrected list |
| LendingController.ToDto | src/main/java/com/library/controller/BookLendingController.java:112-122 | the DTO keeps every field of the lending and only the ids of its book and member |
| LendingController.ToDtos | src/main/java/com/library/controller/BookLendingController.java:35-41 | one DTO per lending, in table order |
| LendingController.DtoLosesOnlyReferences | src/main/java/com/library/controller/BookLendingController.java:112-122 | two lendings that agree in their own fields and in the ids they reference give the same DTO |
| LendingController.NewLending | src/main/java/com/library/controller/BookLendingController.java:69-74 | the new lending is unreturned, BORROWED, and due exactly fourteen days after it was borrowed |
| LendingController.MoveCopies | src/main/java/com/library/controller/BookLendingController.java:76-77 | only the one book's copy count moves, by the given amount; no other book and no other field changes |
| LendingController.Borrow | src/main/java/com/library/controller/BookLendingController.java:55-81 | an unknown book throws, a book without copies is a 400, an unknown user throws, in that order, each leaving the tables alone; otherwise the book loses a copy and the new lending is appended and returned as a DTO |
| LendingController.Return | src/main/java/com/library/controller/BookLendingController.java:83-102 | an unknown lending throws, a returned one is a 400; the return succeeds exactly for an unreturned lending, which gets now as return date and RETURNED, and its book gains a copy |
| LendingController.MyLendings | src/main/java/com/library/controller/BookLendingController.java:43-53 | an unknown user throws; otherwise every unreturned lending of the user is listed, and every listed DTO is the DTO of one of them |
| LendingController.OverdueLendings | src/main/java/com/library/controller/BookLendingController.java:104-110 | every unreturned lending due before now is listed, and every listed DTO is the DTO of such a lending |
| LendingController.SameIdsSameIndex | src/main/java/com/library/controller/BookLendingController.java:76-77 | changing copies keeps every id, so every lookup by id finds the same row |
| LendingController.BorrowKeepsStock | src/main/java/com/library/controller/BookLendingController.java:55-81 | a borrow moves one copy from the shelf to a lending: every book's available copies plus its unreturned lendings stay the same |
| LendingController.ReturnKeepsStock | src/main/java/com/library/controller/BookLendingController.java:83-102 | a return moves one copy back: every book's stock stays the same |
| LendingController.SecondReturnFails | src/main/java/com/library/controller/BookLendingController.java:89-91 | returning a returned lending again is a 400 and changes nothing |
| LendingController.RefusedBorrowChangesNothing | src/main/java/com/library/controller/BookLendingController.java:61-63 | a borrow refused for lack of copies changes nothing and is refused again |
| LendingController.BorrowedBookIsListed | src/main/java/com/library/controller/BookLendingController.java:43-81 | the new lending is among the borrower's current lendings, and is overdue exactly once fourteen days have passed |
| ReviewController.ToDto | src/main/java/com/library/controller/ReviewController.java:115-126 | the DTO keeps every field of the review, the book's id, and the member's id and name |
| ReviewController.Listing | src/main/java/com/library/controller/ReviewController.java:35-107 | every review meeting the condition is listed, and every listed DTO comes from such a review |
| ReviewController.BookReviews | src/main/java/com/library/controller/ReviewController.java:35-40 | every approved review of the book is listed, and every listed DTO is the DTO of such a review |
| ReviewController.MyReviews | src/main/java/com/library/controller/ReviewController.java:42-52 | an unknown user throws; otherwise every approved review of the user is listed, and every listed DTO is the DTO of such a review |
| ReviewController.Pending | src/main/java/com/library/controller/ReviewController.java:101-107 | every review awaiting approval is listed, and every listed DTO is the DTO of such a review |
| ReviewController.AverageRating | src/main/java/com/library/controller/ReviewController.java:109-113 | 0.0 without approved reviews; otherwise the mean of the approved ratings: times their number it gives their sum |
| ReviewController.Create | src/main/java/com/library/controller/ReviewController.java:54-77 | an unknown book, then an unknown user, throws and changes nothing; otherwise exactly one review is appended, with the rating and comment given, written now and not approved |
| ReviewController.Approve | src/main/java/com/library/controller/ReviewController.java:79-88 | an unknown review throws; otherwise only its approved flag is set |
| ReviewController.Delete | src/main/java/com/library/controller/ReviewController.java:90-99 | 404 for an unknown id, changing nothing; otherwise exactly that row leaves the table |
| ReviewController.ApproveIsIdempotent | src/main/java/com/library/controller/ReviewController.java:79-88 | approving twice leaves the tables as approving once |
| ReviewController.NewReviewWaitsForApproval | src/main/java/com/library/controller/ReviewController.java:54-77 | a new review is pending, is not among its book's reviews, and moves no book's average until approved |
| ReviewController.ApprovedReviewIsListed | src/main/java/com/library/controller/ReviewController.java:79-88 | an approved review is among its book's reviews and no longer pending |
| ReviewController.DeleteMissingChangesNothing | src/main/java/com/library/controller/ReviewController.java:90-99 | deleting a missing review, however often, is a 404 that changes nothing |
| Recommendation.ApprovedAverageMatchesEndpoint | src/main/java/com/library/repository/ReviewRepository.java:13-14 | the query's average agrees with what the rating endpoint reports, which shows 0 where the query gives null |
| BookController.IdsOf | src/main/java/com/library/controller/BookController.java:120-122 | every author's id is in the set, and every id in it is some author's |
| BookController.ToDto | src/main/java/com/library/controller/BookController.java:109-124 | the DTO copies every column and holds the ids of exactly the book's authors |
| BookController.ToDtos | src/main/java/com/library/controller/BookController.java:30-35 | one DTO per book, in table order |
| BookController.Resolve | src/main/java/com/library/controller/BookController.java:140-141 | a known author id resolves to an author row with that id |
| BookController.ToEntity | src/main/java/com/library/controller/BookController.java:126-147 | it fails exactly when some author id has no row, naming exactly those ids; otherwise the row copies every column, takes the given id, and has exactly the authors the ids name (none when the ids are absent) |
| BookController.EntityRoundTrip | src/main/java/com/library/controller/BookController.java:109-147 | a book whose authors are the rows their ids resolve to comes back unchanged from its DTO |
| BookController.DtoRoundTrip | src/main/java/com/library/controller/BookController.java:109-147 | a DTO whose author ids all resolve comes back unchanged from the row it makes, apart from the row's id |
| BookController.GetById | src/main/java/com/library/controller/BookController.java:37-43 | 404 exactly when no book has the id; otherwise the DTO of that book, carrying the id |
| BookController.Create | src/main/java/com/library/controller/BookController.java:45-51 | an unknown author id throws and changes nothing; otherwise only the book table changes: a DTO id naming a row replaces that row, any other DTO is appended under the issued id |
| BookController.Update | src/main/java/com/library/controller/BookController.java:53-64 | 404 for an unknown id, an unknown author id throws, each changing nothing; otherwise the row at the id is replaced by the DTO's row under the path's id, and nothing else changes |
| BookController.Delete | src/main/java/com/library/controller/BookController.java:66-75 | 404 for an unknown id, changing nothing; otherwise exactly that row leaves the table |
| BookController.UpdateThenGet | src/main/java/com/library/controller/BookController.java:37-64 | reading a book back after an update gives the updated DTO |
| BookController.DeleteThenNotFound | src/main/java/com/library/controller/BookController.java:37-75 | with distinct ids, a deleted book reads as 404 and deleting it again is 404 |
| BookController.UnknownAuthorThrows | src/main/java/com/library/controller/BookController.java:138-144 | an unknown author id makes creating throw and updating fail, with the tables unchanged |
| BookController.ByIsbn | src/main/java/com/library/repository/BookRepository.java:11 | the single-result query throws `IncorrectResultSizeDataAccessException` exactly when two rows carry the ISBN; otherwise none exactly when no book has it, else the one book that has it |
| BookController.SharedIsbnThrows | src/main/java/com/library/repository/BookRepository.java:11 | searching by an ISBN that two rows carry throws instead of answering |
| BookController.UniqueIsbnFindsTheBook | src/main/java/com/library/controller/BookController.java:88-92 | when one row alone carries the ISBN, the search answers with exactly that book's DTO |
| BookController.SearchRows | src/main/java/com/library/controller/BookController.java:83-95 | a non-empty title selects exactly the books whose title contains it ignoring case; else a non-empty genre exactly the books of that genre; else a non-empty ISBN throws exactly when two books share it and otherwise gives at most its book; else every book |
| BookController.Search | src/main/java/com/library/controller/BookController.java:77-100 | throws exactly when the row selection throws; otherwise the DTOs of the selected rows, in order |
| BookController.EmptyParameterIsIgnored | src/main/java/com/library/controller/BookController.java:84-88 | an empty parameter counts as absent |
| BookController.TitleWins | src/main/java/com/library/controller/BookController.java:84-85 | with a title given, the genre and ISBN make no difference |
| BookController.Available | src/main/java/com/library/controller/BookController.java:102-107 | every book with at least one copy on the shelf is listed, and every listed DTO is the DTO of such a book |
| Library.BookIndex | src/main/java/com/library/controller/BookController.java:39 | the position of the first book with the id, or -1 exactly when none has it |
| Library.UserNamed | src/main/java/com/library/controller/BookLendingController.java:46-48 | the first user with the name, or none exactly when no user has it |
| Library.LendingsByUser | src/main/java/com/library/repository/BookLendingRepository.java:10 | exactly the lendings of the user, with their count |
| Library.LendingsOf | src/main/java/com/library/repository/BookLendingRepository.java:11 | exactly the lendings of the book, with their count |
| InventoryPrediction.Utilization | src/main/java/com/library/service/InventoryPredictionService.java:60-68 | 0 for a book without copies; otherwise not negative, and at most 1 while no more copies are out than owned |
| InventoryPrediction.UtilizationIsShareOut | src/main/java/com/library/service/InventoryPredictionService.java:60-68 | utilization times the copies owned is the number of copies out |
| InventoryPrediction.TurnoverRate | src/main/java/com/library/service/InventoryPredictionService.java:70-78 | the rate times 30 is the number of lendings of the last 30 days; it lies between 0 and the lending count over 30 |
| InventoryPrediction.CurrentDemand | src/main/java/com/library/service/InventoryPredictionService.java:109-117 | the demand times 7 is the number of lendings of the last 7 days |
| InventoryPrediction.Condition | src/main/java/com/library/service/InventoryPredictionService.java:80-87 | one of the four conditions |
| InventoryPrediction.MaintenanceType | src/main/java/com/library/service/InventoryPredictionService.java:263-270 | one of the four kinds of work |
| InventoryPrediction.MaintenanceCost | src/main/java/com/library/service/InventoryPredictionService.java:282-291 | one of the four prices, positive exactly for the three kinds of real work |
| InventoryPrediction.TiersAgree | src/main/java/com/library/service/InventoryPredictionService.java:80-291 | each band of lending counts (over 100, 51 to 100, 21 to 50, up to 20) gets exactly one condition, one kind of work and one price, and they agree |
| InventoryPrediction.CostGrowsWithUse | src/main/java/com/library/service/InventoryPredictionService.java:263-291 | more lendings never mean cheaper upkeep |
| InventoryPrediction.AverageGroup | src/main/java/com/library/service/InventoryPredictionService.java:156-159 | 1.0 without lendings, and never below 1 |
| InventoryPrediction.AverageIsLendingsPerMonth | src/main/java/com/library/service/InventoryPredictionService.java:150-159 | the average is the number of lendings per month in which some lending was made |
| InventoryPrediction.MonthFactor | src/main/java/com/library/service/InventoryPredictionService.java:147-162 | never negative; 1 without lendings; at most 1 for a month without lendings |
| InventoryPrediction.MonthFactorComparesToAverage | src/main/java/com/library/service/InventoryPredictionService.java:161 | a month with lendings has a factor above or at 1 exactly when its count is above or at the average |
| InventoryPrediction.SeasonalFactor | src/main/java/com/library/service/InventoryPredictionService.java:147-162 | the same for the current month of one book's lendings |
| InventoryPrediction.MonthName | src/main/java/com/library/service/InventoryPredictionService.java:167 | the English month constant of the borrow month |
| InventoryPrediction.Seasonality | src/main/java/com/library/service/InventoryPredictionService.java:164-170 | a key for exactly the month names that occur, each with its positive count |
| InventoryPrediction.SeasonalityCountsEveryLending | src/main/java/com/library/service/InventoryPredictionService.java:164-170 | every lending is counted in exactly one month: the counts add up to the number of lendings |
| InventoryPrediction.Rate | src/main/java/com/library/service/InventoryPredictionService.java:135-141 | never negative, and 0 when nothing was lent in the window |
| InventoryPrediction.Scaled | src/main/java/com/library/service/InventoryPredictionService.java:141-144 | never negative; a factor of 1 keeps the rate; a zero rate or factor gives 0 |
| InventoryPrediction.Projection | src/main/java/com/library/service/InventoryPredictionService.java:134-145 | the window's rate scaled by the seasonal factor, never negative |
| InventoryPrediction.ProjectionsScaleRates | src/main/java/com/library/service/InventoryPredictionService.java:109-145 | the 7- and 30-day projections are the current demand and the turnover rate scaled by the season |
| InventoryPrediction.ProjectDemand | src/main/java/com/library/service/InventoryPredictionService.java:119-132 | the short, medium and long term are the projections over 7, 30 and 90 days |
| InventoryPrediction.DemandTrend | src/main/java/com/library/service/InventoryPredictionService.java:222-238 | 1.0 when the previous window is empty; never negative |
| InventoryPrediction.DemandTrendIsRatio | src/main/java/com/library/service/InventoryPredictionService.java:236-237 | with lendings in the previous window, the trend times their number is the number of recent lendings |
| InventoryPrediction.BoundaryInNeitherWindow | src/main/java/com/library/service/InventoryPredictionService.java:226-234 | a lending made exactly 30 days ago is neither recent nor previous |
| InventoryPrediction.WindowsSplitSixtyDays | src/main/java/com/library/service/InventoryPredictionService.java:222-238 | recent plus previous plus the lendings made exactly 30 days ago is the number of lendings of the last 60 days |
| InventoryPrediction.RecommendedCopies | src/main/java/com/library/service/InventoryPredictionService.java:194-200 | never negative; positive exactly when 1.5 times the 30-day projection, rounded up, exceeds the copies owned, and then the shortfall |
| InventoryPrediction.AcquisitionPriority | src/main/java/com/library/service/InventoryPredictionService.java:202-209 | HIGH, MEDIUM and LOW each exactly under its own condition on utilization and trend |
| InventoryPrediction.AcquisitionReason | src/main/java/com/library/service/InventoryPredictionService.java:211-220 | each of the four reasons exactly under its own condition, replacement first |
| InventoryPrediction.HighPriorityReason | src/main/java/com/library/service/InventoryPredictionService.java:202-220 | a HIGH acquisition is explained by replacement or high utilization, never by demand alone |
| InventoryPrediction.AcquisitionRankIsDescendingText | src/main/java/com/library/service/InventoryPredictionService.java:190 | the rank order of the priorities is descending string order |
| InventoryPrediction.RecommendAcquisitions | src/main/java/com/library/service/InventoryPredictionService.java:172-192 | exactly the books short of copies, each with its own row, in descending priority text |
| InventoryPrediction.EveryShortBookIsRecommended | src/main/java/com/library/service/InventoryPredictionService.java:172-192 | every book short of copies is recommended |
| InventoryPrediction.HighPriorityComesLast | src/main/java/com/library/service/InventoryPredictionService.java:190 | once a HIGH row appears, every later row is HIGH as well |
| InventoryPrediction.MaintenancePriority | src/main/java/com/library/service/InventoryPredictionService.java:272-280 | URGENT, HIGH and MEDIUM each exactly under its own condition, otherwise LOW |
| InventoryPrediction.LightlyUsedIsLow | src/main/java/com/library/service/InventoryPredictionService.java:263-280 | a book lent 20 times or fewer is LOW and needs no work, however busy |
| InventoryPrediction.MaintenanceRankIsDescendingText | src/main/java/com/library/service/InventoryPredictionService.java:259 | the rank order of the priorities is descending string order |
| InventoryPrediction.MaintenanceRows | src/main/java/com/library/service/InventoryPredictionService.java:244-257 | one row per book; work is needed exactly when it costs something |
| InventoryPrediction.MaintenanceNeeds | src/main/java/com/library/service/InventoryPredictionService.java:240-261 | only books that need work, each costing something, in descending priority text |
| InventoryPrediction.WornBooksNeedWork | src/main/java/com/library/service/InventoryPredictionService.java:240-261 | a book is listed exactly when it was lent more than 20 times |
| InventoryPrediction.NeverLentProjectsNothing | src/main/java/com/library/service/InventoryPredictionService.java:119-200 | a book never lent has a seasonal factor of 1, projects 0 everywhere, and is short only of copies it owes |
| PredictiveAnalytics.Baseline | src/main/java/com/library/service/PredictiveAnalyticsService.java:68-71 | 0 without lendings; otherwise at least 1, since every day that occurs has a lending |
| PredictiveAnalytics.DaysOn | src/main/java/com/library/service/PredictiveAnalyticsService.java:82-86 | exactly the days with lendings that fall on the weekday |
| PredictiveAnalytics.Weekdays | src/main/java/com/library/service/PredictiveAnalyticsService.java:82-86 | exactly the weekdays on which some lending was made |
| PredictiveAnalytics.WeekdayAverage | src/main/java/com/library/service/PredictiveAnalyticsService.java:85 | a weekday that occurs averages at least one lending per day |
| PredictiveAnalytics.WeekdayAverages | src/main/java/com/library/service/PredictiveAnalyticsService.java:82-86 | one average per weekday that occurs, each at least 1 |
| PredictiveAnalytics.OverallAverage | src/main/java/com/library/service/PredictiveAnalyticsService.java:88-91 | never below 1, so the division that follows is defined |
| PredictiveAnalytics.WeekdayFactor | src/main/java/com/library/service/PredictiveAnalyticsService.java:80-94 | never negative; exactly 1 for a weekday without lendings |
| PredictiveAnalytics.Boosted | src/main/java/com/library/service/PredictiveAnalyticsService.java:77 | never negative; 0 for a zero baseline; 1.2 times the baseline for a factor of 1 |
| PredictiveAnalytics.DemandPrediction | src/main/java/com/library/service/PredictiveAnalyticsService.java:65-78 | never negative |
| PredictiveAnalytics.Forecast | src/main/java/com/library/service/PredictiveAnalyticsService.java:36-63 | exactly 30 points, the i-th dated i days after today's midnight with that day's prediction |
| PredictiveAnalytics.ForecastIsWeekly | src/main/java/com/library/service/PredictiveAnalyticsService.java:52-60 | a day and the same weekday a week later get the same demand |
| PredictiveAnalytics.WeekLaterSameDemand | src/main/java/com/library/service/PredictiveAnalyticsService.java:74-75 | the prediction depends on the date only through its weekday |
| PredictiveAnalytics.EmptyHistoryForecastsNothing | src/main/java/com/library/service/PredictiveAnalyticsService.java:36-78 | without lending history every point is 0 |
| PredictiveAnalytics.PopularityScore | src/main/java/com/library/service/PredictiveAnalyticsService.java:124-130 | with a rating 0 to 5, the score lies between 0 and 1; from 10 lendings on only the rating matters |
| PredictiveAnalytics.PopularitySaturates | src/main/java/com/library/service/PredictiveAnalyticsService.java:124-130 | more lendings never lower the score, and past 10 they no longer change it |
| PredictiveAnalytics.BookTrend | src/main/java/com/library/service/PredictiveAnalyticsService.java:132-144 | RISING exactly above 20 percent growth, FALLING exactly below -20 percent, STABLE otherwise |
| PredictiveAnalytics.BookTrendInCounts | src/main/java/com/library/service/PredictiveAnalyticsService.java:138-143 | in whole numbers: RISING exactly when five times the growth exceeds the previous count (at least 1), FALLING for the mirror case |
| PredictiveAnalytics.CountBetween | src/main/java/com/library/service/PredictiveAnalyticsService.java:133-134 | a part of all lendings |
| PredictiveAnalytics.CountSince | src/main/java/com/library/service/PredictiveAnalyticsService.java:135-136 | a part of all lendings |
| PredictiveAnalytics.WindowsSplitSixtyDays | src/main/java/com/library/service/PredictiveAnalyticsService.java:132-144 | the previous window (both ends included) and the current one never share a lending and together count every lending of the book from 60 days ago on |
| PredictiveAnalytics.PopularityFor | src/main/java/com/library/service/PredictiveAnalyticsService.java:101-117 | the row names the book and carries its 30-day count, its recent rating, their score and its trend |
| PredictiveAnalytics.PopularityTrends | src/main/java/com/library/service/PredictiveAnalyticsService.java:96-122 | throws a NullPointerException exactly when some book has no approved review in the window (the null average is unboxed into a `double`); otherwise one row per book, a permutation of the rows, ascending by score |
| PredictiveAnalytics.ReturnRate | src/main/java/com/library/service/PredictiveAnalyticsService.java:189-199 | between 0 and 1, and 1 for a user without history |
| PredictiveAnalytics.PerfectRateMeansAllOnTime | src/main/java/com/library/service/PredictiveAnalyticsService.java:189-199 | the rate is 1 exactly when every lending of the history came back on time |
| PredictiveAnalytics.LessThanADayLateIsNotLate | src/main/java/com/library/service/PredictiveAnalyticsService.java:179 | a lending less than a day past due still counts 0 days until due, as whole days truncate toward zero |
| PredictiveAnalytics.ReturnProbability | src/main/java/com/library/service/PredictiveAnalyticsService.java:170-187 | between 0 and 0.8; at most 0.4 once overdue |
| PredictiveAnalytics.ReturnStatus | src/main/java/com/library/service/PredictiveAnalyticsService.java:201-205 | each status exactly under its own band of probability |
| PredictiveAnalytics.PredictionFor | src/main/java/com/library/service/PredictiveAnalyticsService.java:151-166 | the row names the lending, its title and due date, and its probability and status |
| PredictiveAnalytics.PredictReturns | src/main/java/com/library/service/PredictiveAnalyticsService.java:146-168 | exactly one prediction per open lending, each from such a lending, in table order |
| PredictiveAnalytics.NeverPredictedOnTime | src/main/java/com/library/service/PredictiveAnalyticsService.java:170-205 | no lending is ever predicted LIKELY_ON_TIME, and every overdue one is LIKELY_OVERDUE |
| PredictiveAnalytics.Genres | src/main/java/com/library/service/PredictiveAnalyticsService.java:212-213 | every genre that occurs, each once |
| PredictiveAnalytics.BooksOf | src/main/java/com/library/service/PredictiveAnalyticsService.java:212-213 | only books of the genre |
| PredictiveAnalytics.GenrePopularity | src/main/java/com/library/service/PredictiveAnalyticsService.java:239-250 | no score (the unboxing throws) exactly when some book of the genre has no approved review in the window; 0 for a genre without books; with ratings between 0 and 5 the score lies between 0 and 1 |
| PredictiveAnalytics.GenreDirection | src/main/java/com/library/service/PredictiveAnalyticsService.java:264-266 | RISING exactly above 15, FALLING exactly below -15, STABLE otherwise |
| PredictiveAnalytics.GenreThresholdIsLower | src/main/java/com/library/service/PredictiveAnalyticsService.java:132-266 | a one-book genre growing from 5 to 6 lendings is RISING while its book is STABLE |
| PredictiveAnalytics.Strength | src/main/java/com/library/service/PredictiveAnalyticsService.java:269-273 | each strength exactly under its own condition |
| PredictiveAnalytics.RisingIsNeverWeak | src/main/java/com/library/service/PredictiveAnalyticsService.java:269-273 | a rising genre is recommended at least moderately |
| PredictiveAnalytics.GenreTrends | src/main/java/com/library/service/PredictiveAnalyticsService.java:207-237 | throws exactly when some book has no approved review in the window; otherwise one row per genre that occurs, every listed row being that genre's, in descending score |
| UserBehavior.AverageRating | src/main/java/com/library/service/UserBehaviorService.java:89-97 | 0 for a user without reviews |
| UserBehavior.AverageRatingInScale | src/main/java/com/library/service/UserBehaviorService.java:89-97 | with ratings 1 to 5, a reviewer's average lies between 1 and 5 |
| UserBehavior.MetricsFor | src/main/java/com/library/service/UserBehaviorService.java:58-75 | the user's lending count, open lendings, open lendings past due, review count and mean rating |
| UserBehavior.MetricsNest | src/main/java/com/library/service/UserBehaviorService.java:64-70 | overdue at most open at most all of the user's lendings |
| UserBehavior.Segment | src/main/java/com/library/service/UserBehaviorService.java:77-87 | each segment exactly under its own condition, the first matching rule winning |
| UserBehavior.AtRiskHoldsThreeBooks | src/main/java/com/library/service/UserBehaviorService.java:77-87 | a user flagged AT_RISK holds at least three books right now |
| UserBehavior.Segments | src/main/java/com/library/service/UserBehaviorService.java:39-56 | one row per user, in table order, with the user's metrics and their segment |
| UserBehavior.Hours | src/main/java/com/library/service/UserBehaviorService.java:106 | every borrow hour lies in 0 to 23 |
| UserBehavior.BusiestCount | src/main/java/com/library/service/UserBehaviorService.java:124 | no hour is busier than the count, and some hour reaches it |
| JavaHashMap.Capacity | src/main/java/com/library/service/UserBehaviorService.java:104-108 | the table has 16 buckets, or 32 exactly when some key was grouped while more than twelve distinct keys were already in the map |
| JavaHashMap.IterationOrder | src/main/java/com/library/service/UserBehaviorService.java:104-108 | the grouped map yields each distinct key once, ordered by bucket, and within a bucket the key inserted last first |
| JavaHashMap.AscendingAfterResize | src/main/java/com/library/service/UserBehaviorService.java:104-108 | in the 32-bucket table every hour has a bucket of its own, so any list in iteration order is ascending |
| UserBehavior.PeakHours | src/main/java/com/library/service/UserBehaviorService.java:123-129 | throws exactly when there is no lending; otherwise exactly the busiest hours, each once, in the iteration order of the hour distribution's `HashMap`: by bucket, and within a bucket the hour grouped last first |
| UserBehavior.PeakHoursAscendingAfterResize | src/main/java/com/library/service/UserBehaviorService.java:104-108 | once more than twelve distinct hours were grouped before the last lending, the peak hours come out ascending |
| UserBehavior.TiedPeaksInBucketOrder | src/main/java/com/library/service/UserBehaviorService.java:123-129 | hours 3 and 17, one lending each, come out as 17 then 3, in bucket order |
| UserBehavior.SameBucketLatestFirst | src/main/java/com/library/service/UserBehaviorService.java:123-129 | hours 17 and 1, one lending each, share a bucket and come out as 1 then 17, the hour grouped last first |
| UserBehavior.TopGenres | src/main/java/com/library/service/UserBehaviorService.java:131-137 | at most three distinct genres, all when fewer, most lent first, none left out lent more than one kept |
| UserBehavior.MostFrequent | src/main/java/com/library/service/UserBehaviorService.java:131-137 | the n most frequent names, no name twice, most frequent first, none left out more frequent than one kept |
| UserBehavior.Patterns | src/main/java/com/library/service/UserBehaviorService.java:99-121 | throws exactly when there is no lending; otherwise the peak hours and the top genres |
| UserBehavior.RecommendBooks | src/main/java/com/library/service/UserBehaviorService.java:159-175 | in table order, at most five books of the user's genres that the user has not borrowed, all of them when fewer, and exactly the first five such books in table order otherwise |
| UserBehavior.NoHistoryNoRecommendation | src/main/java/com/library/service/UserBehaviorService.java:159-170 | a user who never borrowed gets no recommendation |
| UserBehavior.UserRecommendations | src/main/java/com/library/service/UserBehaviorService.java:139-157 | one row per user with at most five recommended titles |
| UserBehavior.LateRatio | src/main/java/com/library/service/UserBehaviorService.java:221-231 | between 0 and 1, and 0 without lendings |
| UserBehavior.LateRatioExtremes | src/main/java/com/library/service/UserBehaviorService.java:221-231 | 0 exactly when no lending came back late, 1 exactly when all did |
| UserBehavior.LastActivity | src/main/java/com/library/service/UserBehaviorService.java:208-211 | the latest borrow date: some lending has it and none is later |
| UserBehavior.ActivityScore | src/main/java/com/library/service/UserBehaviorService.java:214 | never negative; at most 1 for a past date; 0 from 90 days on |
| UserBehavior.Retention | src/main/java/com/library/service/UserBehaviorService.java:213-218 | between 0.15 and 1; at most 0.3 from 90 days on; 1 for activity today and no late return |
| UserBehavior.RetentionScore | src/main/java/com/library/service/UserBehaviorService.java:201-219 | 0 without lendings; otherwise the score of the last borrow date and the late ratio, between 0.15 and 1 |
| UserBehavior.RiskLevel | src/main/java/com/library/service/UserBehaviorService.java:233-241 | each level exactly under its own band of score |
| UserBehavior.LongInactiveIsHighRisk | src/main/java/com/library/service/UserBehaviorService.java:201-241 | 90 days or more without borrowing means HIGH risk, however punctual |
| UserBehavior.ActivePunctualIsLowRisk | src/main/java/com/library/service/UserBehaviorService.java:201-241 | borrowing today and never returning late scores 1, LOW risk |
| UserBehavior.RecentLendings | src/main/java/com/library/service/UserBehaviorService.java:267-270 | never more than the user's lendings (which ones count is stated by RecentLendingsStep) |
| UserBehavior.RecentLendingsStep | src/main/java/com/library/service/UserBehaviorService.java:267-270 | a further lending borrowed after the three-month mark adds one to the recent count, and one borrowed at or before it adds nothing |
| UserBehavior.RiskFactors | src/main/java/com/library/service/UserBehaviorService.java:243-276 | NO_ACTIVITY alone exactly for a user without lendings; otherwise the factors of the three measures |
| UserBehavior.Factors | src/main/java/com/library/service/UserBehaviorService.java:257-275 | INACTIVE exactly after more than 60 days, HIGH_OVERDUE_RATE exactly above 30 percent late, LOW_RECENT_ACTIVITY exactly below two recent lendings, each at most once and in that order |
| UserBehavior.NoHistoryIsHighRisk | src/main/java/com/library/service/UserBehaviorService.java:201-250 | a user who never borrowed is at HIGH risk with NO_ACTIVITY as the only factor |
| UserBehavior.RetentionRisk | src/main/java/com/library/service/UserBehaviorService.java:177-199 | one row per user, in table order |
| UserBehavior.AnalyzeUserBehavior | src/main/java/com/library/service/UserBehaviorService.java:28-37 | fails exactly when there is no lending at all; otherwise the four parts |
| ClusterAnalysis.Dist2 | frontend/src/components/analytics/ClusterAnalysis.js:69-70 | a squared distance is never negative |
| ClusterAnalysis.Dist2Symmetric | frontend/src/components/analytics/ClusterAnalysis.js:174-176 | the distance from p to q is the distance from q to p |
| ClusterAnalysis.Normalize | frontend/src/components/analytics/ClusterAnalysis.js:427-443 | undefined (NaN) exactly when the data is non-empty and some selected field is constant; otherwise rows of the same shape |
| ClusterAnalysis.RescaleFacts | frontend/src/components/analytics/ClusterAnalysis.js:439 | a value in the field's range rescales into [0, 1], keeping order, with the minimum at 0 and the maximum at 1 |
| ClusterAnalysis.NormalizeRangeAndOrder | frontend/src/components/analytics/ClusterAnalysis.js:427-443 | normalised values lie in [0, 1], a field's smallest value maps to 0 and its largest to 1, and order within a field is kept |
| ClusterAnalysis.InitialCentroids | frontend/src/components/analytics/ClusterAnalysis.js:44-53 | one centroid per draw, each field between the data's minimum and maximum of that field |
| ClusterAnalysis.Nearest | frontend/src/components/analytics/ClusterAnalysis.js:64-76 | a centroid at least as near as every other, and strictly nearer than every one before it |
| ClusterAnalysis.Assign | frontend/src/components/analytics/ClusterAnalysis.js:63-82 | each point gets a nearest centroid, the first among equals; with no centroids the labels stay |
| ClusterAnalysis.Update | frontend/src/components/analytics/ClusterAnalysis.js:84-103 | an empty cluster keeps its centroid |
| ClusterAnalysis.UpdateCentroidIsMean | frontend/src/components/analytics/ClusterAnalysis.js:84-103 | a non-empty cluster's new centroid is the mean of its members: their deviations from it cancel in every field |
| ClusterAnalysis.Lloyd | frontend/src/components/analytics/ClusterAnalysis.js:59-104 | the rounds never exceed the limit, labels stay valid, shapes are kept |
| ClusterAnalysis.LloydStopsWhenStable | frontend/src/components/analytics/ClusterAnalysis.js:59-82 | a round in which no point moves is the last one |
| ClusterAnalysis.LloydContinuesWhenChanged | frontend/src/components/analytics/ClusterAnalysis.js:59-82 | a round in which some point moves is followed by another while rounds remain |
| ClusterAnalysis.KMeans | frontend/src/components/analytics/ClusterAnalysis.js:39-107 | fails exactly for empty data, a negative k, or k = 0 with a field and a round; otherwise a label per point below k, k centroids, and at most the round limit |
| ClusterAnalysis.AssignSingle | frontend/src/components/analytics/ClusterAnalysis.js:63-82 | with one centroid every point is assigned to it |
| ClusterAnalysis.UpdateAllInOne | frontend/src/components/analytics/ClusterAnalysis.js:84-103 | the centroid of a cluster holding every point is the data's mean |
| ClusterAnalysis.KMeansSingleCluster | frontend/src/components/analytics/ClusterAnalysis.js:39-107 | with one cluster every point is labelled 0, the loop ends after its first round, and the centroid is the data's mean, whatever the random start |
| ClusterAnalysis.Neighbors | frontend/src/components/analytics/ClusterAnalysis.js:115-127 | exactly the other points within eps |
| ClusterAnalysis.ExpandCluster | frontend/src/components/analytics/ClusterAnalysis.js:129-147 | the seed and every listed neighbour end up claimed, and only unvisited points are written, with the cluster's id |
| ClusterAnalysis.Dbscan | frontend/src/components/analytics/ClusterAnalysis.js:110-163 | every point is noise or in a cluster below the count issued; a noise point has fewer than minPts neighbours; every cluster has a core seed |
| ClusterAnalysis.LinkageIsMaxDistance | frontend/src/components/analytics/ClusterAnalysis.js:188-195 | the complete linkage bounds every cross distance and is one of them |
| ClusterAnalysis.ClosestPair | frontend/src/components/analytics/ClusterAnalysis.js:182-202 | the pair to merge has the smallest linkage, and is the first such pair in scan order |
| ClusterAnalysis.SmallestPair | frontend/src/components/analytics/ClusterAnalysis.js:186-202 | the first pair above the diagonal holding the smallest entry |
| ClusterAnalysis.ScanRow | frontend/src/components/analytics/ClusterAnalysis.js:187-201 | one pass of the inner loop keeps the best pair so far, replacing it only on a strictly smaller linkage |
| ClusterAnalysis.MergeKeepsMembers | frontend/src/components/analytics/ClusterAnalysis.js:205-206 | merging one cluster into another and removing it keeps every point exactly once |
| ClusterAnalysis.MemberTwice | frontend/src/components/analytics/ClusterAnalysis.js:205-206 | a point in two different clusters would be counted twice, so a partition holds each point in one cluster |
| ClusterAnalysis.LabelOf | frontend/src/components/analytics/ClusterAnalysis.js:210-215 | the last cluster holding the point, since later clusters overwrite |
| ClusterAnalysis.PointInCluster | frontend/src/components/analytics/ClusterAnalysis.js:210-215 | in a partition a point's label is the one cluster holding it |
| ClusterAnalysis.HierarchicalClustering | frontend/src/components/analytics/ClusterAnalysis.js:166-218 | succeeds exactly for k at least 1 (or no data and k = 0); then every point gets a label below the smaller of n and k, and every such label is used |
| ClusterAnalysis.Assignments | frontend/src/components/analytics/ClusterAnalysis.js:209-217 | every point gets the index of the cluster holding it, and every cluster's index is used |
| ClusterAnalysis.RowsOf | frontend/src/components/analytics/ClusterAnalysis.js:467 | exactly as many rows as points with the label, all from the data |
| ClusterAnalysis.StatsOf | frontend/src/components/analytics/ClusterAnalysis.js:468-479 | the size is the number of points with the label, at least 1; each field's centre is that field's sum over those points divided by the size; each variance is non-negative |
| ClusterAnalysis.ClusterVarianceZero | frontend/src/components/analytics/ClusterAnalysis.js:476-477 | a field's variance within a cluster is 0 exactly when every member has the centre's value in that field |
| ClusterAnalysis.ClusterStatistics | frontend/src/components/analytics/ClusterAnalysis.js:462-483 | one entry for exactly the labels that occur, each with its size, and each field's centre the field's sum over that cluster divided by its size |
| ClusterAnalysis.ClusterSizesSumToCount | frontend/src/components/analytics/ClusterAnalysis.js:462-483 | the cluster sizes add up to the number of points |
| TimeSeries.MovingAverage | src/components/analytics/TimeSeriesAnalysis.js:37-45 | one value per full window of period points, each the mean of its window |
| TimeSeries.MovingAverageSlides | src/components/analytics/TimeSeriesAnalysis.js:37-45 | sliding the window by one adds the entering point and drops the leaving one, each weighted 1/period |
| TimeSeries.MovingAverageOfConstant | src/components/analytics/TimeSeriesAnalysis.js:37-45 | a constant series averages to the same constant |
| TimeSeries.ExponentialSmoothing | src/components/analytics/TimeSeriesAnalysis.js:47-53 | undefined exactly for an empty series; otherwise starts at the first point and then blends each point with the previous result |
| TimeSeries.SmoothingStaysInRange | src/components/analytics/TimeSeriesAnalysis.js:47-53 | with a factor in [0, 1] no smoothed value leaves the data's range |
| TimeSeries.SeasonIndices | src/components/analytics/TimeSeriesAnalysis.js:127-130 | the indices s, s + period, ... below n, non-empty exactly when s < n |
| TimeSeries.SeasonIndicesAreResidueClass | src/components/analytics/TimeSeriesAnalysis.js:65-130 | the stride loop from s and the test i % period == s select the same indices |
| TimeSeries.SeasonMeanIsMean | src/components/analytics/TimeSeriesAnalysis.js:124-132 | the season's mean is the plain mean of its points |
| TimeSeries.SeasonalDecomposition | src/components/analytics/TimeSeriesAnalysis.js:55-87 | the trend is the moving average; each season's factor averages the ratios data/trend of that season; the residual is null exactly where there is no trend value |
| TimeSeries.Residuals | src/components/analytics/TimeSeriesAnalysis.js:79-84 | null exactly past the trend, otherwise the point divided by trend times season |
| TimeSeries.SeasonalFactorIsMeanRatio | src/components/analytics/TimeSeriesAnalysis.js:65-76 | a season with trend values gets the plain mean of its ratios |
| TimeSeries.SeasonHasRatios | src/components/analytics/TimeSeriesAnalysis.js:65-76 | a season whose first index has a trend value has ratios to average |
| TimeSeries.AutocorrelationAt | src/components/analytics/TimeSeriesAnalysis.js:95-101 | NaN exactly when the series has no variance or the lag equals its length |
| TimeSeries.Autocorrelation | src/components/analytics/TimeSeriesAnalysis.js:89-104 | one coefficient for each lag 0 to maxLag |
| TimeSeries.AutocorrelationAtLagZero | src/components/analytics/TimeSeriesAnalysis.js:89-104 | a series with some variance has coefficient 1 at lag 0 |
| TimeSeries.AutocorrelationBeyondLength | src/components/analytics/TimeSeriesAnalysis.js:95-101 | past the series' length there are no products, so the coefficient is 0 |
| TimeSeries.InitialSeasonal | src/components/analytics/TimeSeriesAnalysis.js:206-221 | one initial index per season |
| TimeSeries.HwStep | src/components/analytics/TimeSeriesAnalysis.js:230-249 | one round appends a level, a trend, a seasonal and a fitted value, and changes only the index of season t mod period |
| TimeSeries.HwFit | src/components/analytics/TimeSeriesAnalysis.js:229-249 | after t points there are t levels, trends and fitted values, the last level and trend being the current ones |
| TimeSeries.HalfWidth | src/components/analytics/TimeSeriesAnalysis.js:263-266 | a half-width is never negative |
| TimeSeries.ResidualSigma | src/components/analytics/TimeSeriesAnalysis.js:262-264 | from four points on the residual standard error is never negative |
| TimeSeries.HwBands | src/components/analytics/TimeSeriesAnalysis.js:256-270 | each interval is centred on its forecast and contains it |
| TimeSeries.HoltWinters | src/components/analytics/TimeSeriesAnalysis.js:198-283 | no result (NaN throughout) exactly below two points; otherwise one fitted value, level and trend per point, one forecast and band per step, and from four points each band contains its forecast |
| TimeSeries.HoltWintersForecastExtrapolates | src/components/analytics/TimeSeriesAnalysis.js:256-259 | the forecast h steps ahead is the last level plus h last trends, scaled by the seasonal index of the season that step falls in |
| TimeSeries.ArPath | src/components/analytics/TimeSeriesAnalysis.js:172-179 | the AR(1) recursion unrolls: the forecast for step j is phi to the power j + 1 times the last value |
| TimeSeries.ArPathSteps | src/components/analytics/TimeSeriesAnalysis.js:177-179 | every forecast after the first is phi times the previous one, as the loop computes it |
| TimeSeries.Intervals | src/components/analytics/TimeSeriesAnalysis.js:160-167 | each interval is centred on its forecast, and contains it when the spread is never negative |
| TimeSeries.Forecast | src/components/analytics/TimeSeriesAnalysis.js:106-195 | no result (NaN throughout) exactly when `ets` or `arima` gets fewer than two points; otherwise one forecast and one interval per step, each interval centred on its forecast; ets gives the Holt-Winters forecasts with the fixed factors and, with sound arithmetic, intervals around them; arima gives the AR(1) path from the last value with the lag-one correlation as its coefficient; any other method gives nothing |
| TimeSeries.CorrelationSymmetric | src/components/analytics/TimeSeriesAnalysis.js:174 | with sound arithmetic and non-zero spreads, the correlation coefficient does not depend on which series comes first |
| TimeSeries.ArimaAsWritten | src/components/analytics/TimeSeriesAnalysis.js:172-189 | as written: a TypeError exactly when the library has no `correlation`; otherwise one forecast per step, none of them a number |
| TimeSeries.ArimaAsWrittenLosesForecast | src/components/analytics/TimeSeriesAnalysis.js:172-189 | on the series 1, 2, 3 one step ahead the written branch yields an error or NaN, where the intended one predicts the coefficient times 3 |
| GaussJordan.ScaleFrom | src/components/analytics/ModelComparison.js:127-131 | the pivot row is divided by the pivot from the pivot column on, and the columns before it are left alone |
| GaussJordan.SubtractFrom | src/components/analytics/ModelComparison.js:132-139 | every other row loses factor times the pivot row from the pivot column on, and the columns before it are left alone |
| GaussJordan.Step | src/components/analytics/ModelComparison.js:127-140 | one pivot step keeps the matrix shape, normalises row i and clears column i of every other row using the already normalised row i |
| GaussJordan.LastColumn | src/components/analytics/ModelComparison.js:142 | the coefficients are the right-hand column of the reduced matrix, one per unknown |
| GaussJordan.StepKeepsSolutions | src/components/analytics/ModelComparison.js:127-140 | with a non-zero pivot and the columns before it already reduced, any vector that solves the system after the step solved it before |
| GaussJordan.StepExtendsIdentity | src/components/analytics/ModelComparison.js:127-140 | with a non-zero pivot, a step turns one more column into a column of the identity and keeps the earlier ones |
| GaussJordan.EliminationReachesIdentity | src/components/analytics/ModelComparison.js:127-142 | when every pivot met is non-zero, elimination reaches the identity and its last column solves the original system |
| GaussJordan.SolveSatisfiesSystem | src/components/analytics/ModelComparison.js:124-142 | when every pivot is non-zero, the coefficients the solver returns satisfy the augmented system it was given |
| ModelComparison.ModelNamed | src/components/analytics/ModelComparison.js:107-212 | exactly the names linear, polynomial and exponential are models; any other name is none |
| ModelComparison.Width | src/components/analytics/ModelComparison.js:111-156 | a model has at least the intercept and slope coefficients |
| ModelComparison.Features | src/components/analytics/ModelComparison.js:151-156 | the feature row has one entry per coefficient and starts with 1 and x, for the linear and the polynomial model alike |
| ModelComparison.Targets | src/components/analytics/ModelComparison.js:196-204 | the regression target of each point is its target, or its logarithm for the exponential model |
| ModelComparison.NormalRow | src/components/analytics/ModelComparison.js:115-124 | row i of the augmented matrix holds the sums over the points of column i times each column of X, then column i times y |
| ModelComparison.NormalSystem | src/components/analytics/ModelComparison.js:109-125 | the normal equations form a square augmented system whose size is the number of coefficients |
| ModelComparison.Train | src/components/analytics/ModelComparison.js:107-212 | training fails exactly when there are no points, because the design matrix has no first row; otherwise it yields one coefficient per feature for the requested model |
| ModelComparison.Predict | src/components/analytics/ModelComparison.js:144-209 | a prediction is the feature row of x times the coefficients, and for the exponential model exp of it, which is always positive |
| ModelComparison.TrainSolvesNormalEquations | src/components/analytics/ModelComparison.js:109-146 | with at least one point and non-zero pivots, the trained coefficients satisfy the normal equations of least squares |
| ModelComparison.PolynomialValueIsDot | src/components/analytics/ModelComparison.js:188-191 | summing each coefficient times x to its power is the feature row of x times the coefficients |
| ModelComparison.ResidualSS | src/components/analytics/ModelComparison.js:99-100 | the residual sum of squares is never negative |
| ModelComparison.TotalSS | src/components/analytics/ModelComparison.js:96-98 | the total sum of squares about the mean is never negative |
| ModelComparison.CalculateMetrics | src/components/analytics/ModelComparison.js:84-104 | for a non-empty fold mse is the mean squared error and mae the mean absolute error; r2 is one minus residual over total sum of squares, with the platform's division |
| ModelComparison.MetricsProperties | src/components/analytics/ModelComparison.js:84-104 | mse and mae are never negative, the residual sum of squares is n times mse, and when the actual values vary r2 is one minus residual over total sum of squares by exact division |
| ModelComparison.PerfectPredictions | src/components/analytics/ModelComparison.js:84-104 | predicting the actual values scores mse 0 and mae 0, and r2 equal to 1 when the actual values vary |
| ModelComparison.FoldBounds | src/components/analytics/ModelComparison.js:50-51 | each fold starts no later than it ends and ends within the data |
| ModelComparison.FoldsContiguous | src/components/analytics/ModelComparison.js:49-51 | the first fold starts at 0, the last one ends at n, and each fold ends where the next begins |
| ModelComparison.FoldsPartition | src/components/analytics/ModelComparison.js:49-57 | every index of the data lies in exactly one fold's test slice |
| ModelComparison.TestSet | src/components/analytics/ModelComparison.js:57 | the test slice holds exactly the points from testStart up to testEnd, in order |
| ModelComparison.TrainSet | src/components/analytics/ModelComparison.js:53-56 | train and test together have as many points as the data, and the training part is empty exactly when the fold tests everything |
| ModelComparison.TrainAndTestRebuildData | src/components/analytics/ModelComparison.js:53-57 | putting the test slice back into the training data at testStart gives back the data, so nothing is lost or repeated |
| ModelComparison.TestsEverythingIff | src/components/analytics/ModelComparison.js:46-56 | a fold trains on nothing exactly when there is no data, or it is the last fold and there is one fold or fewer points than folds |
| ModelComparison.FoldScore | src/components/analytics/ModelComparison.js:53-63 | a fold throws exactly when its training data is empty |
| ModelComparison.ScoresFailIff | src/components/analytics/ModelComparison.js:49-64 | the loop over the folds throws exactly when some fold throws, and otherwise keeps every fold's score in order |
| ModelComparison.SomeFoldFailsIff | src/components/analytics/ModelComparison.js:44-64 | some fold throws exactly when there is a single fold or fewer points than folds |
| ModelComparison.FoldMean | src/components/analytics/ModelComparison.js:67-71 | adding each of the k scores divided by k gives their mean |
| ModelComparison.FoldStd | src/components/analytics/ModelComparison.js:72-79 | the spread is never negative and is the square root of the population variance of the k scores |
| ModelComparison.Summary | src/components/analytics/ModelComparison.js:66-80 | the mean and std objects are the mean and the square-root variance of the fold scores, metric by metric, and every std is never negative |
| ModelComparison.CrossValidate | src/components/analytics/ModelComparison.js:44-81 | cross-validation throws exactly when there is one fold or fewer points than folds; otherwise it summarises k fold scores with non-negative spreads |
| ModelComparison.EvaluateModel | src/components/analytics/ModelComparison.js:264-288 | evaluating a model fails exactly when there are fewer points than folds; otherwise it holds the cross-validation, the model trained on all points and its prediction for each point |
| ModelComparison.ModelResults | src/components/analytics/ModelComparison.js:258-295 | a selected name is in the table exactly when there is data, it names a model and its evaluation succeeds; its entry is that evaluation |
| ModelComparison.ModelResultsKeys | src/components/analytics/ModelComparison.js:258-295 | with at least k rows the table holds exactly the known selected models; with fewer it is empty |
| ModelComparison.ModelResultsUnguarded | frontend/src/components/analytics/ModelComparison.js:223-256 | the older copy yields a table exactly when every selected name is a model that evaluates; the table then holds every selected name with its evaluation |
| ModelComparison.UnguardedSucceedsIff | frontend/src/components/analytics/ModelComparison.js:223-256 | the older copy yields a table exactly when there are at least k rows and every selected name is known |
| ModelComparison.UnguardedAgreesWhenItSucceeds | frontend/src/components/analytics/ModelComparison.js:223-256 | whenever the older copy yields a table, the newer guarded copy yields the same one |
| JsValues.ToNumber | src/components/analytics/StatisticalAnalysis.js:23 | a number reads as itself, `undefined` as NaN, and a string as the numeric-literal grammar reads it |
| JsValues.BlankReadsAsZero | src/components/analytics/StatisticalAnalysis.js:23 | text made only of white space, the empty text included, reads as 0 |
| JsValues.SpaceAroundIgnored | src/components/analytics/StatisticalAnalysis.js:23 | white space around a text does not change the number it reads as |
| JsValues.DigitsRead | src/components/analytics/StatisticalAnalysis.js:23 | a run of decimal digits reads as the number it spells |
| JsValues.NegativeDigitsRead | src/components/analytics/StatisticalAnalysis.js:23 | a minus sign before digits negates the number they spell |
| JsValues.FractionRead | src/components/analytics/StatisticalAnalysis.js:23 | digits, a point and digits read as the whole part plus the fraction over its power of ten |
| JsValues.ExponentRead | src/components/analytics/StatisticalAnalysis.js:23 | digits, `e` and digits read as the first number times ten to the second |
| JsValues.HexRead | src/components/analytics/StatisticalAnalysis.js:23 | `0x` and hexadecimal digits read as the number they spell in base 16 |
| JsValues.FractionExample | src/components/analytics/StatisticalAnalysis.js:23 | `"2.5"` reads as 2.5 |
| JsValues.NegativeExample | src/components/analytics/StatisticalAnalysis.js:23 | `"-1"` reads as -1 |
| JsValues.PaddedExample | src/components/analytics/StatisticalAnalysis.js:23 | `" 3 "` reads as 3 |
| JsValues.ExponentExample | src/components/analytics/StatisticalAnalysis.js:23 | `"1e3"` reads as 1000 |
| JsValues.HexExample | src/components/analytics/StatisticalAnalysis.js:23 | `"0x1F"` reads as 31 |
| JsValues.EmptyAndSuffixExamples | src/components/analytics/StatisticalAnalysis.js:23 | `""` reads as 0 and `"12px"` as NaN |
| JsValues.ParseInt | frontend/src/components/analytics/CustomDashboard.js:124 | NaN exactly when, after leading white space and a sign, no digit follows (no hexadecimal digit after a `0x` prefix) |
| JsValues.ParseIntOfDigitText | src/services/api.js:182 | a run of decimal digits parses as the number it spells |
| JsValues.ParseIntOfDigits | src/services/api.js:182 | the decimal text of a natural number parses back to that number |
| JsValues.ParseIntOfNegative | frontend/src/components/analytics/CustomDashboard.js:124 | a minus sign before the digits of n parses as -n |
| JsValues.ParseIntOfHex | frontend/src/components/analytics/CustomDashboard.js:124 | `0x` and hexadecimal digits parse in base 16, to the same number `Number` reads |
| JsValues.ParseIntOfBarePrefix | frontend/src/components/analytics/CustomDashboard.js:124 | `0x` with no hexadecimal digit after it is NaN |
| StatisticalAnalysis.Retained | src/components/analytics/StatisticalAnalysis.js:23 | the kept values are exactly the numbers in the column, so nothing is kept exactly when every entry is not a number |
| StatisticalAnalysis.SortedCopy | src/components/analytics/StatisticalAnalysis.js:31 | the copy is a permutation of the values in ascending order |
| StatisticalAnalysis.QuartileIndices | src/components/analytics/StatisticalAnalysis.js:41-42 | the quartile positions floor(n*0.25) and floor(n*0.75) are the integer quotients n/4 and 3n/4 |
| StatisticalAnalysis.QuartilesOf | src/components/analytics/StatisticalAnalysis.js:32-43 | on sorted values q1, the median and q3 are in order, both quartiles are values of the data, and they lie between the minimum and the maximum |
| StatisticalAnalysis.CalculateStatistics | src/components/analytics/StatisticalAnalysis.js:22-64 | the result is null exactly when no numeric value remains; otherwise n counts the numbers, mean and stdDev are their mean and population deviation, q1 is at most the median and the median at most q3, and the iqr is never negative |
| StatisticalAnalysis.MomentsWhenValuesVary | src/components/analytics/StatisticalAnalysis.js:45-52 | once two values differ, skewness and kurtosis are the third and fourth central moments over n times the cube and fourth power of the deviation, kurtosis minus 3 |
| StatisticalAnalysis.ConstantValuesLeaveMomentsUndefined | src/components/analytics/StatisticalAnalysis.js:37-52 | when every value is the same, the variance is 0 and both moment denominators are 0 |
| StatisticalAnalysis.VaryingValuesDefineMoments | src/components/analytics/StatisticalAnalysis.js:37-52 | when two values differ, the variance is positive and both moment denominators are non-zero |
| StatisticalAnalysis.LaggedSquares | src/components/analytics/StatisticalAnalysis.js:74-77 | one squared lagged difference per position before n - period |
| StatisticalAnalysis.DetectSeasonality | src/components/analytics/StatisticalAnalysis.js:66-87 | the result is null exactly when there are fewer than two periods of values; otherwise it is significant exactly when its strength exceeds 0.5 |
| StatisticalAnalysis.StrengthAtMostOne | src/components/analytics/StatisticalAnalysis.js:72-80 | the strength never exceeds 1 once the leading values are not all zero |
| StatisticalAnalysis.PeriodicSeriesIsSignificant | src/components/analytics/StatisticalAnalysis.js:66-87 | a series that repeats exactly with the period has strength 1 and is significant |
| StatisticalAnalysis.SeasonalityForPeriods | src/components/analytics/StatisticalAnalysis.js:190 | one seasonality result per period, in the order of the periods |
| StatisticalAnalysis.ShortSeriesHasNoSeasonality | src/components/analytics/StatisticalAnalysis.js:108 | with the default periods of 7, 30 and 365, a series shorter than 14 values gets no seasonality result at all |
| AdvancedStatistics.MetricData | frontend/src/components/analytics/AdvancedStatistics.js:152-158 | a value is kept exactly when it is the numeric metric of a record that matches the category and the time range, each only when one is set |
| AdvancedStatistics.UnfilteredKeepsAllNumbers | frontend/src/components/analytics/AdvancedStatistics.js:152-158 | with no category and no time range, every record contributes exactly when every metric value is a number |
| AdvancedStatistics.MomentsOfSample | frontend/src/components/analytics/AdvancedStatistics.js:32-35 | on a non-empty sample, the mean and the population variance agree with the exact ones |
| AdvancedStatistics.TTest | frontend/src/components/analytics/AdvancedStatistics.js:31-52 | the test is significant exactly when the p-value is below 0.05, the p-value lies between 0 and 2, and df is the floored Welch-Satterthwaite value |
| AdvancedStatistics.WelchScalesPositive | frontend/src/components/analytics/AdvancedStatistics.js:40-50 | with non-empty samples that are not both constant, the standard error and the pooled deviation are positive and do not depend on the order of the samples |
| AdvancedStatistics.TTestAntisymmetric | frontend/src/components/analytics/AdvancedStatistics.js:31-52 | swapping the samples negates t and Cohen's d and leaves df, the p-value and the verdict unchanged |
| AdvancedStatistics.Concat | frontend/src/components/analytics/AdvancedStatistics.js:55-56 | the pooled sample has as many values as the groups together |
| AdvancedStatistics.BetweenSS | frontend/src/components/analytics/AdvancedStatistics.js:60-64 | the between-groups sum of squares is never negative |
| AdvancedStatistics.WithinSS | frontend/src/components/analytics/AdvancedStatistics.js:66-70 | the within-groups sum of squares is never negative |
| AdvancedStatistics.Anova | frontend/src/components/analytics/AdvancedStatistics.js:54-86 | the two degrees of freedom are k - 1 and n - k and add up to n - 1, the test is significant exactly when the p-value is below 0.05, and the p-value lies between 0 and 1 |
| AdvancedStatistics.EtaSquaredIsProportion | frontend/src/components/analytics/AdvancedStatistics.js:84 | eta squared lies between 0 and 1 whenever there is any variation |
| AdvancedStatistics.ConstantGroupsHaveNoWithinSS | frontend/src/components/analytics/AdvancedStatistics.js:66-70 | groups whose values all equal one constant per group have no within-group variation |
| AdvancedStatistics.ChiSquare | frontend/src/components/analytics/AdvancedStatistics.js:88-103 | the result is undefined exactly when fewer expected than observed counts are given; otherwise df is one less than the number of categories and the test is significant exactly when the p-value, between 0 and 1, is below 0.05 |
| AdvancedStatistics.ChiSquareNonNegative | frontend/src/components/analytics/AdvancedStatistics.js:89-91 | with every expected count positive the statistic is never negative |
| AdvancedStatistics.ChiSquareOfExactFit | frontend/src/components/analytics/AdvancedStatistics.js:89-91 | observed counts equal to the expected ones give a statistic of 0 |
| InventoryPrediction.InventoryHealth | src/main/java/com/library/service/InventoryPredictionService.java:36-58 | one health row per book in table order, each computed from that book's own lendings only: utilisation, turnover and condition |
| InventoryPrediction.PredictDemand | src/main/java/com/library/service/InventoryPredictionService.java:89-107 | one demand row per book in table order, each computed from that book's own lendings only: current demand, projections and monthly seasonality |

## Left out

- React rendering, routing, Material UI, recharts and d3 output: only the data the components compute is modelled, not how they draw it.
- Display-only panels and page shells, such as the inventory, user-behaviour and predictive panels, the bubble, pie and radar charts, the login, profile and book pages, and the static templates: they hold no logic beyond rendering.
- The axios wrappers, the token interceptor, localStorage, the Blob and anchor download exporters, and `toFixed` formatting. They are I/O or presentation, and numbers are kept exact.
- IEEE doubles: numbers are exact reals. Rounding, overflow and the exact NaN or Infinity that a zero divisor produces are not modelled. A division whose divisor can be zero goes through `MathLib.divide`, which agrees with exact division elsewhere.
- `Math.sqrt`, `Math.exp`, `Math.log` and the jStat CDFs are fields of the `MathLib` record, not definitions, because the model cannot define transcendental functions. Only the facts in `Numerics.Sound` are assumed of them.
- `Math.random`, `Date.now`, `new Date()`, `LocalDateTime.now()` and `UUID.randomUUID()` are parameters.
- The random sample data that the analytics pages and the mock analytics endpoints make up are left out: they are random.
- `gmm`, `spectralClustering` and `prophetLike` are left out: they are floating-point iterations with random starts and trigonometric terms and have no structure to state.
- The AR(1) coefficient is modelled as jStat's `corrcoeff` of the series without its last value against the series without its first (`TimeSeries.LagOneCorrelation`), which is what the `arima` branch evidently intends; see the Findings for the line as written.
- TimeSeries.ArimaAsWritten: when the call does not throw, it models every forecast as NaN but does not model the confidence intervals, which are NaN as well.
- `performRegression` of the statistical analysis panel is left out: it calls an external regression library.
- The cluster panel's method switch and its rendering are left out; each method is modelled as its own function.
- The base64 JSON session token of the mock login is modelled as the claims record it encodes, not as text; only whether `btoa` accepts the JSON text (every character at most U+00FF) is modelled.
- Mock `authors.getById`, `authors.update` and `authors.delete` are left out: they repeat the book code on the author array.
- EmailService and its JavaMailSender are replaced by the `send` parameter, so the text of the e-mails is not modelled; only the recipient, title and formatted due date of each notice are.
- JPA repositories are sequences in `findAll` order. Four queries are parameters because neither a method name nor query text gives their meaning: `findMostBorrowedBooks`, `findMostActiveMembers`, `findTopRatedBooks` and `getAverageRatingForBookAfterDate`. The user and author table sizes that `getLibraryStats` counts are parameters too.
- Several derived queries the services call are not declared in the repository interfaces, so the code as written does not compile. The model gives each the meaning Spring Data would derive from its name, over the table:
  - `countByBookId` (RecommendationService.java line 96);
  - `countByBookIdAndBorrowDateAfter` and `countByBookIdAndBorrowDateBetween` (PredictiveAnalyticsService.java lines 107, 133, 135, 242, 255 and 257);
  - `findByReturnDateIsNull` (PredictiveAnalyticsService.java line 148);
  - `countByReturnDateIsNull` (AnalyticsService.java line 41);
  - `ReviewRepository.findByUserId` (RecommendationService.java line 31 and UserBehaviorService.java line 61).
- LendingController.MyLendings: the JPQL of `findCurrentBorrowingsByUser` compares `bl.userId`, but `BookLending` holds a `user` association and no `userId` field, so the query does not resolve and the repository fails when the application starts. The model takes the evident intent, `bl.user.id`.
- LendingController.Borrow: the borrow date and the due date come from two reads of the clock; both are the single parameter `now`, so the due date is exactly fourteen days after the borrow date.
- UserBehavior.MetricsFor: the source reads the clock once per call, so a segmentation over many users (and the other analyses, which read it again) may see several instants; the model gives every call the same parameter `now`.
- `Book.java` and the other entities and DTOs are not part of this model beyond the fields the logic reads.
- Null columns: every entity field is a non-null text or number. The source accepts nulls: `createBook` and `updateBook` take a `BookDTO` without validation, and `convertToEntity` (BookController.java:126-136) stores a null title, genre or copy count as given. A null genre would then throw a NullPointerException at `book.getGenre().equals(...)` (RecommendationService.java:77, :106) and in `groupingBy(Book::getGenre)` (PredictiveAnalyticsService.java:212-213, AnalyticsService.java:87-88). None of those throws is modelled.
- Clock reads per element: `getLibraryStats` reads the clock once per lending (AnalyticsService.java:94), `predictReturnProbability` once per open lending (PredictiveAnalyticsService.java:179), and the inventory metrics once per book (InventoryPredictionService.java:47). `AnalyticsService.LastYear`, `PredictiveAnalytics.ReturnProbability` and `InventoryPrediction.InventoryHealth` give every element one parameter `now`, so a run that spans a clock tick is not modelled.
- `@Scheduled`, `@PreAuthorize` and the thin controllers that only forward to a service are left out: they carry no logic.
- Java maps are Dafny maps. The one `HashMap` whose iteration order reaches an output with integer keys, the hour distribution behind `findPeakHours`, is modelled bucket by bucket in `JavaHashMap`. The `HashMap`s keyed by strings are not: their order follows `String.hashCode`, which the model does not compute.
- UserBehavior.TopGenres: genres with equal counts come out in order of first appearance, while the source streams a `HashMap` keyed by genre, whose order follows the genres' string hash codes.
- UserBehavior.MostFrequent: ties come out in order of first appearance, for the same reason as `TopGenres`.
- Recommendation.PreferredGenres: genres of equal weight come out in order of first appearance, while the source's `HashMap` order follows the genres' string hash codes.
- `sendDueDateReminders` reads the clock twice; both reads are the single parameter `now`.
- Calendar.FormatLongDate: the month names are English. `ofPattern("MMMM d, yyyy")` without a locale uses the JVM's default locale, so a server with another default locale prints other month names.
- ExportService hands `LocalDate` values to repository methods declared with `LocalDateTime`, which does not compile as written. The model takes the evident intent: inclusive days from midnight to midnight.
- The `FileUploadController` details below are left out, because the model treats paths as plain strings:
  - the creation of missing parent directories;
  - `Paths.get` normalisation;
  - `InvalidPathException`.
- `analyzeInventory` and `getPredictions`, which only put the service results into one map, are modelled by their parts.
- DataExplorer.SortedData: the comparator `a > b ? 1 : -1` never answers 0, so it is inconsistent on equal keys, and ECMAScript leaves the resulting order to the engine. The model sorts by insertion, and its contracts promise only that the rows are a permutation in key order; the order among rows with equal keys is not promised.
- JsValues.ToNumber: the text `Infinity` (with or without a sign) reads as NaN, because no real holds it; decimal literals are read exactly, so rounding to a double and literals beyond the double range are not modelled.
- JsValues.Lower: `toLowerCase` is modelled on the letters A to Z only; other letters, such as `É`, are left as they are.
- DataExplorer.Search: case folding covers A to Z only, as `JsValues.Lower` does.
- BookController.SearchRows: the title match folds case on A to Z only, where Java's `toLowerCase` folds every letter.
- BookController.Search: the same A to Z case folding as `SearchRows`.
- MockApi.SearchBooks: the same A to Z case folding as `DataExplorer.Search`.
- MockApi.SearchAuthors: the same A to Z case folding as `DataExplorer.Search`.
- StatisticalAnalysis.Retained: the column is given as numbers or NaN, so the raw values `isNaN` lets through (`null`, `""`, `true`, numeric strings) are represented by the numbers they convert to.
- StatisticalAnalysis.CalculateStatistics: it works on the converted numbers; a kept numeric string that the source's `reduce` would concatenate (`0 + "5"` gives `"05"`) is summed as a number.
- StatisticalAnalysis.DetectSeasonality: it takes the column as numbers; the source reads the raw, unfiltered values.
- AdvancedStatistics.MetricData: each kept value is converted with `ToNumber`, where the source keeps the raw value and jStat adds it with `+`, so a kept numeric string would concatenate.
- AdvancedStatistics.UnfilteredKeepsAllNumbers: it holds for the converted numbers, not for the raw values the source keeps.
- Dashboard.JsonNumber: arrays and objects read as NaN, while `Number([5])` is 5 and `Number([])` is 0.
- BookController.Create: on an unknown author id the thrown message is `Author not found`, without the ` with id: ` suffix naming the first unknown id, because the error keeps the set of unknown ids instead.
- BookController.Update: the same shortened `Author not found` message as `Create`.
- TimeSeries.Forecast: on fewer than two values `ets` and `arima` read past the data (or correlate empty series) and yield NaN forecasts and bounds; the model answers `None` for that NaN result instead of listing the NaN values.
- TimeSeries.HoltWinters: on fewer than two values `data[1] - data[0]` is NaN, so the trend, the forecasts and the bands are NaN; the model answers `None` for that result instead of listing the NaN values.
- TimeSeries.HwFit: it requires at least two values, because `HoltWinters` answers `None` before fitting a shorter series.
- TimeSeries.HwStart: it requires at least two values, for the same reason as `HwFit`.
- ModelComparison.ModelResultsUnguarded: it requires every row to carry the metric and target fields. Without them the older copy computes with `undefined` and NaN, which the model does not represent.
- ModelComparison.UnguardedSucceedsIff: the same requirement on the rows as `ModelResultsUnguarded`.
- ModelComparison.UnguardedAgreesWhenItSucceeds: the same requirement on the rows as `ModelResultsUnguarded`.

## Findings

| source | as written | input that shows it | evidently intended | confidence | as-written member | corrected member |
|---|---|---|---|---|---|---|
| frontend/src/components/analytics/CustomDashboard.js:71-78 | the dialog reads `widget.title`, and the dashboard passes `widget={editingWidget}`, which is `null` when no widget is being edited; a default parameter value does not replace `null`, so the read throws | open the add-widget dialog with no widget selected (`editingWidget` is `null`) | an empty form with the default type, width 6 and height 400 | high, not executed | CustomDashboard.DialogForm, CustomDashboard.DialogFormFailsWithoutWidget | CustomDashboard.DialogFormOrEmpty |
| src/services/api.js:187-197 | a new book's id is the number of books plus one | books 1, 2 and 3; delete book 1; create a book: it gets id 3, which book 3 already has | an id no book has, such as one past the largest id in use | high, not executed | MockApi.CreateBook, MockApi.CreateAfterDeleteRepeatsAnId | MockApi.CreateBookFresh, MockApi.FreshIdIsUnused |
| src/main/java/com/library/service/RecommendationService.java:60-81 | candidates are sorted by ascending score or similarity and then cut to 10 (or 5), so the best candidates are the ones dropped | eleven unread books of a preferred genre where one scores strictly higher than the rest: that one is never recommended | sort in descending order, so the highest-scored candidates are kept | high, not executed | Recommendation.PersonalizedAsWritten, Recommendation.SimilarAsWritten, Recommendation.BestCandidateDropped, Recommendation.MostSimilarDropped | Recommendation.Personalized, Recommendation.SimilarBooks |
| src/components/analytics/TimeSeriesAnalysis.js:174 | the `arima` branch takes `jStat.correlation(...)[0]`; jStat names its coefficient `corrcoeff`, so the call throws a TypeError, and if a `correlation` returning a coefficient did exist, indexing that number would give `undefined` and every forecast NaN | choose the `arima` method on any series, such as 1, 2, 3 with one step ahead | phi is the lag-one correlation coefficient, and each step is phi times the previous forecast | medium, not executed | TimeSeries.ArimaAsWritten, TimeSeries.ArimaAsWrittenLosesForecast | TimeSeries.Forecast, TimeSeries.CorrelationSymmetric |
