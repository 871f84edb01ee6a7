# Sluggishness detail view of Speed Tracer, modelled in Dafny

Speed Tracer's sluggishness view lists the top-level UI events (DOM events,
timers, layouts, script evaluations, XHR callbacks, ...) that fall within the
time window the user selected. The detail view below the graph is a table
with one row per event. This project models the logic of that view:

- **The event table** (`row_model.dfy`, class `RowModel.EventTable`). The
  table shows the half-open index window `[beginIndex, endIndex)` of the
  model's event list. It keeps a record map from the sequence number of each
  shown event to the record of its row (the event and its annotation cell).
  Changing the window wipes the table and rebuilds it row by row. Streaming
  events are appended without a rebuild. A refresh redraws the annotation
  cell of the row showing an event, found through its sequence number.
- **The view** (`detail_view.dfy`, class `DetailView.SluggishnessDetailView`).
  It maps the answer of the model's range query to a window, appends
  streaming events and forwards refreshes to the table.
- **The details map** (`details_map.dfy`, module `EventDetails`). It is the
  label-to-value map the details pane shows for a selected event: the
  common entries, the entries of each event type, and the overhead.
- **The breakdown data** (`breakdown.dfy`, class `Breakdown.UiEventDetails`).
  These are the per-type times of an event's subtree behind the pie chart
  and the aggregate-stats list. Only positive times are kept, largest
  first, and they are computed once per row.
- **The selection handler** (`selection.dfy`). When the selection in an
  event's trace tree changes, the selected nodes are sorted by start time
  and the last one becomes the new selection. The pane then shows the
  details map of a single node, or the time between the earliest and the
  latest of several.
- `sorting.dfy` models the platform's stable list sort as an insertion sort by
  key. `events.dfy` holds the event records.

What is proved:
- A rebuilt table holds exactly the rows of its window, in index order. The
  keys of its record map are exactly the window's sequence numbers.
- The table's invariant is that every row has a record under its event's
  sequence number, and every record belongs to a row. It is kept by
  `AddRowForUiEvent`, `RefreshRecord`, `RenderTable` and
  `UpdateTotalTableRange`, and by the view's `UpdateView`,
  `ShortCircuitAddEvent` and `RefreshRecord`. `AppendRow`, `PrependRow` and
  `FillRowForUiEvent` are steps of `AddRowForUiEvent` and do not keep it on
  their own: a row appended alone has no record yet.
- Streaming rows one by one past a window [begin, end) gives the same rows
  and record map as a rebuild for the larger window [begin, n). The window
  itself stays [begin, end).
- A refresh changes one record at most, and never the rows or the keys.
- Which labels the details map holds, as if-and-only-if statements.
- The breakdown data is sorted and holds exactly the positive type times.
  A second computation changes nothing.
- The new selection is the latest selected node; among equally late nodes
  it is the one that comes last in the selection list.
- The delta between the first and last sorted node is the span between
  the earliest and the latest start time, and it is never negative.

Events are values (the datatype `Events.UiEvent`). An event object's
identity in the program is its sequence number. `refreshRecord` receives
the same event object the row already holds, and the model reads that
event's current state from its argument. The event list of the model, its
range query (`getIndexesOfEventsInRange`), the table of installed timers
(`getTimerMetaData`) and the per-type times of the aggregate-time traversal
are parameters.

## Model

| member | source | states |
|---|---|---|
| RowModel.Window | src/client/ui/src/com/google/speedtracer/client/visualizations/view/SluggishnessDetailView.java:1016-1018 | the window [begin, end) holds end - begin events when begin < end and none otherwise; its k-th event is the list's event begin + k |
| RowModel.PutAllKeys | src/client/ui/src/com/google/speedtracer/client/visualizations/view/SluggishnessDetailView.java:1102-1103 | putting a record for each event adds exactly the events' sequence numbers as keys of the record map |
| RowModel.PutAllAt | src/client/ui/src/com/google/speedtracer/client/visualizations/view/SluggishnessDetailView.java:1102-1103 | with unique sequence numbers, every event finds its own fresh record (its hint records, no log icon) under its sequence number |
| RowModel.PutAllElsewhere | src/client/ui/src/com/google/speedtracer/client/visualizations/view/SluggishnessDetailView.java:1102-1103 | putting records leaves every key that is no event's sequence number as it was |
| RowModel.PutAllConcat | src/client/ui/src/com/google/speedtracer/client/visualizations/view/SluggishnessDetailView.java:1016-1018 | putting the records of two lists in turn is putting the records of their concatenation |
| RowModel.StreamingMatchesRebuild | src/client/ui/src/com/google/speedtracer/client/visualizations/view/SluggishnessDetailView.java:1312-1316 | a table built for [begin, end) and then extended by appending the events of [end, n) has the rows and records of a table built for [begin, n) |
| RowModel.RowSequencesOf | src/client/ui/src/com/google/speedtracer/client/visualizations/view/SluggishnessDetailView.java:1016-1018 | the sequence numbers shown by the rows of a list of events are the sequence numbers of the list |
| RowModel.WindowGrows | src/client/ui/src/com/google/speedtracer/client/visualizations/view/SluggishnessDetailView.java:1016-1018 | one more iteration of the render loop adds the row of event i after the others and puts that event's record |
| RowModel.WindowTable | src/client/ui/src/com/google/speedtracer/client/visualizations/view/SluggishnessDetailView.java:1002-1022 | a table built from a window has one row per event of the window, in index order, and its record keys are the window's sequence numbers |
| RowModel.EventTable.constructor | src/client/ui/src/com/google/speedtracer/client/visualizations/view/SluggishnessDetailView.java:903-909 | a new table has the window (0, 0), no rows and an empty record map |
| RowModel.EventTable.AppendRow | src/client/ui/src/com/google/speedtracer/client/visualizations/view/SluggishnessDetailView.java:971-975 | a new row for the event goes after all existing rows |
| RowModel.EventTable.PrependRow | src/client/ui/src/com/google/speedtracer/client/visualizations/view/SluggishnessDetailView.java:977-981 | a new row for the event goes before all existing rows |
| RowModel.EventTable.FillRowForUiEvent | src/client/ui/src/com/google/speedtracer/client/visualizations/view/SluggishnessDetailView.java:1080-1104 | the record map gains, at the event's sequence number, a record with the event's hint records and no log icon; nothing else changes |
| RowModel.EventTable.AddRowForUiEvent | src/client/ui/src/com/google/speedtracer/client/visualizations/view/SluggishnessDetailView.java:950-969 | the row is appended or prepended as asked; the other rows keep their order; the record map changes only at the event's sequence number; the table invariant is kept |
| RowModel.EventTable.RefreshRecord | src/client/ui/src/com/google/speedtracer/client/visualizations/view/SluggishnessDetailView.java:983-996 | an event with no row changes nothing; otherwise only its record changes, to the event's current hint records plus a log icon exactly when it has user logs; the rows and keys never change |
| RowModel.EventTable.RenderTable | src/client/ui/src/com/google/speedtracer/client/visualizations/view/SluggishnessDetailView.java:1002-1022 | the old rows and records are discarded; the rows are the window's events in index order; the record map holds exactly the window's sequence numbers, each with its fresh record |
| RowModel.EventTable.UpdateTotalTableRange | src/client/ui/src/com/google/speedtracer/client/visualizations/view/SluggishnessDetailView.java:1031-1035 | the window becomes [beginIndex, endIndex), and the table is rebuilt from it as RenderTable states |
| DetailView.SluggishnessDetailView.constructor | src/client/ui/src/com/google/speedtracer/client/visualizations/view/SluggishnessDetailView.java:1260-1261 | the view starts with an empty table on the window (0, 0) |
| DetailView.SluggishnessDetailView.UpdateView | src/client/ui/src/com/google/speedtracer/client/visualizations/view/SluggishnessDetailView.java:1326-1341 | no answer from the range query leaves the table untouched; an empty answer blanks it to (0, 0); an answer (b, e, ...) rebuilds it for [b, e) |
| DetailView.SluggishnessDetailView.ShortCircuitAddEvent | src/client/ui/src/com/google/speedtracer/client/visualizations/view/SluggishnessDetailView.java:1312-1316 | one row for the event is appended after the existing rows; its record is put; the window indices stay as they are |
| DetailView.SluggishnessDetailView.RefreshRecord | src/client/ui/src/com/google/speedtracer/client/visualizations/view/SluggishnessDetailView.java:1300-1302 | the refresh is forwarded to the table, with the table's guarantees |
| EventDetails.LastIndexOf | src/client/ui/src/com/google/speedtracer/client/visualizations/view/SluggishnessDetailView.java:1146-1154 | the index found is the last entry of the coalesced-events record carrying that name |
| EventDetails.TupleEntriesLast | src/client/ui/src/com/google/speedtracer/client/visualizations/view/SluggishnessDetailView.java:1144-1155 | the labels a coalesced-events record contributes are exactly the names of its entries, and each label shows the count and duration of the last entry carrying that name |
| EventDetails.TypeLabels | src/client/ui/src/com/google/speedtracer/client/visualizations/view/SluggishnessDetailView.java:1156-1197 | the fixed labels each event type puts are all among the fixed labels of the event types; the timer labels for fired and installed timers, Origin and Size for paints, and so on |
| EventDetails.PayloadLabels | src/client/ui/src/com/google/speedtracer/client/visualizations/view/SluggishnessDetailView.java:1132-1200 | each event type puts only its own fixed labels, or the names of its coalesced entries; a paint event, say, puts nothing but Origin and Size |
| EventDetails.PayloadOtherLabel | src/client/ui/src/com/google/speedtracer/client/visualizations/view/SluggishnessDetailView.java:1132-1200 | a label no event type fixes is put by the switch exactly when a coalesced-events entry carries that name |
| EventDetails.DetailsSpecLabels | src/client/ui/src/com/google/speedtracer/client/visualizations/view/SluggishnessDetailView.java:1118-1208 | description and start time are always shown; a duration exactly when it is positive; a stack trace exactly when there is a back trace; an overhead exactly when it is positive. A coalesced entry carrying one of these labels also puts it |
| EventDetails.DetailsSpecValues | src/client/ui/src/com/google/speedtracer/client/visualizations/view/SluggishnessDetailView.java:1121-1204 | a positive overhead is shown with two decimal places; the description is the event's help text unless a coalesced entry replaces it |
| EventDetails.PutPayloadEntries | src/client/ui/src/com/google/speedtracer/client/visualizations/view/SluggishnessDetailView.java:1132-1200 | the switch over event types adds exactly the entries of that type to the map, later puts replacing earlier ones |
| EventDetails.DetailsMapForEvent | src/client/ui/src/com/google/speedtracer/client/visualizations/view/SluggishnessDetailView.java:1118-1208 | the built map is the merge of common, type and overhead entries, with the label properties above |
| EventDetails.PopulateDetailsForTimerInstall | src/client/ui/src/com/google/speedtracer/client/visualizations/view/SluggishnessDetailView.java:1210-1218 | an unknown timer adds nothing; a known one adds exactly Timer Id, Timer Type (setTimeout for single-shot, setInterval otherwise) and Interval |
| Sorting.SortByMultiset | src/client/ui/src/com/google/speedtracer/client/visualizations/view/SluggishnessDetailView.java:604-612 | the sort is a permutation of its input |
| Sorting.SortByCorrect | src/client/ui/src/com/google/speedtracer/client/visualizations/view/SluggishnessDetailView.java:604-612 | the sort orders by key and is a permutation of its input |
| Sorting.SortByLast | src/client/ui/src/com/google/speedtracer/client/visualizations/view/SluggishnessDetailView.java:614 | the element a stable sort puts last is the input element with the largest key; among several with that key it is the one that comes last in the input |
| Breakdown.PositiveContents | src/client/ui/src/com/google/speedtracer/client/visualizations/view/SluggishnessDetailView.java:758-767 | a slice is collected exactly when it stands for a given type time that is positive |
| Breakdown.SortDescendingCorrect | src/client/ui/src/com/google/speedtracer/client/visualizations/view/SluggishnessDetailView.java:769 | the slices end up largest first and as a permutation |
| Breakdown.BreakdownDataCorrect | src/client/ui/src/com/google/speedtracer/client/visualizations/view/SluggishnessDetailView.java:730-770 | the breakdown data is sorted largest first and holds exactly the positive type times, each as often as it is given |
| Breakdown.UiEventDetails.constructor | src/client/ui/src/com/google/speedtracer/client/visualizations/view/SluggishnessDetailView.java:313-334 | a new row's details have no data and no aggregate-stats list |
| Breakdown.UiEventDetails.EnsureData | src/client/ui/src/com/google/speedtracer/client/visualizations/view/SluggishnessDetailView.java:730-770 | the first call computes the sorted positive slices; a later call changes nothing; the data is computed at most once |
| Breakdown.UiEventDetails.AttachAggregateStatsWidget | src/client/ui/src/com/google/speedtracer/client/visualizations/view/SluggishnessDetailView.java:343-349 | the data is ensured first and the list is attached with the given visibility |
| Breakdown.UiEventDetails.ToggleAggregateStatsVisibility | src/client/ui/src/com/google/speedtracer/client/visualizations/view/SluggishnessDetailView.java:368-372 | an attached list flips its visibility; without a list nothing happens |
| Selection.MaxTime | src/client/ui/src/com/google/speedtracer/client/visualizations/view/SluggishnessDetailView.java:704 | the latest start time among the nodes is attained by one of them and bounds them all |
| Selection.MinTime | src/client/ui/src/com/google/speedtracer/client/visualizations/view/SluggishnessDetailView.java:703 | the earliest start time among the nodes is attained by one of them and bounds them all |
| Selection.MaxTimeIsLast | src/client/ui/src/com/google/speedtracer/client/visualizations/view/SluggishnessDetailView.java:704 | when the last node starts no earlier than any other, the latest start time is its start |
| Selection.MinTimeIsFirst | src/client/ui/src/com/google/speedtracer/client/visualizations/view/SluggishnessDetailView.java:703 | when the first node starts no later than any other, the earliest start time is its start |
| Selection.TimeDeltaOfSorted | src/client/ui/src/com/google/speedtracer/client/visualizations/view/SluggishnessDetailView.java:702-705 | on a list sorted by start time, the delta from first to last is the span from the earliest to the latest start, so it is never negative |
| Selection.LastIsLatest | src/client/ui/src/com/google/speedtracer/client/visualizations/view/SluggishnessDetailView.java:604-614 | after the sort by start time, the last node is the latest; among equally late nodes it is the one that comes last in the selection list |
| Selection.DeltaAfterSort | src/client/ui/src/com/google/speedtracer/client/visualizations/view/SluggishnessDetailView.java:604-612 | sorting and then taking the delta gives the span from the earliest to the latest start |
| Selection.SortSingleton | src/client/ui/src/com/google/speedtracer/client/visualizations/view/SluggishnessDetailView.java:624-628 | sorting a single selected node leaves it as it is, so the single-node table shows that node |
| Selection.SamePermutationSameBounds | src/client/ui/src/com/google/speedtracer/client/visualizations/view/SluggishnessDetailView.java:604-612 | a permutation of the nodes has the same earliest and latest start time |
| Selection.OnSelectionChange | src/client/ui/src/com/google/speedtracer/client/visualizations/view/SluggishnessDetailView.java:599-637 | the new selection is the latest selected node (among ties, the one that comes last in the selection list); one node shows its details map; several show a non-negative delta from earliest to latest start |

## Left out

- Drawing: the DOM, widgets, CSS, the pie chart, the hintlet tree, table scrolling and row heights, and mouse and click listeners. They only draw what the model computes.
- EventDetails.DetailsMapForEvent: the details pane lays out its rows in the iteration order of the program's details map. The model's map is unordered, so it does not capture the order of the pane's rows (description, start time, duration, stack trace, type entries, overhead), nor where a label that a later put overwrites ends up.
- Formatting of times and numbers: the millisecond formatter and string concatenation. The details map holds the values it would format (`EventDetails.DetailValue`).
- The naming of event types (`typeToString`): a coalesced-events entry carries its resolved type name.
- The traversal that aggregates per-type times and whitelists log messages. Its result is an input of `Breakdown.UiEventDetails.EnsureData`, in the order the traversal's map iterates it.
- RowModel.EventTable.FillRowForUiEvent: a fresh record shows no log icon. Once the row's breakdown cell is drawn, `ensureData` adds a log icon to that same annotation cell when the event has user logs. The model does not follow that change, so a fresh record's log icon can differ from what the row shows.
- The order of breakdown slices: the slice's own ordering is not part of this model. It is taken as largest value first, which the list of the top slices relies on.
- UiEventDetails.refresh (the redraw of the hintlet tree of an expanded row) is drawing only.
- Event filtering, the filter panel, the source viewer, resymbolization of stack traces and the profile links.
- Sluggishness model queries: the event list, the range query and the timer table are inputs. The range query itself is not part of this model.
- DetailView.SluggishnessDetailView.UpdateView: the time bounds and the redisplay flag are replaced by the answer of the range query.
- DetailView.SluggishnessDetailView.UpdateView: requires a non-empty answer to hold at least two indices, which form a window within the list. The program reads `indices[1]` without a check, so a one-element answer throws before the table is touched. An out-of-range window throws inside `renderTable` (next line).
- RowModel.EventTable.RenderTable: requires a non-empty window to lie within the event list (the same for RowModel.EventTable.UpdateTotalTableRange). On an index outside the list, `getEventList().get(i)` throws after the rows and the record map have been cleared and some rows re-added, and after `updateTotalTableRange` has already stored the new window. That partial state is not modelled.
- DetailView.SluggishnessDetailView.ShortCircuitAddEvent: `endIndex` is left unchanged, as the code does. The streamed row therefore lies outside [beginIndex, endIndex), and a later `renderTable` over that window drops it.
- Selection.OnSelectionChange: requires a non-empty selection. On an empty one, the program throws at `selected.get(selected.size() - 1)`, after the old details table has been destroyed. That case is not modelled.
- Selection.OnSelectionChange: the program sorts the tree's own selection list in place. The model sorts a copy, so the caller's list keeps its order in the model.
- Selection.OnSelectionChange: times are reals. The NaN and negative-zero ordering of `Double.compare` is not modelled, nor is the offset of the details table, which is layout.
- RowModel.EventTable.AddRowForUiEvent: the program's row record also holds the row's `UiEventDetails`, created for each new row. The model's record (`RowModel.UiEventRow`) holds only the event and its annotation cell, so nothing links a table row to a `Breakdown.UiEventDetails`. In this core that object is used only by the redraw of an expanded row, which is drawing.
- RowModel.EventTable.RefreshRecord: the redrawn record takes the hint records and the log flag from its argument. In the program the argument is the same object as the event the row holds, so both reads see the same state.
