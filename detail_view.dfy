/**
 * The sluggishness detail view: the part of it that drives the event table.
 * It turns the index range the model finds for a time window into a new
 * table window, appends streaming events to the table without a rebuild,
 * and forwards refreshes of changed events.
 *
 * The event list and the range query are the model's; here they are inputs.
 */
module DetailView {
  import opened Events
  import opened RowModel

  /**
   * What the range query of the model may answer for a time window: nothing
   * (no answer), an empty array (no event in the window), or an array whose
   * first two entries are the begin and end of a window within the list.
   */
  predicate UsableIndices(events: seq<UiEvent>, indices: Option<seq<int>>) {
    indices.Some? && |indices.value| > 0 ==>
      |indices.value| >= 2 && InRange(indices.value[0], indices.value[1], |events|)
  }

  class SluggishnessDetailView {
    const contentTable: EventTable

    ghost predicate Valid()
      reads this, contentTable
    {
      contentTable.Valid()
    }

    constructor ()
      ensures Valid() && fresh(contentTable)
      ensures contentTable.beginIndex == 0 && contentTable.endIndex == 0
      ensures contentTable.rows == [] && contentTable.recordMap == map[]
    {
      contentTable := new EventTable();
    }

    /**
     * Moves the table to the events the range query found. No answer leaves
     * the table as it is; an empty answer blanks it to the window (0, 0); an
     * answer (b, e, ...) rebuilds it for the window [b, e).
     */
    method UpdateView(events: seq<UiEvent>, indices: Option<seq<int>>)
      requires Valid() && UsableIndices(events, indices)
      modifies contentTable
      ensures Valid()
      ensures indices.None? ==>
                && contentTable.beginIndex == old(contentTable.beginIndex)
                && contentTable.endIndex == old(contentTable.endIndex)
                && contentTable.rows == old(contentTable.rows)
                && contentTable.recordMap == old(contentTable.recordMap)
      ensures indices == Some([]) ==>
                && contentTable.beginIndex == 0 && contentTable.endIndex == 0
                && contentTable.rows == [] && contentTable.recordMap == map[]
      ensures indices.Some? && |indices.value| > 0 ==>
                && contentTable.beginIndex == indices.value[0]
                && contentTable.endIndex == indices.value[1]
                && contentTable.rows == RowsOf(Window(events, indices.value[0], indices.value[1]))
                && contentTable.recordMap == RecordsOf(Window(events, indices.value[0], indices.value[1]))
    {
      if indices.Some? {
        if |indices.value| == 0 {
          contentTable.UpdateTotalTableRange(events, 0, 0);
        } else {
          contentTable.UpdateTotalTableRange(events, indices.value[0], indices.value[1]);
        }
      }
    }

    /**
     * Appends a row for a streaming event without rebuilding the table. The
     * window itself is not moved: the new row lies past `endIndex`.
     */
    method ShortCircuitAddEvent(event: UiEvent)
      requires Valid()
      modifies contentTable`rows, contentTable`recordMap
      ensures Valid()
      ensures contentTable.rows == old(contentTable.rows) + [UiTableRow(event)]
      ensures contentTable.recordMap == old(contentTable.recordMap)[event.sequence := NewRecord(event)]
      ensures contentTable.beginIndex == old(contentTable.beginIndex)
      ensures contentTable.endIndex == old(contentTable.endIndex)
    {
      var _ := contentTable.AddRowForUiEvent(event, true);
    }

    /** Forwards the refresh of a changed event to the table. */
    method RefreshRecord(uiEvent: UiEvent)
      requires Valid()
      modifies contentTable`recordMap
      ensures Valid()
      ensures contentTable.recordMap.Keys == old(contentTable.recordMap).Keys
      ensures uiEvent.sequence !in old(contentTable.recordMap) ==>
                contentTable.recordMap == old(contentTable.recordMap)
      ensures uiEvent.sequence in old(contentTable.recordMap) ==>
                contentTable.recordMap == old(contentTable.recordMap)[uiEvent.sequence := RefreshedRecord(uiEvent)]
    {
      contentTable.RefreshRecord(uiEvent);
    }
  }
}
