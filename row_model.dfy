/**
 * The table of top-level events of the sluggishness detail view.
 *
 * The table shows the events of a half-open index window
 * [beginIndex, endIndex) of the model's event list, one row per event in
 * list order, and keeps a record map from each shown event's sequence number
 * to the record of its row, so that a row can be found again when its event
 * changes. The table is rebuilt whenever the window changes, and rows are
 * appended one at a time while events stream in.
 *
 * The mutable annotation cell of a row is reached through its record; the
 * list of rows holds only the event each row shows.
 */
module RowModel {
  import opened Events

  /** A row of the table: the event it shows (start time, duration and type are cells derived from it). */
  datatype UiTableRow = UiTableRow(uiEvent: UiEvent)

  /** The annotation cell of a row: the hint records it shows an indicator for, and whether it shows a log icon. */
  datatype AnnotationIconCell = AnnotationIconCell(hintRecords: Option<seq<HintRecord>>, logIcon: bool)

  /** The record the record map keeps for a row. */
  datatype UiEventRow = UiEventRow(event: UiEvent, annotationIconCell: AnnotationIconCell)

  /** The record of a freshly filled row: its annotation cell shows the event's hint records and no log icon. */
  function NewRecord(e: UiEvent): UiEventRow {
    UiEventRow(e, AnnotationIconCell(e.hintRecords, false))
  }

  /** The record of a refreshed row: the annotation cell is redrawn from the event's current hint records and log flag. */
  function RefreshedRecord(e: UiEvent): UiEventRow {
    UiEventRow(e, AnnotationIconCell(e.hintRecords, e.hasUserLogs))
  }

  /** A window the table can be built from: empty, or within the event list. */
  predicate InRange(begin: int, end: int, n: int) {
    begin >= end || (0 <= begin && end <= n)
  }

  /** The events of the window [begin, end), in list order. */
  function Window(events: seq<UiEvent>, begin: int, end: int): (w: seq<UiEvent>)
    requires InRange(begin, end, |events|)
    ensures |w| == if begin < end then end - begin else 0
    ensures forall k | 0 <= k < |w| :: w[k] == events[begin + k]
  {
    if begin < end then events[begin..end] else []
  }

  /** One row per event, in order. */
  function RowsOf(events: seq<UiEvent>): seq<UiTableRow> {
    seq(|events|, k requires 0 <= k < |events| => UiTableRow(events[k]))
  }

  /** The record map after putting a fresh record for each event in turn into `m`: a later event replaces an earlier one with the same sequence number. */
  function PutAll(m: map<int, UiEventRow>, events: seq<UiEvent>): map<int, UiEventRow> {
    if events == [] then m
    else
      var last := events[|events| - 1];
      PutAll(m, events[..|events| - 1])[last.sequence := NewRecord(last)]
  }

  /** The record map of a table built from nothing. */
  function RecordsOf(events: seq<UiEvent>): map<int, UiEventRow> {
    PutAll(map[], events)
  }

  ghost function RowSequences(rows: seq<UiTableRow>): set<int> {
    set k | 0 <= k < |rows| :: rows[k].uiEvent.sequence
  }

  /** Putting records adds exactly the sequence numbers of the events as keys. */
  lemma {:induction false} PutAllKeys(m: map<int, UiEventRow>, events: seq<UiEvent>)
    ensures PutAll(m, events).Keys == m.Keys + Sequences(events)
  {
    if events != [] {
      var front := events[..|events| - 1];
      PutAllKeys(m, front);
      assert Sequences(events) == Sequences(front) + {events[|events| - 1].sequence} by {
        forall s | s in Sequences(events) ensures s in Sequences(front) + {events[|events| - 1].sequence} {
          var k :| 0 <= k < |events| && events[k].sequence == s;
          if k < |front| { assert front[k] == events[k]; }
        }
        forall s | s in Sequences(front) ensures s in Sequences(events) {
          var k :| 0 <= k < |front| && front[k].sequence == s;
          assert events[k] == front[k];
        }
      }
    }
  }

  /** With unique sequence numbers, every event finds its own fresh record under its sequence number. */
  lemma {:induction false} PutAllAt(m: map<int, UiEventRow>, events: seq<UiEvent>, i: int)
    requires UniqueSequences(events) && 0 <= i < |events|
    ensures events[i].sequence in PutAll(m, events)
    ensures PutAll(m, events)[events[i].sequence] == NewRecord(events[i])
  {
    var front := events[..|events| - 1];
    if i < |events| - 1 {
      assert UniqueSequences(front) by {
        forall a, b | 0 <= a < b < |front| ensures front[a].sequence != front[b].sequence {
          assert front[a] == events[a] && front[b] == events[b];
        }
      }
      assert front[i] == events[i];
      PutAllAt(m, front, i);
    }
  }

  /** Putting records leaves every key that is no event's sequence number as it was. */
  lemma {:induction false} PutAllElsewhere(m: map<int, UiEventRow>, events: seq<UiEvent>, s: int)
    requires s in m && s !in Sequences(events)
    ensures s in PutAll(m, events) && PutAll(m, events)[s] == m[s]
  {
    if events != [] {
      var front := events[..|events| - 1];
      assert s !in Sequences(front) by {
        forall k | 0 <= k < |front| ensures front[k].sequence != s {
          assert front[k] == events[k];
        }
      }
      PutAllElsewhere(m, front, s);
    }
  }

  /** Putting the records of two lists in turn is putting the records of their concatenation. */
  lemma {:induction false} PutAllConcat(m: map<int, UiEventRow>, a: seq<UiEvent>, b: seq<UiEvent>)
    ensures PutAll(m, a + b) == PutAll(PutAll(m, a), b)
  {
    if b == [] {
      assert a + b == a;
    } else {
      var front := b[..|b| - 1];
      PutAllConcat(m, a, front);
      assert (a + b)[..|a + b| - 1] == a + front;
      assert (a + b)[|a + b| - 1] == b[|b| - 1];
    }
  }

  /**
   * Streaming equals rebuilding: a table built for [begin, end) and then
   * extended by one appended row per event of [end, n) has the rows and the
   * record map of a table built for [begin, n).
   */
  lemma StreamingMatchesRebuild(events: seq<UiEvent>, begin: int, end: int, n: int)
    requires 0 <= begin <= end <= n <= |events|
    ensures RowsOf(events[begin..end]) + RowsOf(events[end..n]) == RowsOf(events[begin..n])
    ensures PutAll(RecordsOf(events[begin..end]), events[end..n]) == RecordsOf(events[begin..n])
  {
    assert events[begin..end] + events[end..n] == events[begin..n];
    PutAllConcat(map[], events[begin..end], events[end..n]);
  }

  lemma RowSequencesOf(events: seq<UiEvent>)
    ensures RowSequences(RowsOf(events)) == Sequences(events)
  {
    var rows := RowsOf(events);
    forall s | s in Sequences(events) ensures s in RowSequences(rows) {
      var k :| 0 <= k < |events| && events[k].sequence == s;
      assert rows[k].uiEvent == events[k];
    }
  }

  /** Widening a window by the event at its end adds one row after the others and puts that event's record. */
  lemma WindowGrows(events: seq<UiEvent>, begin: int, i: int)
    requires 0 <= begin <= i < |events|
    ensures RowsOf(events[begin..i + 1]) == RowsOf(events[begin..i]) + [UiTableRow(events[i])]
    ensures RecordsOf(events[begin..i + 1]) == RecordsOf(events[begin..i])[events[i].sequence := NewRecord(events[i])]
  {
    var done := events[begin..i];
    assert events[begin..i + 1] == done + [events[i]];
    assert (done + [events[i]])[..|done|] == done;
  }

  /** The table built from a window: its rows follow the window in order, and its keys are the window's sequence numbers. */
  lemma WindowTable(events: seq<UiEvent>, begin: int, end: int)
    requires InRange(begin, end, |events|)
    ensures |RowsOf(Window(events, begin, end))| == if begin < end then end - begin else 0
    ensures forall k | 0 <= k < |RowsOf(Window(events, begin, end))| ::
              RowsOf(Window(events, begin, end))[k].uiEvent == events[begin + k]
    ensures RecordsOf(Window(events, begin, end)).Keys == Sequences(Window(events, begin, end))
    ensures RowSequences(RowsOf(Window(events, begin, end))) == Sequences(Window(events, begin, end))
  {
    RowSequencesOf(Window(events, begin, end));
    PutAllKeys(map[], Window(events, begin, end));
  }

  /**
   * The event table. `rows` is the list of rows in display order;
   * `recordMap` maps the sequence number of each shown event to the record of
   * its row.
   */
  class EventTable {
    var beginIndex: int
    var endIndex: int
    var rows: seq<UiTableRow>
    var recordMap: map<int, UiEventRow>

    /** Every row has a record under its event's sequence number, and every record belongs to a row. */
    ghost predicate Valid()
      reads this
    {
      && recordMap.Keys == RowSequences(rows)
      && forall s | s in recordMap :: recordMap[s].event.sequence == s
    }

    constructor ()
      ensures Valid()
      ensures beginIndex == 0 && endIndex == 0 && rows == [] && recordMap == map[]
    {
      beginIndex, endIndex := 0, 0;
      rows, recordMap := [], map[];
    }

    /** Adds a row for `uiEvent` after the last row. */
    method AppendRow(uiEvent: UiEvent) returns (row: UiTableRow)
      modifies this`rows
      ensures row == UiTableRow(uiEvent) && rows == old(rows) + [row]
    {
      row := UiTableRow(uiEvent);
      rows := rows + [row];
    }

    /** Adds a row for `uiEvent` before the first row. */
    method PrependRow(uiEvent: UiEvent) returns (row: UiTableRow)
      modifies this`rows
      ensures row == UiTableRow(uiEvent) && rows == [row] + old(rows)
    {
      row := UiTableRow(uiEvent);
      rows := [row] + rows;
    }

    /** Fills the cells of a new row and records it under its event's sequence number. */
    method FillRowForUiEvent(uiEvent: UiEvent)
      modifies this`recordMap
      ensures recordMap == old(recordMap)[uiEvent.sequence := NewRecord(uiEvent)]
    {
      recordMap := recordMap[uiEvent.sequence := NewRecord(uiEvent)];
    }

    /**
     * Adds a row for `e`, last when `append` and first otherwise. The other
     * rows keep their order, the record map changes only at `e`'s sequence
     * number, and the window is untouched.
     */
    method AddRowForUiEvent(e: UiEvent, append: bool) returns (row: UiTableRow)
      requires Valid()
      modifies this`rows, this`recordMap
      ensures Valid()
      ensures row == UiTableRow(e)
      ensures rows == if append then old(rows) + [row] else [row] + old(rows)
      ensures recordMap == old(recordMap)[e.sequence := NewRecord(e)]
    {
      ghost var before := rows;
      if append {
        row := AppendRow(e);
        assert RowSequences(rows) == RowSequences(before) + {e.sequence} by {
          forall s | s in RowSequences(rows) ensures s in RowSequences(before) + {e.sequence} {
            var k :| 0 <= k < |rows| && rows[k].uiEvent.sequence == s;
            if k < |before| { assert rows[k] == before[k]; }
          }
          forall s | s in RowSequences(before) ensures s in RowSequences(rows) {
            var k :| 0 <= k < |before| && before[k].uiEvent.sequence == s;
            assert rows[k] == before[k];
          }
          assert rows[|before|] == row;
        }
      } else {
        row := PrependRow(e);
        assert RowSequences(rows) == RowSequences(before) + {e.sequence} by {
          forall s | s in RowSequences(rows) ensures s in RowSequences(before) + {e.sequence} {
            var k :| 0 <= k < |rows| && rows[k].uiEvent.sequence == s;
            if k > 0 { assert rows[k] == before[k - 1]; }
          }
          forall s | s in RowSequences(before) ensures s in RowSequences(rows) {
            var k :| 0 <= k < |before| && before[k].uiEvent.sequence == s;
            assert rows[k + 1] == before[k];
          }
          assert rows[0] == row;
        }
      }
      FillRowForUiEvent(e);
    }

    /**
     * Redraws the annotation cell of the row showing `uiEvent`, found by its
     * sequence number; nothing when no row shows it. The rows, their order
     * and the keys of the record map never change.
     */
    method RefreshRecord(uiEvent: UiEvent)
      requires Valid()
      modifies this`recordMap
      ensures Valid()
      ensures recordMap.Keys == old(recordMap).Keys
      ensures uiEvent.sequence !in old(recordMap) ==> recordMap == old(recordMap)
      ensures uiEvent.sequence in old(recordMap) ==>
                recordMap == old(recordMap)[uiEvent.sequence := RefreshedRecord(uiEvent)]
    {
      if uiEvent.sequence !in recordMap {
        return;
      }
      recordMap := recordMap[uiEvent.sequence := RefreshedRecord(uiEvent)];
    }

    /**
     * Wipes the table and adds one row per event of the current window.
     * Nothing of the previous rows or records survives: the rows are the
     * window's events in index order and the record map's keys are exactly
     * their sequence numbers.
     */
    method RenderTable(events: seq<UiEvent>)
      requires InRange(beginIndex, endIndex, |events|)
      modifies this`rows, this`recordMap
      ensures Valid()
      ensures rows == RowsOf(Window(events, beginIndex, endIndex))
      ensures recordMap == RecordsOf(Window(events, beginIndex, endIndex))
      ensures |rows| == if beginIndex < endIndex then endIndex - beginIndex else 0
      ensures forall k | 0 <= k < |rows| :: rows[k].uiEvent == events[beginIndex + k]
      ensures recordMap.Keys == Sequences(Window(events, beginIndex, endIndex))
    {
      rows := [];
      recordMap := map[];
      if beginIndex < endIndex {
        var i := beginIndex;
        while i < endIndex
          invariant beginIndex <= i <= endIndex
          invariant Valid()
          invariant rows == RowsOf(events[beginIndex..i])
          invariant recordMap == RecordsOf(events[beginIndex..i])
        {
          WindowGrows(events, beginIndex, i);
          var _ := AddRowForUiEvent(events[i], true);
          i := i + 1;
        }
      }
      WindowTable(events, beginIndex, endIndex);
    }

    /** Sets the window to [beginIndex, endIndex) and rebuilds the table from it. */
    method UpdateTotalTableRange(events: seq<UiEvent>, beginIndex: int, endIndex: int)
      requires InRange(beginIndex, endIndex, |events|)
      modifies this
      ensures Valid()
      ensures this.beginIndex == beginIndex && this.endIndex == endIndex
      ensures rows == RowsOf(Window(events, beginIndex, endIndex))
      ensures recordMap == RecordsOf(Window(events, beginIndex, endIndex))
      ensures recordMap.Keys == Sequences(Window(events, beginIndex, endIndex))
    {
      this.beginIndex := beginIndex;
      this.endIndex := endIndex;
      RenderTable(events);
    }
  }
}
