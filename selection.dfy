/**
 * What the details pane shows when the selection in an event's trace tree
 * changes: the selected events are sorted by start time, the last of them
 * becomes the current selection, and the pane shows either the details map
 * of the one selected event or, for several, the time between the earliest
 * and the latest of them.
 */
module Selection {
  import opened Events
  import opened Sorting
  import opened EventDetails

  /** The table the details pane shows for a selection. */
  datatype DetailsTable =
    | SingleNodeTable(details: map<string, DetailValue>)
    | MultiNodeTable(timeDelta: real)

  function StartTime(e: UiEvent): real {
    e.time
  }

  /** The latest start time among the events. */
  function MaxTime(s: seq<UiEvent>): (t: real)
    requires s != []
    ensures exists i | 0 <= i < |s| :: s[i].time == t
    ensures forall i | 0 <= i < |s| :: s[i].time <= t
  {
    if |s| == 1 then s[0].time
    else
      var rest := MaxTime(s[1..]);
      assert forall i | 1 <= i < |s| :: s[i] == s[1..][i - 1];
      if s[0].time >= rest then s[0].time else rest
  }

  /** The earliest start time among the events. */
  function MinTime(s: seq<UiEvent>): (t: real)
    requires s != []
    ensures exists i | 0 <= i < |s| :: s[i].time == t
    ensures forall i | 0 <= i < |s| :: t <= s[i].time
  {
    if |s| == 1 then s[0].time
    else
      var rest := MinTime(s[1..]);
      assert forall i | 1 <= i < |s| :: s[i] == s[1..][i - 1];
      if s[0].time <= rest then s[0].time else rest
  }

  /** The time between the first and the last of a list the caller has sorted by start time. */
  function TimeDelta(selectedNodes: seq<UiEvent>): real
    requires selectedNodes != []
  {
    selectedNodes[|selectedNodes| - 1].time - selectedNodes[0].time
  }

  /** When the last node starts no earlier than any other, the latest start time is its start. */
  lemma MaxTimeIsLast(s: seq<UiEvent>)
    requires s != [] && forall i | 0 <= i < |s| :: s[i].time <= s[|s| - 1].time
    ensures MaxTime(s) == s[|s| - 1].time
  {
    var i :| 0 <= i < |s| && s[i].time == MaxTime(s);
  }

  /** When the first node starts no later than any other, the earliest start time is its start. */
  lemma MinTimeIsFirst(s: seq<UiEvent>)
    requires s != [] && forall i | 0 <= i < |s| :: s[0].time <= s[i].time
    ensures MinTime(s) == s[0].time
  {
    var i :| 0 <= i < |s| && s[i].time == MinTime(s);
  }

  /** On a list sorted by start time, the delta spans the earliest to the latest start time, so it is never negative. */
  lemma TimeDeltaOfSorted(selectedNodes: seq<UiEvent>)
    requires selectedNodes != [] && SortedBy(selectedNodes, StartTime)
    ensures TimeDelta(selectedNodes) == MaxTime(selectedNodes) - MinTime(selectedNodes)
    ensures TimeDelta(selectedNodes) >= 0.0
  {
    var n := |selectedNodes|;
    forall i | 0 <= i < n ensures selectedNodes[0].time <= selectedNodes[i].time <= selectedNodes[n - 1].time {
      if i > 0 { assert StartTime(selectedNodes[0]) <= StartTime(selectedNodes[i]); }
      if i < n - 1 { assert StartTime(selectedNodes[i]) <= StartTime(selectedNodes[n - 1]); }
    }
    MaxTimeIsLast(selectedNodes);
    MinTimeIsFirst(selectedNodes);
  }

  /** The k-th selected node starts no earlier than any other, and strictly later than every node selected after it. */
  predicate LatestAt(selected: seq<UiEvent>, k: int) {
    && 0 <= k < |selected|
    && (forall j | 0 <= j < |selected| :: selected[j].time <= selected[k].time)
    && (forall j | k < j < |selected| :: selected[j].time < selected[k].time)
  }

  /** After sorting by start time, the last event is the latest one, and of equally late ones the one that comes last in the selection list. */
  lemma LastIsLatest(selected: seq<UiEvent>)
    requires selected != []
    ensures |SortBy(selected, StartTime)| == |selected|
    ensures exists k | 0 <= k < |selected| :: SortBy(selected, StartTime)[|selected| - 1] == selected[k] && LatestAt(selected, k)
  {
    var k := SortByLast(selected, StartTime);
    assert LatestAt(selected, k);
  }

  /**
   * Handles a change of the selection. The new selection is the selected
   * event with the latest start time (of several, the one that comes last in the selection list);
   * one selected event shows its details map, several show the time between
   * the earliest and the latest start.
   */
  method OnSelectionChange(selected: seq<UiEvent>, timers: map<int, TimerData>)
    returns (newSelection: UiEvent, table: DetailsTable)
    requires selected != []
    ensures exists k | 0 <= k < |selected| :: newSelection == selected[k] && LatestAt(selected, k)
    ensures |selected| == 1 ==> table == SingleNodeTable(DetailsSpec(selected[0], timers))
    ensures |selected| > 1 ==> table == MultiNodeTable(MaxTime(selected) - MinTime(selected))
    ensures table.MultiNodeTable? ==> table.timeDelta >= 0.0
  {
    var sorted := SortBy(selected, StartTime);
    LastIsLatest(selected);
    newSelection := sorted[|selected| - 1];
    if |selected| == 1 {
      SortSingleton(selected);
      var details := DetailsMapForEvent(newSelection, timers);
      table := SingleNodeTable(details);
    } else {
      DeltaAfterSort(selected);
      table := MultiNodeTable(TimeDelta(sorted));
    }
  }

  /** Sorting a single node leaves it as it is. */
  lemma SortSingleton(selected: seq<UiEvent>)
    requires |selected| == 1
    ensures SortBy(selected, StartTime) == selected
  {
    assert SortBy(selected[1..], StartTime) == [];
  }

  /** Sorting by start time and taking the delta yields the span from the earliest to the latest start. */
  lemma DeltaAfterSort(selected: seq<UiEvent>)
    requires selected != []
    ensures SortBy(selected, StartTime) != []
    ensures TimeDelta(SortBy(selected, StartTime)) == MaxTime(selected) - MinTime(selected)
    ensures MaxTime(selected) - MinTime(selected) >= 0.0
  {
    var sorted := SortBy(selected, StartTime);
    SortByCorrect(selected, StartTime);
    SamePermutationSameBounds(selected, sorted);
    TimeDeltaOfSorted(sorted);
  }

  /** Two lists with the same elements have the same earliest and latest start time. */
  lemma SamePermutationSameBounds(s: seq<UiEvent>, t: seq<UiEvent>)
    requires s != [] && multiset(s) == multiset(t)
    ensures t != []
    ensures MaxTime(s) == MaxTime(t) && MinTime(s) == MinTime(t)
  {
    assert s[0] in multiset(t);
    forall x | x in t ensures x in s {
      assert x in multiset(t);
    }
    forall x | x in s ensures x in t {
      assert x in multiset(s);
    }
    var i :| 0 <= i < |s| && s[i].time == MaxTime(s);
    var j :| 0 <= j < |t| && t[j].time == MaxTime(t);
    assert s[i] in t && t[j] in s;
    var i' :| 0 <= i' < |s| && s[i'].time == MinTime(s);
    var j' :| 0 <= j' < |t| && t[j'].time == MinTime(t);
    assert s[i'] in t && t[j'] in s;
  }
}
