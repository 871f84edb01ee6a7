/**
 * The "breakdown by time" of one event: for every event type, the time its
 * subtree spent in that type, as the pie chart and the list beside a row show
 * it. Only types with a positive time are kept, largest first.
 *
 * The per-type times come from the aggregate-time traversal, which is not
 * part of this model: they are an input, in the order the traversal's map
 * iterates them.
 */
module Breakdown {
  import opened Events
  import opened Sorting

  /** The time the aggregate-time traversal attributes to one event type. */
  datatype TypeDuration = TypeDuration(typeCode: int, duration: real)

  /** One slice of the breakdown; its label and colour are derived from the type code. */
  datatype ColorCodedValue = ColorCodedValue(typeCode: int, value: real)

  /** The slices of the types with a positive time, in the order the times are given. */
  function Positive(durations: seq<TypeDuration>): seq<ColorCodedValue> {
    if durations == [] then []
    else
      var last := durations[|durations| - 1];
      Positive(durations[..|durations| - 1])
      + (if last.duration > 0.0 then [ColorCodedValue(last.typeCode, last.duration)] else [])
  }

  /** A slice is kept exactly when it stands for a given type time that is positive. */
  lemma {:induction false} PositiveContents(durations: seq<TypeDuration>)
    ensures forall c :: c in Positive(durations) <==> c.value > 0.0 && TypeDuration(c.typeCode, c.value) in durations
  {
    if durations != [] {
      var front := durations[..|durations| - 1];
      PositiveContents(front);
      assert durations == front + [durations[|durations| - 1]];
    }
  }

  predicate SortedDescending(s: seq<ColorCodedValue>) {
    forall i, j | 0 <= i < j < |s| :: s[i].value >= s[j].value
  }

  function NegatedValue(c: ColorCodedValue): real {
    -c.value
  }

  /** The platform's stable sort under the slices' natural order: largest value first. */
  function SortDescending(s: seq<ColorCodedValue>): seq<ColorCodedValue> {
    SortBy(s, NegatedValue)
  }

  lemma SortDescendingCorrect(s: seq<ColorCodedValue>)
    ensures SortedDescending(SortDescending(s))
    ensures multiset(SortDescending(s)) == multiset(s)
  {
    SortByCorrect(s, NegatedValue);
    var r := SortDescending(s);
    forall i, j | 0 <= i < j < |r| ensures r[i].value >= r[j].value {
      assert NegatedValue(r[i]) <= NegatedValue(r[j]);
    }
  }

  /**
   * The breakdown data of an event: sorted largest first, and made of exactly
   * the given type times that are positive (each as often as it is given).
   */
  lemma BreakdownDataCorrect(durations: seq<TypeDuration>)
    ensures SortedDescending(SortDescending(Positive(durations)))
    ensures multiset(SortDescending(Positive(durations))) == multiset(Positive(durations))
    ensures forall c :: c in SortDescending(Positive(durations)) <==>
                          c.value > 0.0 && TypeDuration(c.typeCode, c.value) in durations
  {
    SortDescendingCorrect(Positive(durations));
    PositiveContents(durations);
    forall c ensures c in SortDescending(Positive(durations)) <==> c in Positive(durations) {
      assert c in SortDescending(Positive(durations)) <==> c in multiset(SortDescending(Positive(durations)));
    }
  }

  /**
   * The expanded details of one table row. Its breakdown data is computed
   * the first time it is needed and kept; the aggregate-stats list is
   * attached at most once and can then be shown or hidden.
   */
  class UiEventDetails {
    const event: UiEvent
    /** The breakdown data, once computed. */
    var data: Option<seq<ColorCodedValue>>
    /** Whether the aggregate-stats list is visible; absent until it is attached. */
    var aggregateStats: Option<bool>
    ghost predicate Valid()
      reads this
    {
      aggregateStats.Some? ==> data.Some?
    }

    constructor (event: UiEvent)
      ensures Valid() && this.event == event
      ensures data == None && aggregateStats == None
    {
      this.event := event;
      data := None;
      aggregateStats := None;
    }

    /**
     * Computes the breakdown data from the type times of this event, unless
     * it has been computed already: a second call changes nothing.
     */
    method EnsureData(durations: seq<TypeDuration>)
      requires Valid()
      modifies this`data
      ensures Valid()
      ensures old(data).Some? ==> data == old(data)
      ensures old(data).None? ==> data == Some(SortDescending(Positive(durations)))
    {
      if data.None? {
        var collected := [];
        for i := 0 to |durations|
          invariant collected == Positive(durations[..i])
        {
          assert durations[..i + 1][..i] == durations[..i];
          if durations[i].duration > 0.0 {
            collected := collected + [ColorCodedValue(durations[i].typeCode, durations[i].duration)];
          }
        }
        assert durations[..|durations|] == durations;
        data := Some(SortDescending(collected));
      }
    }

    /** Attaches the aggregate-stats list, computing the breakdown data first if needed. */
    method AttachAggregateStatsWidget(durations: seq<TypeDuration>, initiallyVisible: bool)
      requires Valid() && aggregateStats.None?
      modifies this
      ensures Valid()
      ensures old(data).Some? ==> data == old(data)
      ensures old(data).None? ==> data == Some(SortDescending(Positive(durations)))
      ensures aggregateStats == Some(initiallyVisible)
    {
      EnsureData(durations);
      aggregateStats := Some(initiallyVisible);
    }

    /** Shows the aggregate-stats list if it is hidden and hides it if it is shown; nothing when not attached. */
    method ToggleAggregateStatsVisibility()
      requires Valid()
      modifies this`aggregateStats
      ensures Valid()
      ensures old(aggregateStats).None? ==> aggregateStats == None
      ensures old(aggregateStats).Some? ==> aggregateStats == Some(!old(aggregateStats).value)
    {
      if aggregateStats.Some? {
        aggregateStats := Some(!aggregateStats.value);
      }
    }
  }
}
