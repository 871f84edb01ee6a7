/**
 * The details map shown for one selected event: a map from a row label of
 * the details table to the value shown beside it. The common entries
 * (description, start time, duration, stack trace) come first, then the
 * entries only one event type has, then the instrumentation overhead; a
 * later entry replaces an earlier one under the same label.
 *
 * Values are kept as the data they are formatted from: the millisecond
 * formatter and the string conversions of numbers are not part of this model.
 */
module EventDetails {
  import opened Events

  /** A value of the details table, before it is formatted for display. */
  datatype DetailValue =
    | Text(text: string)                        // shown as it is
    | Millis(ms: real, places: Option<nat>)     // milliseconds, with the formatter's default or a given number of decimal places
    | Number(n: int, suffix: string)            // an integer followed by a unit suffix ("" or "ms")
    | Coordinates(x: int, y: int)               // "x, y"
    | Dimensions(width: int, height: int)       // "width x height"
    | CountDuration(count: int, ms: real)       // "count: c duration: d", d with three decimal places

  const STACK_TRACE_KEY := "Stack Trace"

  /** The labels of the entries of a coalesced-events record. */
  function TupleNames(tuples: seq<TypeCountDuration>): set<string> {
    set i | 0 <= i < |tuples| :: tuples[i].typeName
  }

  /** The index of the last entry of a coalesced-events record that carries the given name. */
  function LastIndexOf(tuples: seq<TypeCountDuration>, name: string): (k: nat)
    requires name in TupleNames(tuples)
    ensures k < |tuples| && tuples[k].typeName == name
    ensures forall j | k < j < |tuples| :: tuples[j].typeName != name
    decreases |tuples|
  {
    if tuples[|tuples| - 1].typeName == name then |tuples| - 1
    else
      var front := tuples[..|tuples| - 1];
      assert name in TupleNames(front) by {
        var i :| 0 <= i < |tuples| && tuples[i].typeName == name;
        assert front[i] == tuples[i];
      }
      LastIndexOf(front, name)
  }

  function TupleValue(t: TypeCountDuration): DetailValue {
    CountDuration(t.count, t.duration)
  }

  /** The entries of a coalesced-events record, put one by one in order: a later entry replaces an earlier one under the same name. */
  function TupleEntries(tuples: seq<TypeCountDuration>): map<string, DetailValue> {
    if tuples == [] then map[]
    else
      var last := tuples[|tuples| - 1];
      TupleEntries(tuples[..|tuples| - 1])[last.typeName := TupleValue(last)]
  }

  /** The labels a coalesced-events record contributes; no other event type can add a label that is not fixed. */
  function CoalescedNames(p: Payload): set<string> {
    if p.LotsOfLittleEvents? then TupleNames(p.tuples) else {}
  }

  /** The entries a timer installation adds, or none when its record is unknown. */
  function TimerInstallEntries(timerData: Option<TimerData>): map<string, DetailValue> {
    match timerData
    case None => map[]
    case Some(t) =>
      map[]["Timer Id" := Number(t.timerId, "")]
           ["Timer Type" := Text(if t.singleShot then "setTimeout" else "setInterval")]
           ["Interval" := Number(t.interval, "ms")]
  }

  /**
   * The entries only one event type has. A fired timer shows the record of
   * its installation, looked up by timer id in `timers` (the model's table of
   * installed timers); DOM and HTML-parse events add nothing.
   */
  function PayloadEntries(p: Payload, timers: map<int, TimerData>): map<string, DetailValue> {
    match p
    case DomEvent => map[]
    case LotsOfLittleEvents(tuples) => TupleEntries(tuples)
    case TimerFired(id) => TimerInstallEntries(if id in timers then Some(timers[id]) else None)
    case TimerInstalled(t) => TimerInstallEntries(Some(t))
    case TimerCleared(id) => map[]["Cleared Timer Id" := Number(id, "")]
    case PaintEvent(x, y, w, h) => map[]["Origin" := Coordinates(x, y)]["Size" := Dimensions(w, h)]
    case ParseHtmlEvent => map[]
    case EvalScript(url, line) => map[]["Url" := Text(url)]["Line Number" := Number(line, "")]
    case XhrReadyStateChange(state, url) => map[]["Ready State" := Number(state, "")]["Url" := Text(url)]
    case XhrLoad(url) => map[]["Url" := Text(url)]
    case LogEvent(message) => map[]["Message" := Text(message)]
    case OtherEvent(_) => map[]
  }

  /** The entries every event has, and those it has when its duration is positive or it has a back trace. */
  function CommonEntries(e: UiEvent): map<string, DetailValue> {
    var always := map["Description" := Text(e.helpString), "@" := Millis(e.time, None)];
    var timed := if e.duration > 0.0 then always["Duration" := Millis(e.duration, Some(3))] else always;
    if e.backTrace.Some? then timed[STACK_TRACE_KEY := Text(e.backTrace.value)] else timed
  }

  function OverheadEntries(e: UiEvent): map<string, DetailValue> {
    if e.overhead > 0.0 then map["Overhead" := Millis(e.overhead, Some(2))] else map[]
  }

  /** The whole details map of an event: later groups win on a shared label. */
  function DetailsSpec(e: UiEvent, timers: map<int, TimerData>): map<string, DetailValue> {
    CommonEntries(e) + PayloadEntries(e.payload, timers) + OverheadEntries(e)
  }

  /** Adding one entry to a coalesced-events record adds its name to the record's names. */
  lemma TupleNamesSnoc(tuples: seq<TypeCountDuration>, t: TypeCountDuration)
    ensures TupleNames(tuples + [t]) == TupleNames(tuples) + {t.typeName}
  {
    var longer := tuples + [t];
    forall name | name in TupleNames(longer) ensures name in TupleNames(tuples) + {t.typeName} {
      var i :| 0 <= i < |longer| && longer[i].typeName == name;
      if i < |tuples| { assert tuples[i] == longer[i]; }
    }
    forall name | name in TupleNames(tuples) ensures name in TupleNames(longer) {
      var i :| 0 <= i < |tuples| && tuples[i].typeName == name;
      assert longer[i] == tuples[i];
    }
    assert longer[|tuples|] == t;
  }

  /** After one more entry, the last entry carrying a name is the new one for its own name and the old last one for any other. */
  lemma LastIndexOfSnoc(tuples: seq<TypeCountDuration>, t: TypeCountDuration, name: string)
    requires name in TupleNames(tuples + [t])
    ensures name == t.typeName ==> LastIndexOf(tuples + [t], name) == |tuples|
    ensures name != t.typeName ==> name in TupleNames(tuples) && LastIndexOf(tuples + [t], name) == LastIndexOf(tuples, name)
  {
    assert (tuples + [t])[..|tuples|] == tuples;
  }

  /**
   * The labels of a coalesced-events record are exactly the names of its
   * entries, and each shows the last entry carrying its name.
   */
  lemma {:induction false} TupleEntriesLast(tuples: seq<TypeCountDuration>)
    ensures TupleEntries(tuples).Keys == TupleNames(tuples)
    ensures forall name | name in TupleNames(tuples) :: TupleEntries(tuples)[name] == TupleValue(tuples[LastIndexOf(tuples, name)])
  {
    if tuples != [] {
      var front, last := tuples[..|tuples| - 1], tuples[|tuples| - 1];
      assert tuples == front + [last];
      TupleEntriesLast(front);
      TupleNamesSnoc(front, last);
      forall name | name in TupleNames(tuples)
        ensures TupleEntries(tuples)[name] == TupleValue(tuples[LastIndexOf(tuples, name)])
      {
        LastIndexOfSnoc(front, last, name);
      }
    }
  }

  /**
   * The labels an event type other than a coalesced-events record may add:
   * the union of `TypeLabels(p)` over every payload `p`, written out.
   */
  const TYPE_LABELS: set<string> := {"Timer Id", "Timer Type", "Interval", "Cleared Timer Id", "Origin", "Size",
                                     "Url", "Line Number", "Ready State", "Message"}

  /** The fixed labels each event type puts; a coalesced-events record puts the names of its entries instead. */
  function TypeLabels(p: Payload): (labels: set<string>)
    ensures labels <= TYPE_LABELS
  {
    match p
    case TimerFired(_) => {"Timer Id", "Timer Type", "Interval"}
    case TimerInstalled(_) => {"Timer Id", "Timer Type", "Interval"}
    case TimerCleared(_) => {"Cleared Timer Id"}
    case PaintEvent(_, _, _, _) => {"Origin", "Size"}
    case EvalScript(_, _) => {"Url", "Line Number"}
    case XhrReadyStateChange(_, _) => {"Ready State", "Url"}
    case XhrLoad(_) => {"Url"}
    case LogEvent(_) => {"Message"}
    case _ => {}
  }

  /** An event type puts only its own fixed labels, or the names of its coalesced entries. */
  lemma PayloadLabels(p: Payload, timers: map<int, TimerData>)
    ensures PayloadEntries(p, timers).Keys <= TypeLabels(p) + CoalescedNames(p)
  {
    if p.LotsOfLittleEvents? {
      TupleEntriesLast(p.tuples);
    }
  }

  /** A label no event type fixes is in the type entries exactly when a coalesced-events record carries it. */
  lemma PayloadOtherLabel(p: Payload, timers: map<int, TimerData>, name: string)
    requires name !in TYPE_LABELS
    ensures name in PayloadEntries(p, timers) <==> name in CoalescedNames(p)
  {
    PayloadLabels(p, timers);
    if p.LotsOfLittleEvents? {
      TupleEntriesLast(p.tuples);
    }
  }

  /**
   * The labels of the details map: always a description and a start time; a
   * duration exactly when the duration is positive, a stack trace exactly
   * when there is a back trace and an overhead exactly when the overhead is
   * positive — unless a coalesced-events record carries an entry under the
   * same label.
   */
  lemma DetailsSpecLabels(e: UiEvent, timers: map<int, TimerData>)
    ensures "Description" in DetailsSpec(e, timers) && "@" in DetailsSpec(e, timers)
    ensures "Duration" in DetailsSpec(e, timers) <==> e.duration > 0.0 || "Duration" in CoalescedNames(e.payload)
    ensures STACK_TRACE_KEY in DetailsSpec(e, timers) <==> e.backTrace.Some? || STACK_TRACE_KEY in CoalescedNames(e.payload)
    ensures "Overhead" in DetailsSpec(e, timers) <==> e.overhead > 0.0 || "Overhead" in CoalescedNames(e.payload)
  {
    PayloadOtherLabel(e.payload, timers, "Duration");
    PayloadOtherLabel(e.payload, timers, STACK_TRACE_KEY);
    PayloadOtherLabel(e.payload, timers, "Overhead");
  }

  /** The overhead, when positive, is shown with two decimal places; the description is the event's help text unless a coalesced entry replaces it. */
  lemma DetailsSpecValues(e: UiEvent, timers: map<int, TimerData>)
    ensures e.overhead > 0.0 ==> DetailsSpec(e, timers)["Overhead"] == Millis(e.overhead, Some(2))
    ensures "Description" !in CoalescedNames(e.payload) ==> DetailsSpec(e, timers)["Description"] == Text(e.helpString)
  {
    PayloadOtherLabel(e.payload, timers, "Description");
  }

  /** Putting one entry after a merge is putting it into the map merged last. */
  lemma PlusUpdate<K, V>(a: map<K, V>, b: map<K, V>, k: K, v: V)
    ensures a + b[k := v] == (a + b)[k := v]
  {
  }

  /** Adds the entries only one event type has to `details`. */
  method PutPayloadEntries(p: Payload, timers: map<int, TimerData>, details: map<string, DetailValue>)
    returns (result: map<string, DetailValue>)
    ensures result == details + PayloadEntries(p, timers)
  {
    result := details;
    assert details + map[] == details;
    match p {
      case DomEvent =>
      case LotsOfLittleEvents(tuples) =>
        for i := 0 to |tuples|
          invariant result == details + TupleEntries(tuples[..i])
        {
          assert tuples[..i + 1][..i] == tuples[..i];
          PlusUpdate(details, TupleEntries(tuples[..i]), tuples[i].typeName, TupleValue(tuples[i]));
          assert tuples[..i + 1] == tuples[..i] + [tuples[i]];
          result := result[tuples[i].typeName := TupleValue(tuples[i])];
        }
        assert tuples[..|tuples|] == tuples;
      case TimerFired(id) =>
        var timerData := if id in timers then Some(timers[id]) else None;
        result := PopulateDetailsForTimerInstall(timerData, result);
      case TimerInstalled(t) =>
        result := PopulateDetailsForTimerInstall(Some(t), result);
      case TimerCleared(id) =>
        PlusUpdate(details, map[], "Cleared Timer Id", Number(id, ""));
        result := result["Cleared Timer Id" := Number(id, "")];
      case PaintEvent(x, y, w, h) =>
        PlusUpdate(details, map[], "Origin", Coordinates(x, y));
        PlusUpdate(details, map[]["Origin" := Coordinates(x, y)], "Size", Dimensions(w, h));
        result := result["Origin" := Coordinates(x, y)];
        result := result["Size" := Dimensions(w, h)];
      case ParseHtmlEvent =>
      case EvalScript(url, line) =>
        PlusUpdate(details, map[], "Url", Text(url));
        PlusUpdate(details, map[]["Url" := Text(url)], "Line Number", Number(line, ""));
        result := result["Url" := Text(url)];
        result := result["Line Number" := Number(line, "")];
      case XhrReadyStateChange(state, url) =>
        PlusUpdate(details, map[], "Ready State", Number(state, ""));
        PlusUpdate(details, map[]["Ready State" := Number(state, "")], "Url", Text(url));
        result := result["Ready State" := Number(state, "")];
        result := result["Url" := Text(url)];
      case XhrLoad(url) =>
        PlusUpdate(details, map[], "Url", Text(url));
        result := result["Url" := Text(url)];
      case LogEvent(message) =>
        PlusUpdate(details, map[], "Message", Text(message));
        result := result["Message" := Text(message)];
      case OtherEvent(_) =>
    }
  }

  /**
   * The details map of an event, with the labels `DetailsSpecLabels` describes.
   */
  method DetailsMapForEvent(e: UiEvent, timers: map<int, TimerData>) returns (details: map<string, DetailValue>)
    ensures details == DetailsSpec(e, timers)
    ensures "Description" in details && "@" in details
    ensures "Duration" in details <==> e.duration > 0.0 || "Duration" in CoalescedNames(e.payload)
    ensures STACK_TRACE_KEY in details <==> e.backTrace.Some? || STACK_TRACE_KEY in CoalescedNames(e.payload)
    ensures "Overhead" in details <==> e.overhead > 0.0 || "Overhead" in CoalescedNames(e.payload)
  {
    details := map["Description" := Text(e.helpString)];
    details := details["@" := Millis(e.time, None)];
    if e.duration > 0.0 {
      details := details["Duration" := Millis(e.duration, Some(3))];
    }
    if e.backTrace.Some? {
      details := details[STACK_TRACE_KEY := Text(e.backTrace.value)];
    }
    assert details == CommonEntries(e);
    details := PutPayloadEntries(e.payload, timers, details);
    assert details + map[] == details;
    if e.overhead > 0.0 {
      PlusUpdate(details, map[], "Overhead", Millis(e.overhead, Some(2)));
      details := details["Overhead" := Millis(e.overhead, Some(2))];
    }
    DetailsSpecLabels(e, timers);
  }

  /** Adds the entries of a timer installation to `details`, when its record is known. */
  method PopulateDetailsForTimerInstall(timerData: Option<TimerData>, details: map<string, DetailValue>)
    returns (result: map<string, DetailValue>)
    ensures result == details + TimerInstallEntries(timerData)
    ensures timerData.None? ==> result == details
    ensures timerData.Some? ==> result.Keys == details.Keys + {"Timer Id", "Timer Type", "Interval"}
    ensures timerData.Some? ==> result["Timer Type"] == Text(if timerData.value.singleShot then "setTimeout" else "setInterval")
  {
    result := details;
    assert details + map[] == details;
    if timerData.Some? {
      var t := timerData.value;
      var kind := Text(if t.singleShot then "setTimeout" else "setInterval");
      PlusUpdate(details, map[], "Timer Id", Number(t.timerId, ""));
      PlusUpdate(details, map[]["Timer Id" := Number(t.timerId, "")], "Timer Type", kind);
      PlusUpdate(details, map[]["Timer Id" := Number(t.timerId, "")]["Timer Type" := kind], "Interval", Number(t.interval, "ms"));
      result := result["Timer Id" := Number(t.timerId, "")];
      result := result["Timer Type" := kind];
      result := result["Interval" := Number(t.interval, "ms")];
    }
  }
}
