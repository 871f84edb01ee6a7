/**
 * The event records that the sluggishness detail view displays.
 *
 * A UiEvent is one top-level browser-activity record of the event log. The
 * view never changes an event; it reads its fields, so an event is a value
 * here. The identity of the object the view holds on to is its sequence
 * number, which the log assigns once and never reuses.
 */
module Events {

  datatype Option<+T> = None | Some(value: T)

  /** A diagnostic record attached to an event by the hint rules. */
  datatype HintRecord = HintRecord(severity: int, description: string)

  /** What a timer installation records: its id, setTimeout or setInterval, and its interval. */
  datatype TimerData = TimerData(timerId: int, singleShot: bool, interval: int)

  /**
   * One entry of a "lots of little events" record: how many events of one
   * type were coalesced and how long they took together. The type's display
   * name is resolved by the event-type registry, which is not part of this
   * model, so the entry carries the name.
   */
  datatype TypeCountDuration = TypeCountDuration(typeName: string, count: int, duration: real)

  /** The type of an event together with the fields only that type has. */
  datatype Payload =
    | DomEvent
    | LotsOfLittleEvents(tuples: seq<TypeCountDuration>)
    | TimerFired(firedTimerId: int)
    | TimerInstalled(timer: TimerData)
    | TimerCleared(clearedTimerId: int)
    | PaintEvent(x: int, y: int, width: int, height: int)
    | ParseHtmlEvent
    | EvalScript(scriptUrl: string, lineNumber: int)
    | XhrReadyStateChange(readyState: int, xhrUrl: string)
    | XhrLoad(loadUrl: string)
    | LogEvent(message: string)
    | OtherEvent(typeCode: int)

  /**
   * A top-level event: its sequence number, start time, inclusive duration
   * and instrumentation overhead (milliseconds), its help text, an optional
   * JavaScript back trace, its hint records (absent when no rule fired), and
   * whether a log message was found in its subtree.
   */
  datatype UiEvent = UiEvent(
    sequence: int,
    time: real,
    duration: real,
    overhead: real,
    helpString: string,
    backTrace: Option<string>,
    hintRecords: Option<seq<HintRecord>>,
    hasUserLogs: bool,
    payload: Payload)

  /** No two events of the list share a sequence number, as the log guarantees. */
  predicate UniqueSequences(events: seq<UiEvent>) {
    forall i, j | 0 <= i < j < |events| :: events[i].sequence != events[j].sequence
  }

  /** The sequence numbers of a list of events. */
  function Sequences(events: seq<UiEvent>): set<int> {
    set i | 0 <= i < |events| :: events[i].sequence
  }
}
