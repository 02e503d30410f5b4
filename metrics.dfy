/**
 * The metrics logger of `src/metrics/logger.ts`, as a ghost event log.
 *
 * The logger writes one console line per call; the model keeps the sequence
 * of entries instead, so that the state machine and the session can state
 * what they report and in which order.
 */
module Metrics {

  datatype Level = Info | Warn | Error | Event

  /** The structured payload of an entry, restricted to the shapes the core logs. */
  datatype Detail =
    | NoDetail
    | StateChange(from: string, to: string)
    | Text(key: string, value: string)
    | Count(key: string, n: nat)

  datatype Entry = Entry(level: Level, name: string, detail: Detail)

  class MetricsLogger {
    const sessionId: string
    ghost var events: seq<Entry>

    constructor (sessionId: string)
      ensures this.sessionId == sessionId && events == []
    {
      this.sessionId := sessionId;
      events := [];
    }

    /** `info`, `warn`, `error` and `event`: append one entry. */
    method Log(level: Level, name: string, detail: Detail)
      modifies this
      ensures events == old(events) + [Entry(level, name, detail)]
    {
      events := events + [Entry(level, name, detail)];
    }
  }
}
