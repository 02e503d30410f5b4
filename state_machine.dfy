/**
 * The session state machine of `src/core/stateMachine.ts`.
 *
 * One mutable field holds the current state. A transition to the state the
 * machine is already in is silent; any other transition reports one
 * `state-transition` entry with the old and the new state and then moves.
 * The class accepts every target from every state: it enforces no order.
 */
module StateMachine {
  import opened Metrics

  datatype SessionState = CONNECTED | LISTENING | TRANSCRIBING | THINKING | SPEAKING

  /** The string value of each enum member, as it appears in the log. */
  function Name(s: SessionState): string
  {
    match s
    case CONNECTED => "CONNECTED"
    case LISTENING => "LISTENING"
    case TRANSCRIBING => "TRANSCRIBING"
    case THINKING => "THINKING"
    case SPEAKING => "SPEAKING"
  }

  /** The entry `transition` logs when it moves from `from` to `to`. */
  function TransitionEntry(from: SessionState, to: SessionState): Entry
  {
    Entry(Info, "state-transition", StateChange(Name(from), Name(to)))
  }

  /** What `transition(to)` logs when the machine is in `from`: nothing, or one entry. */
  function TransitionLog(from: SessionState, to: SessionState): (log: seq<Entry>)
    ensures from == to <==> log == []
    ensures |log| <= 1
  {
    if from == to then [] else [TransitionEntry(from, to)]
  }

  class SessionStateMachine {
    var currentState: SessionState
    /** The optional logger the machine reports transitions to. */
    const logger: MetricsLogger?

    /** A fresh machine is in `CONNECTED` and has logged nothing. */
    constructor (logger: MetricsLogger?)
      ensures currentState == CONNECTED && this.logger == logger
    {
      currentState := CONNECTED;
      this.logger := logger;
    }

    /**
     * `transition(next)`: always ends in `next`; logs exactly one entry
     * `{from: old state, to: next}` when the state changes and nothing when
     * it does not.
     */
    method Transition(next: SessionState)
      modifies this, logger
      ensures currentState == next
      ensures old(currentState) == next ==> unchanged(this)
      ensures logger != null ==> logger.events == old(logger.events) + TransitionLog(old(currentState), next)
    {
      if currentState == next {
        return;
      }
      if logger != null {
        logger.Log(Info, "state-transition", StateChange(Name(currentState), Name(next)));
      }
      currentState := next;
    }

    /** The `state` getter: the current state, read without changing anything. */
    function State(): (s: SessionState)
      reads this
      ensures s == currentState
    {
      currentState
    }
  }
}
