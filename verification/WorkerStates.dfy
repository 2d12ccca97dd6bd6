/** The worker state machine of app/domain/worker_state.py: a pure transition
    table in which the breaker's verdict routes a reconnect. */
module WorkerStates {
  import opened Options
  import CircuitBreaker

  datatype WorkerState = IDLE | STARTING | RUNNING | RECONNECTING | FAILED_OPEN | STOPPING

  datatype WorkerAction =
    | START | PROCESS_HEALTHY | PROCESS_EXITED | RECONNECT
    | STOP_REQUESTED | STOPPED | USER_RESET

  /** `None` is the source's IllegalWorkerStateTransitionError. */
  function Transition(s: WorkerState, a: WorkerAction, verdict: Option<CircuitBreaker.Verdict>): Option<WorkerState> {
    match (s, a)
    case (RECONNECTING, RECONNECT) =>
      if verdict.None? then None
      else if verdict.value.OPEN? then Some(FAILED_OPEN) else Some(RECONNECTING)
    case (IDLE, START) => Some(STARTING)
    case (STARTING, PROCESS_HEALTHY) => Some(RUNNING)
    case (STARTING, PROCESS_EXITED) => Some(RECONNECTING)
    case (STARTING, STOP_REQUESTED) => Some(STOPPING)
    case (RUNNING, PROCESS_EXITED) => Some(RECONNECTING)
    case (RUNNING, STOP_REQUESTED) => Some(STOPPING)
    case (RECONNECTING, PROCESS_HEALTHY) => Some(RUNNING)
    case (RECONNECTING, STOP_REQUESTED) => Some(STOPPING)
    case (STOPPING, STOPPED) => Some(IDLE)
    case (FAILED_OPEN, USER_RESET) => Some(STARTING)
    case (FAILED_OPEN, STOP_REQUESTED) => Some(STOPPING)
    case _ => None
  }

  /** Some action, with some verdict, leads from `s` to a different state `t`. */
  ghost predicate LegalMove(s: WorkerState, t: WorkerState) {
    s != t && exists a, v :: Transition(s, a, v) == Some(t)
  }
}
