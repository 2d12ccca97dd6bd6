/** The run state machine of app/domain/run_state.py. */
module RunStates {
  import opened Options

  datatype RunState = OFFLINE | STARTING | ARMED | LIVE | STOPPING | ERROR

  datatype RunAction =
    | START_REQUESTED | WORKERS_SPAWNED | OBS_PUBLISH_BEGAN | OBS_PUBLISH_ENDED
    | STOP_REQUESTED | WORKERS_DRAINED | UNRECOVERABLE_FAILED | ERROR_CLEARED

  /** `None` is the source's IllegalRunStateTransitionError. */
  function Transition(s: RunState, a: RunAction): Option<RunState> {
    match (s, a)
    case (OFFLINE, START_REQUESTED) => Some(STARTING)
    case (STARTING, WORKERS_SPAWNED) => Some(ARMED)
    case (ARMED, OBS_PUBLISH_BEGAN) => Some(LIVE)
    case (LIVE, OBS_PUBLISH_ENDED) => Some(ARMED)
    case (STARTING, STOP_REQUESTED) => Some(STOPPING)
    case (ARMED, STOP_REQUESTED) => Some(STOPPING)
    case (LIVE, STOP_REQUESTED) => Some(STOPPING)
    case (STOPPING, WORKERS_DRAINED) => Some(OFFLINE)
    case (ERROR, ERROR_CLEARED) => Some(OFFLINE)
    case (STARTING, UNRECOVERABLE_FAILED) => Some(ERROR)
    case (ARMED, UNRECOVERABLE_FAILED) => Some(ERROR)
    case (LIVE, UNRECOVERABLE_FAILED) => Some(ERROR)
    case (STOPPING, UNRECOVERABLE_FAILED) => Some(ERROR)
    case _ => None
  }

  /** The moves the table allows. */
  const MOVES := {
    (OFFLINE, STARTING), (STARTING, ARMED), (ARMED, LIVE), (LIVE, ARMED),
    (STARTING, STOPPING), (ARMED, STOPPING), (LIVE, STOPPING), (STOPPING, OFFLINE), (ERROR, OFFLINE),
    (STARTING, ERROR), (ARMED, ERROR), (LIVE, ERROR), (STOPPING, ERROR)
  }

  lemma MovesAreListed(s: RunState, t: RunState)
    ensures (exists a :: Transition(s, a) == Some(t)) <==> (s, t) in MOVES
  {
    if (s, t) in MOVES {
      match t {
        case OFFLINE => assert Transition(s, if s == ERROR then ERROR_CLEARED else WORKERS_DRAINED) == Some(t);
        case STARTING => assert Transition(s, START_REQUESTED) == Some(t);
        case ARMED => assert Transition(s, if s == LIVE then OBS_PUBLISH_ENDED else WORKERS_SPAWNED) == Some(t);
        case LIVE => assert Transition(s, OBS_PUBLISH_BEGAN) == Some(t);
        case STOPPING => assert Transition(s, STOP_REQUESTED) == Some(t);
        case ERROR => assert Transition(s, UNRECOVERABLE_FAILED) == Some(t);
      }
    }
  }

  /** A published change of the run state. */
  datatype RunChange = RunChange(next: RunState, previous: RunState)

  /** Changes that lead from `from` to `to` by legal transitions. */
  ghost predicate LegalRun(from: RunState, changes: seq<RunChange>, to: RunState)
    decreases |changes|
  {
    if changes == [] then from == to
    else
      var last := changes[|changes| - 1];
      && last.next == to
      && (exists a :: Transition(last.previous, a) == Some(last.next))
      && LegalRun(from, changes[..|changes| - 1], last.previous)
  }

  lemma LegalRunAppend(from: RunState, changes: seq<RunChange>, to: RunState, a: RunAction)
    requires LegalRun(from, changes, to) && Transition(to, a).Some?
    ensures LegalRun(from, changes + [RunChange(Transition(to, a).value, to)], Transition(to, a).value)
  {
    assert (changes + [RunChange(Transition(to, a).value, to)])[..|changes|] == changes;
  }
}
