/** The task state machine (crates/workflow-core/src/task.rs). */
module TaskMachine {
  import opened Wrappers

  datatype State = Pending | Ready | Leased | Running | Verifying | Completed | Failed | Blocked | Cancelled

  datatype Command =
    | DependenciesSatisfied | Lease | Start | SubmitCandidate
    | VerificationPassed(gatesPassed: bool)
    | VerificationFailed(retryable: bool)
    | Block | Unblock | Cancel

  datatype Event = StateChanged(from: State, to: State) | AttemptStarted(attempt: nat)

  datatype TransitionError = InvalidTransition | MandatoryGateFailed

  const MAX_U32: nat := 0xFFFF_FFFF

  datatype Task = Task(state: State, attempts: nat)

  const NEW := Task(Pending, 0)

  type Outcome = Result<seq<Event>, TransitionError>

  predicate Terminal(s: State) {
    s in {Completed, Failed, Cancelled}
  }

  /** Where `c` leads from `s`, if it is accepted there. */
  function Next(s: State, c: Command): Result<State, TransitionError> {
    match c
    case DependenciesSatisfied => if s.Pending? then Success(Ready) else Failure(InvalidTransition)
    case Lease => if s.Ready? then Success(Leased) else Failure(InvalidTransition)
    case Start => if s.Leased? then Success(Running) else Failure(InvalidTransition)
    case SubmitCandidate => if s.Running? then Success(Verifying) else Failure(InvalidTransition)
    case VerificationPassed(gatesPassed) =>
      if !s.Verifying? then Failure(InvalidTransition)
      else if gatesPassed then Success(Completed) else Failure(MandatoryGateFailed)
    case VerificationFailed(retryable) =>
      if s.Verifying? then Success(if retryable then Ready else Failed) else Failure(InvalidTransition)
    case Block => if !Terminal(s) && !s.Blocked? then Success(Blocked) else Failure(InvalidTransition)
    case Unblock => if s.Blocked? then Success(Ready) else Failure(InvalidTransition)
    case Cancel => if !Terminal(s) then Success(Cancelled) else Failure(InvalidTransition)
  }

  function Applied(t: Task, c: Command): (Task, Outcome) {
    match Next(t.state, c)
    case Failure(e) => (t, Failure(e))
    case Success(to) =>
      if c.Start? then
        var attempts := if t.attempts < MAX_U32 then t.attempts + 1 else t.attempts;
        (Task(to, attempts), Success([AttemptStarted(attempts), StateChanged(t.state, to)]))
      else (t.(state := to), Success([StateChanged(t.state, to)]))
  }
}
