/**
 The workflow state machine (crates/workflow-core/src/workflow.rs): the object the
 store loads and saves, its transition function, and what holds over whole runs.
 */
module WorkflowMachine {
  import opened Wrappers

  type Candidate = nat

  datatype Mode = Quick | Full

  datatype RepairTarget = ToExecution | ToArchitecture

  datatype State =
    | Intake | Routing | QuickExecution | Architecture | Execution | Verification | IndependentReviews
    | Arbitration | Delivery | Repair | Paused | Blocked | Completed | Cancelled

  datatype Command =
    | CompleteIntake
    | Route(mode: Mode)
    | ArchitectureAccepted
    | CandidateReady(candidate: Candidate)
    | VerificationPassed
    | VerificationFailed
    | VerificationRejected(target: RepairTarget)
    | ReviewsReady
    | Approve(gatesPassed: bool)
    | Deliver
    | Reject(target: RepairTarget)
    | BeginRepair
    | Pause
    | Resume
    | Cancel
    | RetryInfrastructure
    | ResumeBlocked(additional: nat)
    | BlockInfrastructure
    | ResumeInfrastructure
    | ReplanExecution

  datatype Event =
    | StateChanged(from: State, to: State)
    | CandidateSelected(candidate: Candidate)
    | RepairCycleConsumed(cycle: nat, maximum: nat)
    | RepairBudgetExtended(previous: nat, current: nat)
    | InfrastructureRetryAccepted

  datatype TransitionError =
    | InvalidTransition | MandatoryGateFailed | MissingCandidate | MissingRepairTarget
    | InvalidAdditionalCycles | RepairBudgetOverflow

  const MAX_U8: nat := 255

  datatype Workflow = Workflow(
    state: State,
    mode: Option<Mode>,
    candidate: Option<Candidate>,
    target: Option<RepairTarget>,
    cycles: nat,
    maximum: nat,
    pausedFrom: Option<State>,
    blockedFrom: Option<State>)

  function New(maximum: nat): Workflow {
    Workflow(Intake, None, None, None, 0, maximum, None, None)
  }

  /** `Workflow::default`. */
  const DEFAULT := New(5)

  type Outcome = Result<seq<Event>, TransitionError>

  // ---- the transition function

  function To(w: Workflow, to: State): (Workflow, Outcome) {
    (w.(state := to), Success([StateChanged(w.state, to)]))
  }

  function Refuse(w: Workflow, e: TransitionError): (Workflow, Outcome) {
    (w, Failure(e))
  }

  function Rejected(w: Workflow, target: RepairTarget): (Workflow, Outcome) {
    if w.cycles + 1 > MAX_U8 then Refuse(w, RepairBudgetOverflow)
    else
      var to := if w.cycles + 1 >= w.maximum then Blocked else Repair;
      (w.(cycles := w.cycles + 1, target := Some(target), state := to),
       Success([RepairCycleConsumed(w.cycles + 1, w.maximum), StateChanged(w.state, to)]))
  }

  predicate CanPause(s: State) {
    s !in {Paused, Blocked, Verification, Delivery, Completed, Cancelled}
  }

  predicate CanBlock(s: State) {
    s !in {Paused, Blocked, Completed, Cancelled}
  }

  predicate Terminal(s: State) {
    s in {Completed, Cancelled}
  }

  function Applied(w: Workflow, c: Command): (Workflow, Outcome) {
    match c
    case CompleteIntake => if w.state.Intake? then To(w, Routing) else Refuse(w, InvalidTransition)
    case Route(mode) =>
      if w.state.Routing? then To(w.(mode := Some(mode)), if mode.Quick? then QuickExecution else Architecture)
      else Refuse(w, InvalidTransition)
    case ArchitectureAccepted => if w.state.Architecture? then To(w, Execution) else Refuse(w, InvalidTransition)
    case CandidateReady(id) =>
      if w.state.QuickExecution? || w.state.Execution? then
        (w.(candidate := Some(id), state := Verification),
         Success([CandidateSelected(id), StateChanged(w.state, Verification)]))
      else Refuse(w, InvalidTransition)
    case VerificationPassed =>
      if !w.state.Verification? then Refuse(w, InvalidTransition)
      else if w.candidate.None? then Refuse(w, MissingCandidate)
      else (match w.mode
            case Some(Quick) => To(w, Arbitration)
            case Some(Full) => To(w, IndependentReviews)
            case None => Refuse(w, InvalidTransition))
    case VerificationFailed =>
      if !w.state.Verification? then Refuse(w, InvalidTransition)
      else if w.candidate.None? then Refuse(w, MissingCandidate)
      else Rejected(w, ToExecution)
    case VerificationRejected(target) =>
      if !w.state.Verification? then Refuse(w, InvalidTransition)
      else if w.candidate.None? then Refuse(w, MissingCandidate)
      else Rejected(w, target)
    case ReviewsReady => if w.state.IndependentReviews? then To(w, Arbitration) else Refuse(w, InvalidTransition)
    case Approve(gatesPassed) =>
      if !w.state.Arbitration? then Refuse(w, InvalidTransition)
      else if w.candidate.None? then Refuse(w, MissingCandidate)
      else if !gatesPassed then Refuse(w, MandatoryGateFailed)
      else To(w, Delivery)
    case Deliver =>
      if !w.state.Delivery? then Refuse(w, InvalidTransition)
      else if w.candidate.None? then Refuse(w, MissingCandidate)
      else To(w, Completed)
    case Reject(target) =>
      if !w.state.Arbitration? then Refuse(w, InvalidTransition)
      else if w.candidate.None? then Refuse(w, MissingCandidate)
      else Rejected(w, target)
    case BeginRepair =>
      if !w.state.Repair? then Refuse(w, InvalidTransition)
      else if w.target.None? then Refuse(w, MissingRepairTarget)
      else To(w.(target := None, candidate := None), if w.target.value.ToExecution? then Execution else Architecture)
    case Pause => if CanPause(w.state) then To(w.(pausedFrom := Some(w.state)), Paused)
        else Refuse(w, InvalidTransition)
    case Resume =>
      if w.state.Paused? && w.pausedFrom.Some? then To(w.(pausedFrom := None), w.pausedFrom.value)
      else Refuse(w, InvalidTransition)
    case Cancel => if !Terminal(w.state) then To(w.(pausedFrom := None), Cancelled) else Refuse(w, InvalidTransition)
    case RetryInfrastructure =>
      if CanBlock(w.state) then (w, Success([InfrastructureRetryAccepted])) else Refuse(w, InvalidTransition)
    case ResumeBlocked(additional) =>
      if !(w.state.Blocked? && w.blockedFrom.None?) then Refuse(w, InvalidTransition)
      else if additional == 0 then Refuse(w, InvalidAdditionalCycles)
      else if w.maximum + additional > MAX_U8 then Refuse(w, RepairBudgetOverflow)
      else (w.(maximum := w.maximum + additional, state := Repair),
            Success([RepairBudgetExtended(w.maximum, w.maximum + additional), StateChanged(w.state, Repair)]))
    case BlockInfrastructure =>
      if CanBlock(w.state) then To(w.(blockedFrom := Some(w.state)), Blocked) else Refuse(w, InvalidTransition)
    case ResumeInfrastructure =>
      if w.state.Blocked? && w.blockedFrom.Some? then To(w.(blockedFrom := None), w.blockedFrom.value)
      else Refuse(w, InvalidTransition)
    case ReplanExecution => if w.state.Execution? then To(w, Architecture) else Refuse(w, InvalidTransition)
  }

  /** The mutable object, field by field. */
  class WorkflowObject {
    var state: State
    var mode: Option<Mode>
    var candidate: Option<Candidate>
    var target: Option<RepairTarget>
    var cycles: nat
    var maximum: nat
    var pausedFrom: Option<State>
    var blockedFrom: Option<State>

    function View(): Workflow
      reads this
    {
      Workflow(state, mode, candidate, target, cycles, maximum, pausedFrom, blockedFrom)
    }

    /** Deserialised from a stored row. */
    constructor (w: Workflow)
      ensures View() == w
    {
      state, mode, candidate, target := w.state, w.mode, w.candidate, w.target;
      cycles, maximum, pausedFrom, blockedFrom := w.cycles, w.maximum, w.pausedFrom, w.blockedFrom;
    }

    method Transition(to: State) returns (events: seq<Event>)
      modifies this`state
      ensures |events| == 1 && (View(), Success(events)) == To(old(View()), to)
    {
      events := [StateChanged(state, to)];
      state := to;
    }

    /** `reject`. */
    method RejectCandidate(to: RepairTarget) returns (r: Outcome)
      modifies this`state, this`cycles, this`target
      ensures (View(), r) == Rejected(old(View()), to)
    {
      if cycles + 1 > MAX_U8 { return Failure(RepairBudgetOverflow); }
      cycles := cycles + 1;
      target := Some(to);
      var consumed := RepairCycleConsumed(cycles, maximum);
      var changed := Transition(if cycles >= maximum then Blocked else Repair);
      assert [consumed] + changed == [consumed, changed[0]];
      r := Success([consumed] + changed);
    }

    /** The commands that suspend, resume, extend or cancel a workflow. */
    method Interrupt(c: Command) returns (r: Outcome)
      requires c in {Pause, Resume, Cancel, RetryInfrastructure, BlockInfrastructure, ResumeInfrastructure}
                || c.ResumeBlocked?
      modifies this
      ensures (View(), r) == Applied(old(View()), c)
    {
      match c {
        case Pause =>
          if CanPause(state) {
            pausedFrom := Some(state);
            var e := Transition(Paused);
            return Success(e);
          }
        case Resume =>
          if state.Paused? && pausedFrom.Some? {
            var previous := pausedFrom.value;
            pausedFrom := None;
            var e := Transition(previous);
            return Success(e);
          }
        case Cancel =>
          if !Terminal(state) {
            pausedFrom := None;
            var e := Transition(Cancelled);
            return Success(e);
          }
        case RetryInfrastructure =>
          if CanBlock(state) { return Success([InfrastructureRetryAccepted]); }
        case ResumeBlocked(additional) =>
          if state.Blocked? && blockedFrom.None? {
            if additional == 0 { return Failure(InvalidAdditionalCycles); }
            var previous := maximum;
            if previous + additional > MAX_U8 { return Failure(RepairBudgetOverflow); }
            maximum := previous + additional;
            var e := Transition(Repair);
            assert [RepairBudgetExtended(previous, maximum)] + e == [RepairBudgetExtended(previous, maximum), e[0]];
            return Success([RepairBudgetExtended(previous, maximum)] + e);
          }
        case BlockInfrastructure =>
          if CanBlock(state) {
            blockedFrom := Some(state);
            var e := Transition(Blocked);
            return Success(e);
          }
        case ResumeInfrastructure =>
          if state.Blocked? && blockedFrom.Some? {
            var previous := blockedFrom.value;
            blockedFrom := None;
            var e := Transition(previous);
            return Success(e);
          }
      }
      r := Failure(InvalidTransition);
    }

    method Apply(c: Command) returns (r: Outcome)
      modifies this
      ensures (View(), r) == Applied(old(View()), c)
    {
      match c {
        case CompleteIntake =>
          if state.Intake? { var e := Transition(Routing); return Success(e); }
        case Route(chosen) =>
          if state.Routing? {
            mode := Some(chosen);
            var e := Transition(if chosen.Quick? then QuickExecution else Architecture);
            return Success(e);
          }
        case ArchitectureAccepted =>
          if state.Architecture? { var e := Transition(Execution); return Success(e); }
        case CandidateReady(id) =>
          if state.QuickExecution? || state.Execution? {
            candidate := Some(id);
            var e := Transition(Verification);
            assert [CandidateSelected(id)] + e == [CandidateSelected(id), e[0]];
            return Success([CandidateSelected(id)] + e);
          }
        case VerificationPassed =>
          if state.Verification? {
            if candidate.None? { return Failure(MissingCandidate); }
            if mode.None? { return Failure(InvalidTransition); }
            var e := Transition(if mode.value.Quick? then Arbitration else IndependentReviews);
            return Success(e);
          }
        case VerificationFailed =>
          if state.Verification? {
            if candidate.None? { return Failure(MissingCandidate); }
            r := RejectCandidate(ToExecution);
            return;
          }
        case VerificationRejected(to) =>
          if state.Verification? {
            if candidate.None? { return Failure(MissingCandidate); }
            r := RejectCandidate(to);
            return;
          }
        case ReviewsReady =>
          if state.IndependentReviews? { var e := Transition(Arbitration); return Success(e); }
        case Approve(gatesPassed) =>
          if state.Arbitration? {
            if candidate.None? { return Failure(MissingCandidate); }
            if !gatesPassed { return Failure(MandatoryGateFailed); }
            var e := Transition(Delivery);
            return Success(e);
          }
        case Deliver =>
          if state.Delivery? {
            if candidate.None? { return Failure(MissingCandidate); }
            var e := Transition(Completed);
            return Success(e);
          }
        case Reject(to) =>
          if state.Arbitration? {
            if candidate.None? { return Failure(MissingCandidate); }
            r := RejectCandidate(to);
            return;
          }
        case BeginRepair =>
          if state.Repair? {
            if target.None? { return Failure(MissingRepairTarget); }
            var next := if target.value.ToExecution? then Execution else Architecture;
            target := None;
            candidate := None;
            var e := Transition(next);
            return Success(e);
          }
        case ReplanExecution =>
          if state.Execution? { var e := Transition(Architecture); return Success(e); }
        case _ =>
          r := Interrupt(c);
          return;
      }
      r := Failure(InvalidTransition);
    }
  }

  // ---- runs

  predicate Accepts(w: Workflow, c: Command) {
    Applied(w, c).1.Success?
  }

  function Step(w: Workflow, c: Command): Workflow {
    Applied(w, c).0
  }

  function Run(w: Workflow, cs: seq<Command>): Workflow
    decreases |cs|
  {
    if cs == [] then w else Run(Step(w, cs[0]), cs[1..])
  }

  /** The accepted commands of a run. */
  function Accepted(w: Workflow, cs: seq<Command>): seq<Command>
    decreases |cs|
  {
    if cs == [] then []
    else (if Accepts(w, cs[0]) then [cs[0]] else []) + Accepted(Step(w, cs[0]), cs[1..])
  }

  // ---- suspension is invisible

  predicate Suspension(c: Command) {
    c in {Pause, Resume, BlockInfrastructure, ResumeInfrastructure, RetryInfrastructure}
  }

  /** The workflow as if it had never been paused or blocked by infrastructure. */
  function Base(w: Workflow): Workflow {
    if w.state.Paused? && w.pausedFrom.Some? then w.(state := w.pausedFrom.value, pausedFrom := None)
    else if w.state.Blocked? && w.blockedFrom.Some? then w.(state := w.blockedFrom.value, blockedFrom := None)
    else w.(pausedFrom := None, blockedFrom := None)
  }

  /** The accepted commands that are not about suspension. */
  function Core(w: Workflow, cs: seq<Command>): seq<Command>
    decreases |cs|
  {
    if cs == [] then []
    else (if Accepts(w, cs[0]) && !Suspension(cs[0]) then [cs[0]] else []) + Core(Step(w, cs[0]), cs[1..])
  }

  /** What every workflow reached from `New` satisfies. */
  ghost predicate Invariant(w: Workflow) {
    var b := Base(w);
    && 1 <= w.maximum <= MAX_U8
    && (w.state.Paused? <==> w.pausedFrom.Some?)
    && (w.pausedFrom.Some? ==> CanPause(w.pausedFrom.value) && w.blockedFrom.None?)
    && (w.blockedFrom.Some? ==> (w.state.Blocked? || w.state.Cancelled?) && CanBlock(w.blockedFrom.value))
    && (if b.state.Blocked? || b.state.Cancelled? then b.cycles <= b.maximum else b.cycles < b.maximum)
    && (b.state in {Repair, Blocked} ==> b.target.Some?)
    && (b.state in {Verification, IndependentReviews, Arbitration, Delivery, Completed} ==> b.candidate.Some?)
    && (b.state !in {Intake, Routing, Cancelled} ==> b.mode.Some?)
    && (b.state.IndependentReviews? ==> b.mode == Some(Full))
  }

  lemma InvariantInitially(maximum: nat)
    requires 1 <= maximum <= MAX_U8
    ensures Invariant(New(maximum))
  {
  }

  lemma SuspensionKept(w: Workflow, c: Command)
    requires Invariant(w) && Suspension(c)
    ensures Invariant(Step(w, c))
  {
  }

  lemma CoreKept(w: Workflow, c: Command)
    requires Invariant(w) && !Suspension(c)
    ensures Invariant(Step(w, c))
  {
  }

  lemma InvariantKept(w: Workflow, c: Command)
    requires Invariant(w)
    ensures Invariant(Step(w, c))
  {
    hide Invariant, Applied;
    if Suspension(c) { SuspensionKept(w, c); } else { CoreKept(w, c); }
  }

  lemma {:induction false} InvariantOverRuns(w: Workflow, cs: seq<Command>)
    requires Invariant(w)
    ensures Invariant(Run(w, cs))
    decreases |cs|
  {
    if cs != [] {
      InvariantKept(w, cs[0]);
      InvariantOverRuns(Step(w, cs[0]), cs[1..]);
    }
  }

  /** In a reachable workflow no command ever meets a missing candidate, a missing
      repair target or an overflowing cycle count; only the budget extension can
      run out of range. */
  lemma NoInternalError(w: Workflow, c: Command)
    requires Invariant(w)
    ensures Applied(w, c).1 != Failure(MissingCandidate) && Applied(w, c).1 != Failure(MissingRepairTarget)
    ensures Applied(w, c).1 == Failure(RepairBudgetOverflow) ==> c.ResumeBlocked? && w.maximum + c.additional > MAX_U8
    ensures !w.state.Blocked? && !w.state.Cancelled? ==> w.cycles < w.maximum
  {
  }

  /** So in every run of a new workflow: no internal error, and repair cycles strictly
      below the limit unless the workflow is blocked or cancelled. */
  lemma EveryRunOfNew(maximum: nat, cs: seq<Command>, c: Command)
    requires 1 <= maximum <= MAX_U8
    ensures var w := Run(New(maximum), cs);
            && Invariant(w)
            && Applied(w, c).1 != Failure(MissingCandidate) && Applied(w, c).1 != Failure(MissingRepairTarget)
            && (!w.state.Blocked? && !w.state.Cancelled? ==> w.cycles < w.maximum)
  {
    hide Run, Invariant, Applied;
    InvariantInitially(maximum);
    InvariantOverRuns(New(maximum), cs);
    NoInternalError(Run(New(maximum), cs), c);
  }

  lemma SuspensionStep(w: Workflow, c: Command)
    requires Invariant(w) && Suspension(c)
    ensures Base(Step(w, c)) == Base(w)
  {
  }

  lemma CoreStep(w: Workflow, c: Command)
    requires Invariant(w) && !Suspension(c)
    ensures Base(Step(w, c)) == if Accepts(w, c) then Step(Base(w), c) else Base(w)
    ensures Accepts(w, c) ==> Accepts(Base(w), c)
  {
  }

  /** One command on the workflow and on its base. */
  lemma BaseStep(w: Workflow, c: Command)
    requires Invariant(w)
    ensures Base(Step(w, c)) == if Accepts(w, c) && !Suspension(c) then Step(Base(w), c) else Base(w)
    ensures Accepts(w, c) && !Suspension(c) ==> Accepts(Base(w), c)
  {
    hide Invariant;
    if Suspension(c) { SuspensionStep(w, c); } else { CoreStep(w, c); }
  }

  /** Deleting every suspension command, and every command refused while they were
      in force, keeps the result of a run and refuses nothing. */
  lemma {:induction false} SuspensionsAreInvisible(w: Workflow, cs: seq<Command>)
    requires Invariant(w)
    ensures Base(Run(w, cs)) == Run(Base(w), Core(w, cs))
    ensures Accepted(Base(w), Core(w, cs)) == Core(w, cs)
    decreases |cs|
  {
    if cs != [] {
      BaseStep(w, cs[0]);
      InvariantKept(w, cs[0]);
      SuspensionsAreInvisible(Step(w, cs[0]), cs[1..]);
      var core, rest := Core(w, cs), Core(Step(w, cs[0]), cs[1..]);
      if Accepts(w, cs[0]) && !Suspension(cs[0]) {
        assert core[0] == cs[0] && core[1..] == rest;
      } else {
        assert core == rest;
      }
    }
  }

  // ---- the gates

  /** How often a command sequence contains `CandidateReady`. */
  function Candidates(cs: seq<Command>): nat {
    if cs == [] then 0 else (if cs[|cs| - 1].CandidateReady? then 1 else 0) + Candidates(cs[..|cs| - 1])
  }

  /** The commands from the last `CandidateReady` on. */
  function SinceCandidate(cs: seq<Command>): seq<Command> {
    if cs == [] then []
    else if cs[|cs| - 1].CandidateReady? then [cs[|cs| - 1]]
    else SinceCandidate(cs[..|cs| - 1]) + [cs[|cs| - 1]]
  }

  predicate UnderReview(s: State) {
    s in {Verification, IndependentReviews, Arbitration, Delivery, Completed}
  }

  /** The gates passed since the candidate was chosen, given where the workflow stands. */
  function Gates(w: Workflow): seq<Command>
    requires UnderReview(w.state) && w.candidate.Some?
  {
    var verified := [CandidateReady(w.candidate.value), VerificationPassed];
    var reviewed := if w.mode == Some(Full) then verified + [ReviewsReady] else verified;
    match w.state
    case Verification => [CandidateReady(w.candidate.value)]
    case IndependentReviews => verified
    case Arbitration => reviewed
    case Delivery => reviewed + [Approve(true)]
    case _ => reviewed + [Approve(true), Deliver]
  }

  /** What a workflow reached by the accepted commands `cs` (no suspensions) owes to them. */
  ghost predicate Earned(w: Workflow, cs: seq<Command>) {
    && Invariant(w) && Base(w) == w
    && (UnderReview(w.state) ==> SinceCandidate(cs) == Gates(w))
    && (if w.state.Cancelled? then Candidates(cs) <= w.maximum
        else Candidates(cs) == w.cycles + if UnderReview(w.state) then 1 else 0)
  }

  lemma OneMoreCommand(cs: seq<Command>, c: Command)
    ensures Candidates(cs + [c]) == Candidates(cs) + if c.CandidateReady? then 1 else 0
    ensures SinceCandidate(cs + [c]) == if c.CandidateReady? then [c] else SinceCandidate(cs) + [c]
  {
    assert (cs + [c])[..|cs|] == cs;
  }

  lemma EarnedKept(w: Workflow, cs: seq<Command>, c: Command)
    requires Earned(w, cs) && Accepts(w, c) && !Suspension(c)
    ensures Earned(Step(w, c), cs + [c])
  {
    hide Candidates, SinceCandidate;
    OneMoreCommand(cs, c);
    InvariantKept(w, c);
    BaseStep(w, c);
  }

  lemma AllAccepted(w: Workflow, cs: seq<Command>)
    requires cs != [] && Accepted(w, cs) == cs
    ensures Accepts(w, cs[0]) && Accepted(Step(w, cs[0]), cs[1..]) == cs[1..]
  {
    hide Accepts, Step;
    AcceptedIsShort(Step(w, cs[0]), cs[1..]);
  }

  lemma {:induction false} EarnedOverRuns(w: Workflow, done: seq<Command>, cs: seq<Command>)
    requires Earned(w, done) && Accepted(w, cs) == cs && forall i :: 0 <= i < |cs| ==> !Suspension(cs[i])
    ensures Earned(Run(w, cs), done + cs)
    decreases |cs|
  {
    hide Accepts, Accepted, Step, Suspension, Earned;
    if cs == [] {
      assert done + cs == done;
    } else {
      AllAccepted(w, cs);
      EarnedKept(w, done, cs[0]);
      EarnedOverRuns(Step(w, cs[0]), done + [cs[0]], cs[1..]);
      assert done + [cs[0]] + cs[1..] == done + cs;
    }
  }

  lemma {:induction false} AcceptedIsShort(w: Workflow, cs: seq<Command>)
    ensures |Accepted(w, cs)| <= |cs|
    decreases |cs|
  {
    if cs != [] { AcceptedIsShort(Step(w, cs[0]), cs[1..]); }
  }

  lemma {:induction false} CoreHasNoSuspension(w: Workflow, cs: seq<Command>)
    ensures forall i :: 0 <= i < |Core(w, cs)| ==> !Suspension(Core(w, cs)[i])
    decreases |cs|
  {
    if cs != [] { CoreHasNoSuspension(Step(w, cs[0]), cs[1..]); }
  }

  /** Over every run from a new workflow: candidates are accepted at most `maximum`
      times, and a completed workflow has passed, since its last candidate and in
      this order, verification, in full mode the reviews, an approval with all
      mandatory gates, and the delivery. */
  lemma GatesBeforeCompletion(maximum: nat, cs: seq<Command>)
    requires 1 <= maximum <= MAX_U8
    ensures var w, core := Run(New(maximum), cs), Core(New(maximum), cs);
            && Candidates(core) <= w.maximum
            && (w.state.Completed? ==>
                  w.candidate.Some? && w.mode.Some?
                  && SinceCandidate(core) == [CandidateReady(w.candidate.value), VerificationPassed]
                                             + (if w.mode == Some(Full) then [ReviewsReady] else [])
                                             + [Approve(true), Deliver])
  {
    var w0, core := New(maximum), Core(New(maximum), cs);
    SuspensionsAreInvisible(w0, cs);
    CoreHasNoSuspension(w0, cs);
    InvariantOverRuns(w0, cs);
    EarnedOverRuns(w0, [], core);
    assert [] + core == core;
    hide Run, Core, Candidates, SinceCandidate, Accepted, Applied;
    GatesEarned(Run(w0, cs), core);
  }

  lemma GatesEarned(w: Workflow, core: seq<Command>)
    requires Invariant(w) && Earned(Base(w), core)
    ensures Candidates(core) <= w.maximum
    ensures w.state.Completed? ==>
              w.candidate.Some? && w.mode.Some?
              && SinceCandidate(core) == [CandidateReady(w.candidate.value), VerificationPassed]
                                         + (if w.mode == Some(Full) then [ReviewsReady] else [])
                                         + [Approve(true), Deliver]
  {
    hide Candidates, SinceCandidate;
  }
}
