/**
 What a workflow's accepted commands say about it (crates/workflow-core/src/workflow.rs:179-375):
 every field is read off the history, and a workflow can still complete unless it was
 cancelled or its budget cannot be extended.
 */
module WorkflowHistory {
  import opened Wrappers
  import opened WorkflowMachine

  // ---- the history read from its last command back

  /** Where a rejection sends the workflow for its repair. */
  function TargetOf(c: Command): Option<RepairTarget> {
    match c
    case VerificationFailed => Some(ToExecution)
    case VerificationRejected(target) => Some(target)
    case Reject(target) => Some(target)
    case _ => None
  }

  function Rejections(cs: seq<Command>): nat {
    if cs == [] then 0 else (if TargetOf(cs[|cs| - 1]).Some? then 1 else 0) + Rejections(cs[..|cs| - 1])
  }

  /** The budget at first and all its extensions. */
  function Budget(maximum: nat, cs: seq<Command>): nat {
    if cs == [] then maximum
    else (if cs[|cs| - 1].ResumeBlocked? then cs[|cs| - 1].additional else 0) + Budget(maximum, cs[..|cs| - 1])
  }

  function LastRoute(cs: seq<Command>): Option<Mode> {
    if cs == [] then None
    else if cs[|cs| - 1].Route? then Some(cs[|cs| - 1].mode)
    else LastRoute(cs[..|cs| - 1])
  }

  /** The candidate presented last, unless a repair has begun since. */
  function LastCandidate(cs: seq<Command>): Option<Candidate> {
    if cs == [] then None
    else
      match cs[|cs| - 1]
      case CandidateReady(id) => Some(id)
      case BeginRepair => None
      case _ => LastCandidate(cs[..|cs| - 1])
  }

  /** The target of the last rejection, unless its repair has begun. */
  function OpenTarget(cs: seq<Command>): Option<RepairTarget> {
    if cs == [] then None
    else if TargetOf(cs[|cs| - 1]).Some? then TargetOf(cs[|cs| - 1])
    else if cs[|cs| - 1].BeginRepair? then None
    else OpenTarget(cs[..|cs| - 1])
  }

  /** The state in which a history of accepted commands, suspensions left out, leaves a workflow. */
  function Standing(maximum: nat, cs: seq<Command>): State {
    if cs == [] then Intake
    else
      match cs[|cs| - 1]
      case CompleteIntake => Routing
      case Route(mode) => if mode.Quick? then QuickExecution else Architecture
      case ArchitectureAccepted => Execution
      case ReplanExecution => Architecture
      case CandidateReady(_) => Verification
      case VerificationPassed => if LastRoute(cs) == Some(Full) then IndependentReviews else Arbitration
      case ReviewsReady => Arbitration
      case Approve(_) => Delivery
      case Deliver => Completed
      case BeginRepair => if OpenTarget(cs[..|cs| - 1]) == Some(ToExecution) then Execution else Architecture
      case ResumeBlocked(_) => Repair
      case Cancel => Cancelled
      case _ => if Rejections(cs) >= Budget(maximum, cs) then Blocked else Repair
  }

  /** `w` is what the history makes of a new workflow. */
  ghost predicate Told(w: Workflow, maximum: nat, cs: seq<Command>) {
    && w.state == Standing(maximum, cs) && w.mode == LastRoute(cs) && w.candidate == LastCandidate(cs)
    && w.target == OpenTarget(cs) && w.cycles == Rejections(cs) && w.maximum == Budget(maximum, cs)
  }

  lemma OneMoreTold(maximum: nat, cs: seq<Command>, c: Command)
    ensures var all := cs + [c];
            && all[..|all| - 1] == cs && all[|all| - 1] == c
            && Rejections(all) == (if TargetOf(c).Some? then 1 else 0) + Rejections(cs)
            && Budget(maximum, all) == (if c.ResumeBlocked? then c.additional else 0) + Budget(maximum, cs)
            && LastRoute(all) == (if c.Route? then Some(c.mode) else LastRoute(cs))
            && LastCandidate(all)
                == (match c case CandidateReady(id) => Some(id) case BeginRepair => None case _ => LastCandidate(cs))
            && OpenTarget(all)
                == (if TargetOf(c).Some? then TargetOf(c) else if c.BeginRepair? then None else OpenTarget(cs))
  {
  }

  lemma ToldKept(w: Workflow, maximum: nat, cs: seq<Command>, c: Command)
    requires Invariant(w) && Base(w) == w && Told(w, maximum, cs) && Accepts(w, c) && !Suspension(c)
    ensures Told(Step(w, c), maximum, cs + [c])
  {
    OneMoreTold(maximum, cs, c);
    hide Rejections, Budget, LastRoute, LastCandidate, OpenTarget;
  }

  lemma {:induction false} ToldOverRuns(w: Workflow, maximum: nat, done: seq<Command>, cs: seq<Command>)
    requires Invariant(w) && Base(w) == w && Told(w, maximum, done)
    requires Accepted(w, cs) == cs && forall i :: 0 <= i < |cs| ==> !Suspension(cs[i])
    ensures Told(Run(w, cs), maximum, done + cs)
    decreases |cs|
  {
    hide Accepts, Accepted, Step, Suspension, Told, Invariant, Base;
    if cs == [] {
      assert done + cs == done;
    } else {
      AllAccepted(w, cs);
      ToldKept(w, maximum, done, cs[0]);
      InvariantKept(w, cs[0]);
      BaseStep(w, cs[0]);
      ToldOverRuns(Step(w, cs[0]), maximum, done + [cs[0]], cs[1..]);
      assert done + [cs[0]] + cs[1..] == done + cs;
    }
  }

  /** In every run of a new workflow each field of its base is what the accepted commands say. */
  lemma HistoryDecides(maximum: nat, cs: seq<Command>)
    requires 1 <= maximum <= MAX_U8
    ensures Told(Base(Run(New(maximum), cs)), maximum, Core(New(maximum), cs))
  {
    var w0, core := New(maximum), Core(New(maximum), cs);
    InvariantInitially(maximum);
    SuspensionsAreInvisible(w0, cs);
    CoreHasNoSuspension(w0, cs);
    assert Told(w0, maximum, []);
    ToldOverRuns(w0, maximum, [], core);
    assert [] + core == core;
  }

  // ---- repairs

  /** No repair begins during this run. */
  ghost predicate NoRepair(w: Workflow, cs: seq<Command>)
    decreases |cs|
  {
    cs != [] ==> !(cs[0].BeginRepair? && Accepts(w, cs[0])) && NoRepair(Step(w, cs[0]), cs[1..])
  }

  /** A rejection towards `target` is still to be repaired. */
  ghost predicate Owes(w: Workflow, target: RepairTarget) {
    w.target == Some(target) && (Base(w).state in {Repair, Blocked} || w.state.Cancelled?)
  }

  lemma OwesStep(w: Workflow, target: RepairTarget, c: Command)
    requires Invariant(w) && Owes(w, target) && !(c.BeginRepair? && Accepts(w, c))
    ensures Owes(Step(w, c), target)
  {
  }

  lemma {:induction false} OwesOverRuns(w: Workflow, target: RepairTarget, cs: seq<Command>)
    requires Invariant(w) && Owes(w, target) && NoRepair(w, cs)
    ensures Owes(Run(w, cs), target) && Invariant(Run(w, cs))
    decreases |cs|
  {
    hide Invariant, Owes, Accepts, Step;
    if cs != [] {
      OwesStep(w, target, cs[0]);
      InvariantKept(w, cs[0]);
      OwesOverRuns(Step(w, cs[0]), target, cs[1..]);
    }
  }

  /** After a rejection, whatever comes in between, the next repair begins where the
      rejection sent it, without a candidate. */
  lemma RepairGoesWhereSent(w: Workflow, c: Command, between: seq<Command>)
    requires Invariant(w) && Accepts(w, c) && TargetOf(c).Some? && NoRepair(Step(w, c), between)
    requires Accepts(Run(Step(w, c), between), BeginRepair)
    ensures var after := Step(Run(Step(w, c), between), BeginRepair);
            && after.state == (if TargetOf(c) == Some(ToExecution) then Execution else Architecture)
            && after.candidate == None && after.target == None
  {
    RejectedOwes(w, c);
    InvariantKept(w, c);
    OwesOverRuns(Step(w, c), TargetOf(c).value, between);
    RepairIsOwed(Run(Step(w, c), between), TargetOf(c).value);
    hide *;
  }

  lemma RejectedOwes(w: Workflow, c: Command)
    requires Invariant(w) && Accepts(w, c) && TargetOf(c).Some?
    ensures Owes(Step(w, c), TargetOf(c).value)
  {
  }

  lemma RepairIsOwed(w: Workflow, target: RepairTarget)
    requires Owes(w, target) && Accepts(w, BeginRepair)
    ensures var after := Step(w, BeginRepair);
            && after.state == (if target.ToExecution? then Execution else Architecture)
            && after.candidate == None && after.target == None
  {
  }

  /** Execution is entered only from an accepted architecture or by a repair sent there,
      architecture only by the full route, a replan or a repair sent there. */
  lemma WorkIsEntered(w: Workflow, c: Command)
    requires Invariant(w)
    ensures Base(Step(w, c)).state.Execution? && !Base(w).state.Execution? ==>
              || (c.ArchitectureAccepted? && w.state.Architecture?)
              || (c.BeginRepair? && w.state.Repair? && w.target == Some(ToExecution))
    ensures Base(Step(w, c)).state.Architecture? && !Base(w).state.Architecture? ==>
              || (c == Route(Full) && w.state.Routing?) || (c.ReplanExecution? && w.state.Execution?)
              || (c.BeginRepair? && w.state.Repair? && w.target == Some(ToArchitecture))
    ensures Base(Step(w, c)).state.QuickExecution? && !Base(w).state.QuickExecution? ==>
              c == Route(Quick) && w.state.Routing?
  {
  }

  // ---- completion stays possible

  /** Its budget is used up and cannot be extended. */
  predicate Stuck(w: Workflow) {
    w.state.Blocked? && w.blockedFrom.None? && w.maximum == MAX_U8
  }

  /** A command that brings the workflow nearer to completion. */
  function Forward(w: Workflow): Command {
    match w.state
    case Intake => CompleteIntake
    case Routing => Route(Full)
    case Architecture => ArchitectureAccepted
    case QuickExecution => CandidateReady(0)
    case Execution => CandidateReady(0)
    case Verification => VerificationPassed
    case IndependentReviews => ReviewsReady
    case Arbitration => Approve(true)
    case Delivery => Deliver
    case Repair => BeginRepair
    case Paused => Resume
    case Blocked => if w.blockedFrom.Some? then ResumeInfrastructure else ResumeBlocked(1)
    case _ => CompleteIntake
  }

  function Distance(s: State): nat {
    match s
    case Completed => 0
    case Delivery => 1
    case Arbitration => 2
    case IndependentReviews => 3
    case Verification => 4
    case QuickExecution => 5
    case Execution => 5
    case Architecture => 6
    case Repair => 7
    case Routing => 8
    case Intake => 9
    case Blocked => 10
    case _ => 11
  }

  lemma ForwardIsAccepted(w: Workflow)
    requires Invariant(w) && !Terminal(w.state) && !Stuck(w)
    ensures var t := Step(w, Forward(w));
            Accepts(w, Forward(w)) && !Stuck(t) && !t.state.Cancelled? && Distance(t.state) < Distance(w.state)
  {
  }

  lemma {:induction false} CanComplete(w: Workflow) returns (cs: seq<Command>)
    requires Invariant(w) && !w.state.Cancelled? && !Stuck(w)
    ensures Accepted(w, cs) == cs && Run(w, cs).state.Completed?
    decreases Distance(w.state)
  {
    hide Invariant, Accepts, Step;
    if w.state.Completed? {
      cs := [];
    } else {
      ForwardIsAccepted(w);
      InvariantKept(w, Forward(w));
      var rest := CanComplete(Step(w, Forward(w)));
      cs := [Forward(w)] + rest;
      assert cs[0] == Forward(w) && cs[1..] == rest;
    }
  }

  lemma {:induction false} NeverCompletes(w: Workflow, cs: seq<Command>)
    requires Invariant(w) && (w.state.Cancelled? || Stuck(w))
    ensures !Run(w, cs).state.Completed?
    decreases |cs|
  {
    if cs != [] {
      InvariantKept(w, cs[0]);
      NeverCompletes(Step(w, cs[0]), cs[1..]);
    }
  }

  /** A workflow can still be completed exactly when it has not been cancelled and is
      not blocked with a budget that is at its limit. */
  lemma CompletableExactly(w: Workflow)
    requires Invariant(w)
    ensures (exists cs :: Run(w, cs).state.Completed?) <==> !w.state.Cancelled? && !Stuck(w)
  {
    if !w.state.Cancelled? && !Stuck(w) {
      var cs := CanComplete(w);
    } else {
      forall cs ensures !Run(w, cs).state.Completed? {
        NeverCompletes(w, cs);
      }
    }
  }

  // ---- the events of a command

  /** What an event says has changed. */
  function Replayed(w: Workflow, events: seq<Event>): Workflow
    decreases |events|
  {
    if events == [] then w
    else
      var next := match events[0]
        case StateChanged(_, to) => w.(state := to)
        case CandidateSelected(id) => w.(candidate := Some(id))
        case RepairCycleConsumed(cycle, _) => w.(cycles := cycle)
        case RepairBudgetExtended(_, current) => w.(maximum := current)
        case InfrastructureRetryAccepted => w;
      Replayed(next, events[1..])
  }

  /** What was before, or still is, is told truly. */
  predicate TrueOf(w: Workflow, e: Event) {
    match e
    case StateChanged(from, _) => from == w.state
    case RepairCycleConsumed(cycle, maximum) => cycle == w.cycles + 1 && maximum == w.maximum
    case RepairBudgetExtended(previous, _) => previous == w.maximum
    case _ => true
  }

  lemma ReplayTwo(w: Workflow, events: seq<Event>)
    requires 1 <= |events| <= 2
    ensures Replayed(w, events)
            == if |events| == 1 then Replayed(w, [events[0]]) else Replayed(Replayed(w, [events[0]]), [events[1]])
  {
    if |events| == 1 {
      assert events == [events[0]];
    } else {
      assert [events[0]][1..] == [] && [events[1]][1..] == [] && events[1..] == [events[1]];
    }
  }

  /** The events of an accepted command tell its whole effect on state, cycles and
      budget, and on the candidate unless a repair clears it. */
  lemma EventsTell(w: Workflow, c: Command)
    requires Accepts(w, c)
    ensures var (t, events) := (Step(w, c), Applied(w, c).1.value);
            var told := Replayed(w, events);
            && told.state == t.state && told.cycles == t.cycles && told.maximum == t.maximum
            && (c.BeginRepair? || told.candidate == t.candidate)
            && (forall e :: e in events ==> TrueOf(w, e))
            && (InfrastructureRetryAccepted in events <==> c.RetryInfrastructure?)
  {
    ReplayTwo(w, Applied(w, c).1.value);
  }

  // ---- what is accepted, and what suspending keeps

  /** The states in which a command has its place. */
  function PlacesOf(c: Command): set<State> {
    match c
    case CompleteIntake => {Intake}
    case Route(_) => {Routing}
    case ArchitectureAccepted => {Architecture}
    case CandidateReady(_) => {QuickExecution, Execution}
    case VerificationPassed => {Verification}
    case VerificationFailed => {Verification}
    case VerificationRejected(_) => {Verification}
    case ReviewsReady => {IndependentReviews}
    case Approve(_) => {Arbitration}
    case Reject(_) => {Arbitration}
    case Deliver => {Delivery}
    case BeginRepair => {Repair}
    case ReplanExecution => {Execution}
    case ResumeBlocked(_) => {Blocked}
    case ResumeInfrastructure => {Blocked}
    case Resume => {Paused}
    case Pause => {Intake, Routing, QuickExecution, Architecture, Execution, IndependentReviews, Arbitration, Repair}
    case BlockInfrastructure => Interruptible()
    case RetryInfrastructure => Interruptible()
    case Cancel => Interruptible() + {Paused, Blocked}
  }

  function Interruptible(): set<State> {
    {Intake, Routing, QuickExecution, Architecture, Execution, Verification, IndependentReviews, Arbitration, Delivery,
     Repair}
  }

  /** A reachable workflow accepts a command exactly in its place, an approval only with
      all gates passed, an extension only within the limit, and each resumption only of
      its own suspension. */
  lemma AcceptedExactly(w: Workflow, c: Command)
    requires Invariant(w)
    ensures Accepts(w, c) <==>
              && w.state in PlacesOf(c)
              && (c.Approve? ==> c.gatesPassed)
              && (c.ResumeBlocked? ==> w.blockedFrom.None? && 0 < c.additional <= MAX_U8 - w.maximum)
              && (c.ResumeInfrastructure? ==> w.blockedFrom.Some?)
  {
    InvariantSays(w);
    hide Invariant;
  }

  lemma InvariantSays(w: Workflow)
    requires Invariant(w)
    ensures (w.state.Paused? <==> w.pausedFrom.Some?) && (w.state in {Repair} ==> w.target.Some?) && w.maximum <= MAX_U8
    ensures w.state in {Verification, Arbitration, Delivery} ==> w.candidate.Some?
    ensures w.state.Verification? ==> w.mode.Some? && w.cycles < w.maximum
    ensures w.state.Arbitration? ==> w.cycles < w.maximum
  {
  }

  /** A refusal changes nothing, and an approval without its gates has an error of its own. */
  lemma RefusalsChangeNothing(w: Workflow, c: Command)
    requires Invariant(w)
    ensures Applied(w, c).1 == Failure(MandatoryGateFailed) <==> c == Approve(false) && w.state.Arbitration?
    ensures !Accepts(w, c) ==> Step(w, c) == w
  {
  }

  /** Pausing or blocking a workflow and resuming it changes nothing. */
  lemma ResumesWhereItStood(w: Workflow)
    requires Invariant(w)
    ensures Accepts(w, Pause) ==> Accepts(Step(w, Pause), Resume) && Step(Step(w, Pause), Resume) == w
    ensures Accepts(w, BlockInfrastructure) ==>
              && Accepts(Step(w, BlockInfrastructure), ResumeInfrastructure)
              && Step(Step(w, BlockInfrastructure), ResumeInfrastructure) == w
    ensures Step(w, RetryInfrastructure) == w
  {
  }
}
