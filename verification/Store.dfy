/**
 The command store (crates/workflow-store/src/workflows.rs, tasks.rs and the
 reservation calls of candidates.rs).  A SQLite transaction is one update of the
 tables that either happens or does not; timestamps are left out.
 */
module CommandStore {
  import opened Wrappers
  import W = WorkflowMachine
  import T = TaskMachine

  type WorkflowId = nat
  type TaskId = nat
  type CandidateId = nat
  type Digest = seq<bv8>

  datatype Reservation = Reservation(workflow: WorkflowId, candidateDigest: Digest, journal: Option<Digest>)

  datatype StoredEvent =
    | WorkflowEvent(workflow: WorkflowId, change: W.Event)
    | TaskEvent(task: TaskId, step: T.Event)

  /** A row of `command_deduplication`. */
  datatype Recorded =
    | WorkflowResult(workflow: WorkflowId, changes: seq<W.Event>, state: W.Workflow)
    | TaskResult(task: TaskId, steps: seq<T.Event>, after: T.Task)

  datatype OwnedTask = OwnedTask(owner: WorkflowId, task: T.Task)

  datatype Tables = Tables(
    workflows: map<WorkflowId, W.Workflow>,
    tasks: map<TaskId, OwnedTask>,
    events: seq<StoredEvent>,
    deduplication: map<string, Recorded>,
    reservations: map<CandidateId, Reservation>)

  const EMPTY := Tables(map[], map[], [], map[], map[])

  datatype StoreError =
    | ReadOnly | InvalidIdempotencyKey | DeliveryInProgress | IdempotencyConflict | AggregateConflict
    | NotFound | KeyTaken | ConstraintFailed
    | WorkflowRefused(why: W.TransitionError) | TaskRefused(reason: T.TransitionError)

  datatype Applied<+S, +E> = Applied(duplicate: bool, events: seq<E>, state: S)

  type WorkflowReply = Result<Applied<W.Workflow, W.Event>, StoreError>
  type TaskReply = Result<Applied<T.Task, T.Event>, StoreError>

  predicate ValidKey(key: string) {
    0 < |key| <= 256
  }

  predicate Reserved(t: Tables, workflow: WorkflowId) {
    exists c :: c in t.reservations && t.reservations[c].workflow == workflow
  }

  function WorkflowAt(t: Tables, id: WorkflowId): W.Workflow {
    if id in t.workflows then t.workflows[id] else W.DEFAULT
  }

  function TaskAt(t: Tables, id: TaskId): T.Task {
    if id in t.tasks then t.tasks[id].task else T.NEW
  }

  function WorkflowEvents(id: WorkflowId, changes: seq<W.Event>): seq<StoredEvent> {
    seq(|changes|, i requires 0 <= i < |changes| => WorkflowEvent(id, changes[i]))
  }

  function TaskEvents(id: TaskId, steps: seq<T.Event>): seq<StoredEvent> {
    seq(|steps|, i requires 0 <= i < |steps| => TaskEvent(id, steps[i]))
  }

  // ---- the calls as functions on the tables

  function WorkflowRecorded(t: Tables, id: WorkflowId, key: string, changes: seq<W.Event>, after: W.Workflow): Tables {
    t.(workflows := t.workflows[id := after],
       events := t.events + WorkflowEvents(id, changes),
       deduplication := t.deduplication[key := WorkflowResult(id, changes, after)])
  }

  /** What a recorded row answers to a repeated workflow command. */
  function ReplayWorkflow(row: Recorded, id: WorkflowId): WorkflowReply {
    match row
    case WorkflowResult(owner, changes, state) =>
      if owner == id then Success(Applied(true, changes, state)) else Failure(IdempotencyConflict)
    case TaskResult(_, _, _) => Failure(IdempotencyConflict)
  }

  function ReplayTask(row: Recorded, id: TaskId): TaskReply {
    match row
    case TaskResult(task, steps, after) =>
      if task == id then Success(Applied(true, steps, after)) else Failure(IdempotencyConflict)
    case WorkflowResult(_, _, _) => Failure(IdempotencyConflict)
  }

  function ApplyWorkflow(t: Tables, id: WorkflowId, key: string, c: W.Command): (Tables, WorkflowReply) {
    if !ValidKey(key) then (t, Failure(InvalidIdempotencyKey))
    else if Reserved(t, id) then (t, Failure(DeliveryInProgress))
    else if key in t.deduplication then
      (t, ReplayWorkflow(t.deduplication[key], id))
    else
      match W.Applied(WorkflowAt(t, id), c)
      case (_, Failure(why)) => (t, Failure(WorkflowRefused(why)))
      case (after, Success(changes)) =>
        (WorkflowRecorded(t, id, key, changes, after), Success(Applied(false, changes, after)))
  }

  function ApplyTask(t: Tables, owner: WorkflowId, id: TaskId, key: string, c: T.Command): (Tables, TaskReply) {
    if !ValidKey(key) then (t, Failure(InvalidIdempotencyKey))
    else if key in t.deduplication then
      (t, ReplayTask(t.deduplication[key], id))
    else if id in t.tasks && t.tasks[id].owner != owner then (t, Failure(AggregateConflict))
    else
      match T.Applied(TaskAt(t, id), c)
      case (_, Failure(why)) => (t, Failure(TaskRefused(why)))
      case (after, Success(steps)) =>
        if id !in t.tasks && owner !in t.workflows then (t, Failure(ConstraintFailed))
        else
          (t.(tasks := t.tasks[id := OwnedTask(owner, after)],
              events := t.events + TaskEvents(id, steps),
              deduplication := t.deduplication[key := TaskResult(id, steps, after)]),
           Success(Applied(false, steps, after)))
  }

  function Deliver(t: Tables, id: WorkflowId, candidate: CandidateId, digest: Digest, journal: Digest, key: string)
    : (Tables, WorkflowReply)
  {
    if !ValidKey(key) then (t, Failure(InvalidIdempotencyKey))
    else if !(candidate in t.reservations && t.reservations[candidate] == Reservation(id, digest, Some(journal))) then
      (t, Failure(AggregateConflict))
    else if id !in t.workflows then (t, Failure(NotFound))
    else
      match W.Applied(t.workflows[id], W.Deliver)
      case (_, Failure(why)) => (t, Failure(WorkflowRefused(why)))
      case (after, Success(changes)) =>
        if key in t.deduplication then (t, Failure(KeyTaken))
        else
          (WorkflowRecorded(t, id, key, changes, after).(reservations := t.reservations - {candidate}),
           Success(Applied(false, changes, after)))
  }

  /** `true` when the reservation existed already.  The table allows one reservation
      per workflow, and only for workflows that are stored. */
  function Reserve(t: Tables, id: WorkflowId, candidate: CandidateId, digest: Digest)
    : (Tables, Result<bool, StoreError>)
  {
    if candidate !in t.reservations && (Reserved(t, id) || id !in t.workflows) then (t, Failure(ConstraintFailed))
    else if candidate !in t.reservations then
      (t.(reservations := t.reservations[candidate := Reservation(id, digest, None)]), Success(false))
    else if t.reservations[candidate].workflow == id && t.reservations[candidate].candidateDigest == digest then
      (t, Success(true))
    else (t, Failure(AggregateConflict))
  }

  function Release(t: Tables, id: WorkflowId, candidate: CandidateId, digest: Digest)
    : (Tables, Result<(), StoreError>)
  {
    if candidate in t.reservations && t.reservations[candidate].workflow == id
        && t.reservations[candidate].candidateDigest == digest
    then (t.(reservations := t.reservations - {candidate}), Success(()))
    else (t, Failure(AggregateConflict))
  }

  /** The compare-and-set of the journal digest. */
  function Bind(t: Tables, id: WorkflowId, candidate: CandidateId, digest: Digest, expected: Option<Digest>,
                journal: Digest)
    : (Tables, Result<(), StoreError>)
  {
    if candidate in t.reservations && t.reservations[candidate] == Reservation(id, digest, expected)
    then (t.(reservations := t.reservations[candidate := Reservation(id, digest, Some(journal))]), Success(()))
    else (t, Failure(AggregateConflict))
  }

  // ---- the store object

  class Store {
    const readWrite: bool
    var workflows: map<WorkflowId, W.Workflow>
    var tasks: map<TaskId, OwnedTask>
    var events: seq<StoredEvent>
    var deduplication: map<string, Recorded>
    var reservations: map<CandidateId, Reservation>

    constructor (readWrite: bool)
      ensures View() == EMPTY && this.readWrite == readWrite
    {
      this.readWrite := readWrite;
      workflows, tasks, events, deduplication, reservations := map[], map[], [], map[], map[];
    }

    function View(): Tables
      reads this
    {
      Tables(workflows, tasks, events, deduplication, reservations)
    }

    method AppendWorkflowEvents(id: WorkflowId, changes: seq<W.Event>)
      modifies this`events
      ensures events == old(events) + WorkflowEvents(id, changes)
    {
      for n := 0 to |changes|
        invariant events == old(events) + WorkflowEvents(id, changes)[..n]
      {
        events := events + [WorkflowEvent(id, changes[n])];
      }
      assert WorkflowEvents(id, changes)[..|changes|] == WorkflowEvents(id, changes);
    }

    method AppendTaskEvents(id: TaskId, steps: seq<T.Event>)
      modifies this`events
      ensures events == old(events) + TaskEvents(id, steps)
    {
      for n := 0 to |steps|
        invariant events == old(events) + TaskEvents(id, steps)[..n]
      {
        events := events + [TaskEvent(id, steps[n])];
      }
      assert TaskEvents(id, steps)[..|steps|] == TaskEvents(id, steps);
    }

    /** The writes of an accepted workflow command. */
    method RecordWorkflow(id: WorkflowId, key: string, changes: seq<W.Event>, after: W.Workflow)
      modifies this
      ensures View() == WorkflowRecorded(old(View()), id, key, changes, after)
    {
      workflows := workflows[id := after];
      AppendWorkflowEvents(id, changes);
      deduplication := deduplication[key := WorkflowResult(id, changes, after)];
    }

    method ApplyWorkflowCommand(id: WorkflowId, key: string, c: W.Command) returns (r: WorkflowReply)
      modifies this
      ensures !readWrite ==> r == Failure(ReadOnly) && View() == old(View())
      ensures readWrite ==> (View(), r) == ApplyWorkflow(old(View()), id, key, c)
    {
      hide W.Applied, WorkflowRecorded, Reserved, ReplayWorkflow, ValidKey;
      if !readWrite { return Failure(ReadOnly); }
      if !ValidKey(key) { return Failure(InvalidIdempotencyKey); }
      if Reserved(View(), id) { return Failure(DeliveryInProgress); }
      if key in deduplication { return ReplayWorkflow(deduplication[key], id); }
      var state := new W.WorkflowObject(if id in workflows then workflows[id] else W.DEFAULT);
      var outcome := state.Apply(c);
      if outcome.Failure? { return Failure(WorkflowRefused(outcome.error)); }
      var changes := outcome.value;
      RecordWorkflow(id, key, changes, state.View());
      r := Success(Applied(false, changes, state.View()));
    }

    method ApplyTaskCommand(owner: WorkflowId, id: TaskId, key: string, c: T.Command) returns (r: TaskReply)
      modifies this
      ensures !readWrite ==> r == Failure(ReadOnly) && View() == old(View())
      ensures readWrite ==> (View(), r) == ApplyTask(old(View()), owner, id, key, c)
    {
      hide T.Applied, TaskEvents, ReplayTask, ValidKey;
      if !readWrite { return Failure(ReadOnly); }
      if !ValidKey(key) { return Failure(InvalidIdempotencyKey); }
      if key in deduplication { return ReplayTask(deduplication[key], id); }
      if id in tasks && tasks[id].owner != owner { return Failure(AggregateConflict); }
      var (after, outcome) := T.Applied(if id in tasks then tasks[id].task else T.NEW, c);
      if outcome.Failure? { return Failure(TaskRefused(outcome.error)); }
      if id !in tasks && owner !in workflows { return Failure(ConstraintFailed); }
      tasks := tasks[id := OwnedTask(owner, after)];
      AppendTaskEvents(id, outcome.value);
      deduplication := deduplication[key := TaskResult(id, outcome.value, after)];
      r := Success(Applied(false, outcome.value, after));
    }

    method DeliverReserved(id: WorkflowId, candidate: CandidateId, digest: Digest, journal: Digest, key: string)
      returns (r: WorkflowReply)
      modifies this
      ensures !readWrite ==> r == Failure(ReadOnly) && View() == old(View())
      ensures readWrite ==> (View(), r) == Deliver(old(View()), id, candidate, digest, journal, key)
    {
      hide W.Applied, WorkflowEvents, ValidKey;
      if !readWrite { return Failure(ReadOnly); }
      if !ValidKey(key) { return Failure(InvalidIdempotencyKey); }
      if candidate !in reservations || reservations[candidate] != Reservation(id, digest, Some(journal)) {
        return Failure(AggregateConflict);
      }
      if id !in workflows { return Failure(NotFound); }
      var state := new W.WorkflowObject(workflows[id]);
      var outcome := state.Apply(W.Deliver);
      if outcome.Failure? { return Failure(WorkflowRefused(outcome.error)); }
      if key in deduplication { return Failure(KeyTaken); }
      RecordWorkflow(id, key, outcome.value, state.View());
      reservations := reservations - {candidate};
      r := Success(Applied(false, outcome.value, state.View()));
    }

    method ReserveDelivery(id: WorkflowId, candidate: CandidateId, digest: Digest) returns (r: Result<bool, StoreError>)
      modifies this`reservations
      ensures !readWrite ==> r == Failure(ReadOnly) && View() == old(View())
      ensures readWrite ==> (View(), r) == Reserve(old(View()), id, candidate, digest)
    {
      if !readWrite { return Failure(ReadOnly); }
      if candidate !in reservations {
        if id !in workflows || exists c :: c in reservations && reservations[c].workflow == id {
          return Failure(ConstraintFailed);
        }
        reservations := reservations[candidate := Reservation(id, digest, None)];
        return Success(false);
      }
      var current := reservations[candidate];
      r := if current.workflow == id && current.candidateDigest == digest then Success(true)
          else Failure(AggregateConflict);
    }

    method ReleaseDelivery(id: WorkflowId, candidate: CandidateId, digest: Digest) returns (r: Result<(), StoreError>)
      modifies this`reservations
      ensures !readWrite ==> r == Failure(ReadOnly) && View() == old(View())
      ensures readWrite ==> (View(), r) == Release(old(View()), id, candidate, digest)
    {
      if !readWrite { return Failure(ReadOnly); }
      if candidate in reservations && reservations[candidate].workflow == id
          && reservations[candidate].candidateDigest == digest {
        reservations := reservations - {candidate};
        return Success(());
      }
      r := Failure(AggregateConflict);
    }

    method BindJournal(id: WorkflowId, candidate: CandidateId, digest: Digest, expected: Option<Digest>,
                       journal: Digest)
      returns (r: Result<(), StoreError>)
      modifies this`reservations
      ensures (View(), r) == Bind(old(View()), id, candidate, digest, expected, journal)
    {
      if candidate in reservations && reservations[candidate] == Reservation(id, digest, expected) {
        reservations := reservations[candidate := Reservation(id, digest, Some(journal))];
        return Success(());
      }
      r := Failure(AggregateConflict);
    }

    /** `candidate_delivery_journal_digest`. */
    method JournalDigest(id: WorkflowId, candidate: CandidateId) returns (digest: Option<Digest>)
      ensures digest == if candidate in reservations && reservations[candidate].workflow == id
                        then reservations[candidate].journal else None
    {
      digest := if candidate in reservations && reservations[candidate].workflow == id
                then reservations[candidate].journal else None;
    }
  }

  // ---- exactly once

  datatype Call =
    | CallWorkflow(id: WorkflowId, key: string, command: W.Command)
    | CallTask(owner: WorkflowId, task: TaskId, key: string, instruction: T.Command)
    | CallDeliver(id: WorkflowId, candidate: CandidateId, digest: Digest, journal: Digest, key: string)
    | CallReserve(id: WorkflowId, candidate: CandidateId, digest: Digest)
    | CallRelease(id: WorkflowId, candidate: CandidateId, digest: Digest)
    | CallBind(id: WorkflowId, candidate: CandidateId, digest: Digest, expected: Option<Digest>, journal: Digest)

  function Perform(t: Tables, c: Call): Tables {
    match c
    case CallWorkflow(id, key, command) => ApplyWorkflow(t, id, key, command).0
    case CallTask(owner, task, key, instruction) => ApplyTask(t, owner, task, key, instruction).0
    case CallDeliver(id, candidate, digest, journal, key) => Deliver(t, id, candidate, digest, journal, key).0
    case CallReserve(id, candidate, digest) => Reserve(t, id, candidate, digest).0
    case CallRelease(id, candidate, digest) => Release(t, id, candidate, digest).0
    case CallBind(id, candidate, digest, expected, journal) => Bind(t, id, candidate, digest, expected, journal).0
  }

  function PerformAll(t: Tables, cs: seq<Call>): Tables
    decreases |cs|
  {
    if cs == [] then t else PerformAll(Perform(t, cs[0]), cs[1..])
  }

  /** A command whose key already has a recorded success. */
  predicate Repeated(t: Tables, c: Call) {
    (c.CallWorkflow? || c.CallTask?) && c.key in t.deduplication
  }

  function WithoutRepeats(t: Tables, cs: seq<Call>): seq<Call>
    decreases |cs|
  {
    if cs == [] then []
    else (if Repeated(t, cs[0]) then [] else [cs[0]]) + WithoutRepeats(Perform(t, cs[0]), cs[1..])
  }

  /** Dropping every repeated command from a run changes no table at all. */
  lemma {:induction false} RepeatsChangeNothing(t: Tables, cs: seq<Call>)
    ensures PerformAll(t, WithoutRepeats(t, cs)) == PerformAll(t, cs)
    decreases |cs|
  {
    if cs != [] {
      var rest := WithoutRepeats(Perform(t, cs[0]), cs[1..]);
      RepeatsChangeNothing(Perform(t, cs[0]), cs[1..]);
      if Repeated(t, cs[0]) {
        assert WithoutRepeats(t, cs) == rest;
      } else {
        assert WithoutRepeats(t, cs)[0] == cs[0] && WithoutRepeats(t, cs)[1..] == rest;
      }
    }
  }

  /** A recorded result is never replaced or lost. */
  lemma {:induction false} RecordsAreFinal(t: Tables, cs: seq<Call>, key: string)
    requires key in t.deduplication
    ensures key in PerformAll(t, cs).deduplication && PerformAll(t, cs).deduplication[key] == t.deduplication[key]
    decreases |cs|
  {
    if cs != [] { RecordsAreFinal(Perform(t, cs[0]), cs[1..], key); }
  }

  /** Whatever happens in between, a repeated workflow command is answered with the
      result it had the first time, unless a delivery of that workflow is reserved. */
  lemma RepeatedWorkflowCommandReplays(t: Tables, id: WorkflowId, key: string, c: W.Command, between: seq<Call>,
                                       c': W.Command)
    requires ApplyWorkflow(t, id, key, c).1.Success?
    requires !Reserved(PerformAll(ApplyWorkflow(t, id, key, c).0, between), id)
    ensures var first := ApplyWorkflow(t, id, key, c).1.value;
            ApplyWorkflow(PerformAll(ApplyWorkflow(t, id, key, c).0, between), id, key, c').1
              == Success(first.(duplicate := true))
  {
    RecordsAreFinal(ApplyWorkflow(t, id, key, c).0, between, key);
  }

  // ---- the event log

  /** One more logged event on the trail of workflow `id`: a change must start where the trail ends. */
  function FollowWorkflow(before: Option<W.State>, e: StoredEvent, id: WorkflowId): Option<W.State> {
    if !(e.WorkflowEvent? && e.workflow == id && e.change.StateChanged?) then before
    else if before == Some(e.change.from) then Some(e.change.to)
    else None
  }

  function FollowTask(before: Option<T.State>, e: StoredEvent, id: TaskId): Option<T.State> {
    if !(e.TaskEvent? && e.task == id && e.step.StateChanged?) then before
    else if before == Some(e.step.from) then Some(e.step.to)
    else None
  }

  /** Follows the state changes one workflow has logged; `None` when they do not join up. */
  function WorkflowTrail(events: seq<StoredEvent>, id: WorkflowId): Option<W.State> {
    if events == [] then Some(W.Intake)
    else FollowWorkflow(WorkflowTrail(events[..|events| - 1], id), events[|events| - 1], id)
  }

  function TaskTrail(events: seq<StoredEvent>, id: TaskId): Option<T.State> {
    if events == [] then Some(T.Pending)
    else FollowTask(TaskTrail(events[..|events| - 1], id), events[|events| - 1], id)
  }

  /** Every aggregate's log is an unbroken chain that ends in its stored state. */
  ghost predicate LogAgrees(t: Tables) {
    && (forall id :: WorkflowTrail(t.events, id) == Some(WorkflowAt(t, id).state))
    && (forall id :: TaskTrail(t.events, id) == Some(TaskAt(t, id).state))
  }

  lemma {:induction false} WorkflowTrailExtends(events: seq<StoredEvent>, id: WorkflowId, changes: seq<W.Event>,
                                                other: WorkflowId)
    requires |changes| <= 2
    ensures var after := events + WorkflowEvents(id, changes);
            && WorkflowTrail(after, other) ==
                 (var one := if |changes| > 0 then
                     FollowWorkflow(WorkflowTrail(events, other), WorkflowEvent(id, changes[0]), other)
                             else WorkflowTrail(events, other);
                  if |changes| > 1 then FollowWorkflow(one, WorkflowEvent(id, changes[1]), other) else one)
            && TaskTrail(after, other) == TaskTrail(events, other)
  {
    var more := WorkflowEvents(id, changes);
    if |changes| == 0 {
      assert events + more == events;
    } else {
      assert (events + more)[..|events| + |more| - 1] == events + more[..|more| - 1];
      assert (events + more[..|more| - 1])[..|events|] == events;
      if |changes| == 1 {
        assert events + more[..0] == events;
      }
    }
  }

  lemma {:induction false} TaskTrailExtends(events: seq<StoredEvent>, id: TaskId, steps: seq<T.Event>, other: TaskId)
    requires |steps| <= 2
    ensures var after := events + TaskEvents(id, steps);
            && TaskTrail(after, other) ==
                 (var one := if |steps| > 0 then FollowTask(TaskTrail(events, other), TaskEvent(id, steps[0]), other)
                             else TaskTrail(events, other);
                  if |steps| > 1 then FollowTask(one, TaskEvent(id, steps[1]), other) else one)
            && WorkflowTrail(after, other) == WorkflowTrail(events, other)
  {
    var more := TaskEvents(id, steps);
    if |steps| == 0 {
      assert events + more == events;
    } else {
      assert (events + more)[..|events| + |more| - 1] == events + more[..|more| - 1];
      assert (events + more[..|more| - 1])[..|events|] == events;
      if |steps| == 1 {
        assert events + more[..0] == events;
      }
    }
  }

  /** An accepted command logs one or two changes that lead from the old state to the new. */
  lemma WorkflowTrailMoves(w: W.Workflow, c: W.Command, id: WorkflowId)
    requires W.Applied(w, c).1.Success?
    ensures var (after, outcome) := W.Applied(w, c);
            var changes := outcome.value;
            && 1 <= |changes| <= 2
            && (var one := FollowWorkflow(Some(w.state), WorkflowEvent(id, changes[0]), id);
                Some(after.state) == if |changes| > 1 then FollowWorkflow(one, WorkflowEvent(id, changes[1]), id)
                    else one)
  {
  }

  /** Logging an accepted workflow command moves the trail to the new state. */
  lemma WorkflowLogged(t: Tables, id: WorkflowId, c: W.Command, after: Tables)
    requires LogAgrees(t) && W.Applied(WorkflowAt(t, id), c).1.Success?
    requires after.workflows == t.workflows[id := W.Applied(WorkflowAt(t, id), c).0] && after.tasks == t.tasks
    requires after.events == t.events + WorkflowEvents(id, W.Applied(WorkflowAt(t, id), c).1.value)
    ensures LogAgrees(after)
  {
    WorkflowTrailMoves(WorkflowAt(t, id), c, id);
    hide W.Applied;
    var outcome := W.Applied(WorkflowAt(t, id), c).1;
    forall other
      ensures WorkflowTrail(after.events, other) == Some(WorkflowAt(after, other).state)
      ensures TaskTrail(after.events, other) == Some(TaskAt(after, other).state)
    {
      assert WorkflowTrail(t.events, other) == Some(WorkflowAt(t, other).state);
      assert TaskTrail(t.events, other) == Some(TaskAt(t, other).state);
      WorkflowTrailExtends(t.events, id, outcome.value, other);
    }
  }

  lemma TaskLogged(t: Tables, owner: WorkflowId, id: TaskId, c: T.Command, after: Tables)
    requires LogAgrees(t) && T.Applied(TaskAt(t, id), c).1.Success?
    requires after.workflows == t.workflows
    requires after.tasks == t.tasks[id := OwnedTask(owner, T.Applied(TaskAt(t, id), c).0)]
    requires after.events == t.events + TaskEvents(id, T.Applied(TaskAt(t, id), c).1.value)
    ensures LogAgrees(after)
  {
    var outcome := T.Applied(TaskAt(t, id), c).1;
    forall other
      ensures WorkflowTrail(after.events, other) == Some(WorkflowAt(after, other).state)
      ensures TaskTrail(after.events, other) == Some(TaskAt(after, other).state)
    {
      assert WorkflowTrail(t.events, other) == Some(WorkflowAt(t, other).state);
      assert TaskTrail(t.events, other) == Some(TaskAt(t, other).state);
      TaskTrailExtends(t.events, id, outcome.value, other);
    }
  }

  lemma LogUntouched(t: Tables, after: Tables)
    requires LogAgrees(t) && after.events == t.events && after.workflows == t.workflows && after.tasks == t.tasks
    ensures LogAgrees(after)
  {
    assert forall id :: WorkflowAt(after, id) == WorkflowAt(t, id);
    assert forall id :: TaskAt(after, id) == TaskAt(t, id);
  }

  lemma LogAgreesKept(t: Tables, c: Call)
    requires LogAgrees(t)
    ensures LogAgrees(Perform(t, c))
  {
    hide W.Applied, T.Applied, WorkflowEvents, TaskEvents, LogAgrees, ReplayWorkflow, ReplayTask, ValidKey, Reserved;
    var after := Perform(t, c);
    if after.events == t.events && after.workflows == t.workflows && after.tasks == t.tasks {
      LogUntouched(t, after);
    } else {
      match c {
        case CallWorkflow(id, _, command) => WorkflowLogged(t, id, command, after);
        case CallTask(owner, task, _, instruction) => TaskLogged(t, owner, task, instruction, after);
        case CallDeliver(id, _, _, _, _) => WorkflowLogged(t, id, W.Deliver, after);
        case _ =>
      }
    }
  }

  /** In every run from an empty store, every workflow's and every task's logged state
      changes lead without a gap from its initial state to its stored state. */
  lemma {:induction false} LogAgreesOverRuns(t: Tables, cs: seq<Call>)
    requires LogAgrees(t)
    ensures LogAgrees(PerformAll(t, cs))
    decreases |cs|
  {
    if cs != [] {
      LogAgreesKept(t, cs[0]);
      LogAgreesOverRuns(Perform(t, cs[0]), cs[1..]);
    }
  }

  lemma LogAgreesFromTheStart(cs: seq<Call>)
    ensures LogAgrees(PerformAll(EMPTY, cs))
  {
    assert LogAgrees(EMPTY);
    LogAgreesOverRuns(EMPTY, cs);
  }

  // ---- what the constraints of the tables keep

  /** Tasks and reservations belong to stored workflows, and no workflow has two reservations. */
  ghost predicate Constrained(t: Tables) {
    && (forall id :: id in t.tasks ==> t.tasks[id].owner in t.workflows)
    && (forall c :: c in t.reservations ==> t.reservations[c].workflow in t.workflows)
    && (forall c, c' ::
          c in t.reservations && c' in t.reservations && t.reservations[c].workflow == t.reservations[c'].workflow ==>
            c == c')
  }

  lemma ConstrainedKept(t: Tables, c: Call)
    requires Constrained(t)
    ensures Constrained(Perform(t, c)) && t.workflows.Keys <= Perform(t, c).workflows.Keys
  {
    hide W.Applied, T.Applied, WorkflowEvents, TaskEvents, ValidKey;
  }

  /** In every run a delivery reservation is exclusive to its workflow. */
  lemma {:induction false} ConstrainedOverRuns(t: Tables, cs: seq<Call>)
    requires Constrained(t)
    ensures Constrained(PerformAll(t, cs))
    decreases |cs|
  {
    hide Constrained;
    if cs != [] {
      ConstrainedKept(t, cs[0]);
      ConstrainedOverRuns(Perform(t, cs[0]), cs[1..]);
    }
  }

  // ---- completion happens once

  /** How often workflow `id` has logged its step into `Completed`. */
  function Completions(events: seq<StoredEvent>, id: WorkflowId): nat {
    if events == [] then 0
    else
      var last := events[|events| - 1];
      Completions(events[..|events| - 1], id)
      + if last.WorkflowEvent? && last.workflow == id && last.change.StateChanged? && last.change.to.Completed? then 1
          else 0
  }

  /** A completed workflow has logged it once; any other workflow never has. */
  ghost predicate CompletedOnce(t: Tables) {
    forall id :: Completions(t.events, id) == if WorkflowAt(t, id).state.Completed? then 1 else 0
  }

  lemma {:induction false} CompletionsExtend(events: seq<StoredEvent>, more: seq<StoredEvent>, id: WorkflowId)
    ensures Completions(events + more, id) == Completions(events, id) + Completions(more, id)
    decreases |more|
  {
    if more == [] {
      assert events + more == events;
    } else {
      assert (events + more)[..|events| + |more| - 1] == events + more[..|more| - 1];
      CompletionsExtend(events, more[..|more| - 1], id);
    }
  }

  lemma {:induction false} NoCompletionInTasks(id: TaskId, steps: seq<T.Event>, other: WorkflowId)
    ensures Completions(TaskEvents(id, steps), other) == 0
    decreases |steps|
  {
    var events := TaskEvents(id, steps);
    if steps != [] {
      assert events[..|events| - 1] == TaskEvents(id, steps[..|steps| - 1]);
      NoCompletionInTasks(id, steps[..|steps| - 1], other);
    }
  }

  /** Only the step into `Completed` logs a completion, and nothing leaves `Completed`. */
  lemma CompletionsOfCommand(w: W.Workflow, c: W.Command, id: WorkflowId, other: WorkflowId)
    requires W.Applied(w, c).1.Success? && (w.pausedFrom.Some? ==> !w.pausedFrom.value.Completed?)
    requires w.blockedFrom.Some? ==> !w.blockedFrom.value.Completed?
    ensures !w.state.Completed?
    ensures var (after, outcome) := W.Applied(w, c);
            Completions(WorkflowEvents(id, outcome.value), other) == if other == id && after.state.Completed? then 1
                else 0
  {
    CompletionsOfChanges(id, W.Applied(w, c).1.value, other);
  }

  predicate Completes(change: W.Event) {
    change.StateChanged? && change.to.Completed?
  }

  lemma CompletionsOfChanges(id: WorkflowId, changes: seq<W.Event>, other: WorkflowId)
    requires |changes| <= 2
    ensures Completions(WorkflowEvents(id, changes), other) ==
            if other != id then 0
            else
              (if |changes| > 0 && Completes(changes[0]) then 1 else 0)
              + (if |changes| > 1 && Completes(changes[1]) then 1 else 0)
  {
    var events := WorkflowEvents(id, changes);
    if |changes| == 1 {
      assert events[..0] == [];
    } else if |changes| == 2 {
      assert events[..1][..0] == [];
      assert Completions(events[..1][..0], other) == 0;
      assert events[..1][0] == events[0];
    }
  }

  /** Every stored workflow satisfies the invariant of the state machine. */
  ghost predicate Reachable(t: Tables) {
    forall id :: W.Invariant(WorkflowAt(t, id))
  }

  lemma WorkflowCompletesOnce(t: Tables, id: WorkflowId, c: W.Command, after: Tables)
    requires CompletedOnce(t) && Reachable(t) && W.Applied(WorkflowAt(t, id), c).1.Success?
    requires after.workflows == t.workflows[id := W.Applied(WorkflowAt(t, id), c).0]
    requires after.events == t.events + WorkflowEvents(id, W.Applied(WorkflowAt(t, id), c).1.value)
    ensures CompletedOnce(after) && Reachable(after)
  {
    var w := WorkflowAt(t, id);
    var changes := W.Applied(w, c).1.value;
    forall other
      ensures Completions(after.events, other) == if WorkflowAt(after, other).state.Completed? then 1 else 0
      ensures W.Invariant(WorkflowAt(after, other))
    {
      assert W.Invariant(w) && W.Invariant(WorkflowAt(t, other));
      CompletionsExtend(t.events, WorkflowEvents(id, changes), other);
      CompletionsOfCommand(w, c, id, other);
      if other == id { W.InvariantKept(w, c); }
    }
  }

  lemma TaskCompletesNone(t: Tables, id: TaskId, steps: seq<T.Event>, after: Tables)
    requires CompletedOnce(t) && Reachable(t)
    requires after.workflows == t.workflows && after.events == t.events + TaskEvents(id, steps)
    ensures CompletedOnce(after) && Reachable(after)
  {
    forall other
      ensures Completions(after.events, other) == if WorkflowAt(after, other).state.Completed? then 1 else 0
      ensures W.Invariant(WorkflowAt(after, other))
    {
      assert W.Invariant(WorkflowAt(t, other)) && WorkflowAt(after, other) == WorkflowAt(t, other);
      CompletionsExtend(t.events, TaskEvents(id, steps), other);
      NoCompletionInTasks(id, steps, other);
    }
  }

  lemma CompletionsUntouched(t: Tables, after: Tables)
    requires CompletedOnce(t) && Reachable(t) && after.workflows == t.workflows && after.events == t.events
    ensures CompletedOnce(after) && Reachable(after)
  {
    assert forall id :: WorkflowAt(after, id) == WorkflowAt(t, id);
    assert forall id :: W.Invariant(WorkflowAt(t, id)) ==> W.Invariant(WorkflowAt(after, id));
  }

  lemma CompletedOnceKept(t: Tables, c: Call)
    requires CompletedOnce(t) && Reachable(t)
    ensures CompletedOnce(Perform(t, c)) && Reachable(Perform(t, c))
  {
    hide W.Applied, T.Applied, WorkflowEvents, TaskEvents, ReplayWorkflow, ReplayTask, ValidKey, Reserved,
           CompletedOnce, Reachable;
    var after := Perform(t, c);
    if after.workflows == t.workflows && after.events == t.events {
      CompletionsUntouched(t, after);
    } else {
      match c {
        case CallWorkflow(id, _, command) => WorkflowCompletesOnce(t, id, command, after);
        case CallTask(_, task, _, instruction) =>
          TaskCompletesNone(t, task, T.Applied(TaskAt(t, task), instruction).1.value, after);
        case CallDeliver(id, _, _, _, _) => WorkflowCompletesOnce(t, id, W.Deliver, after);
        case _ =>
      }
    }
  }

  lemma {:induction false} CompletedOnceOverRuns(t: Tables, cs: seq<Call>)
    requires CompletedOnce(t) && Reachable(t)
    ensures CompletedOnce(PerformAll(t, cs)) && Reachable(PerformAll(t, cs))
    decreases |cs|
  {
    if cs != [] {
      CompletedOnceKept(t, cs[0]);
      CompletedOnceOverRuns(Perform(t, cs[0]), cs[1..]);
    }
  }
}
