/**
 Runs of the command store as runs of its state machines
 (crates/workflow-store/src/workflows.rs:21-209, tasks.rs:41-129): what a stored
 workflow or task is, what a reservation protects, and what is replayed.
 */
module StoreRuns {
  import opened Wrappers
  import opened CommandStore
  import W = WorkflowMachine
  import T = TaskMachine
  import WH = WorkflowHistory
  import TH = TaskHistory

  // ---- a stored workflow is a run of the machine

  /** The command that a call applies to workflow `id`, if any. */
  function AppliedTo(t: Tables, c: Call, id: WorkflowId): Option<W.Command> {
    match c
    case CallWorkflow(target, key, command) =>
      var r := ApplyWorkflow(t, target, key, command).1;
      if target == id && r.Success? && !r.value.duplicate then Some(command) else None
    case CallDeliver(target, candidate, digest, journal, key) =>
      if target == id && Deliver(t, target, candidate, digest, journal, key).1.Success? then Some(W.Deliver) else None
    case _ => None
  }

  function CommandsOf(t: Tables, cs: seq<Call>, id: WorkflowId): seq<W.Command>
    decreases |cs|
  {
    if cs == [] then []
    else
      var rest := CommandsOf(Perform(t, cs[0]), cs[1..], id);
      match AppliedTo(t, cs[0], id)
      case Some(command) => [command] + rest
      case None => rest
  }

  /** Recorded replies are those of duplicates, and a duplicate changes nothing. */
  lemma OneCall(t: Tables, c: Call, id: WorkflowId)
    ensures match AppliedTo(t, c, id)
            case Some(command) =>
              && W.Accepts(WorkflowAt(t, id), command)
              && WorkflowAt(Perform(t, c), id) == W.Step(WorkflowAt(t, id), command)
            case None => WorkflowAt(Perform(t, c), id) == WorkflowAt(t, id)
  {
    hide W.Applied, T.Applied, WorkflowEvents, TaskEvents, ValidKey, Reserved;
  }

  /** After any calls a stored workflow is the state machine run on the commands the
      store has applied to it, all of them accepted. */
  lemma {:induction false} StoreRunsTheMachine(t: Tables, cs: seq<Call>, id: WorkflowId)
    ensures WorkflowAt(PerformAll(t, cs), id) == W.Run(WorkflowAt(t, id), CommandsOf(t, cs, id))
    ensures W.Accepted(WorkflowAt(t, id), CommandsOf(t, cs, id)) == CommandsOf(t, cs, id)
    decreases |cs|
  {
    hide AppliedTo, Perform, WorkflowAt, W.Accepts, W.Step;
    if cs != [] {
      OneCall(t, cs[0], id);
      StoreRunsTheMachine(Perform(t, cs[0]), cs[1..], id);
      var rest := CommandsOf(Perform(t, cs[0]), cs[1..], id);
      if AppliedTo(t, cs[0], id).Some? {
        var all := [AppliedTo(t, cs[0], id).value] + rest;
        assert all[0] == AppliedTo(t, cs[0], id).value && all[1..] == rest;
      }
    }
  }

  /** So in a store that began empty, what is stored is what its history says, and a
      completed workflow has passed its gates. */
  lemma StoredWorkflow(cs: seq<Call>, id: WorkflowId)
    ensures var w, history := WorkflowAt(PerformAll(EMPTY, cs), id), CommandsOf(EMPTY, cs, id);
            && w == W.Run(W.DEFAULT, history)
            && WH.Told(W.Base(w), W.DEFAULT.maximum, W.Core(W.DEFAULT, history))
            && (w.state.Completed? ==>
                  w.candidate.Some? && w.mode.Some?
                  && W.SinceCandidate(W.Core(W.DEFAULT, history))
                     == [W.CandidateReady(w.candidate.value), W.VerificationPassed]
                        + (if w.mode == Some(W.Full) then [W.ReviewsReady] else [])
                        + [W.Approve(true), W.Deliver])
  {
    hide *;
    StoreRunsTheMachine(EMPTY, cs, id);
    NothingStored(id);
    WH.HistoryDecides(5, CommandsOf(EMPTY, cs, id));
    W.GatesBeforeCompletion(5, CommandsOf(EMPTY, cs, id));
  }

  lemma NothingStored(id: WorkflowId)
    ensures WorkflowAt(EMPTY, id) == W.DEFAULT == W.New(5) && W.DEFAULT.maximum == 5 <= W.MAX_U8
  {
  }

  // ---- so is a stored task

  function AppliedToTask(t: Tables, c: Call, id: TaskId): Option<T.Command> {
    match c
    case CallTask(owner, task, key, instruction) =>
      var r := ApplyTask(t, owner, task, key, instruction).1;
      if task == id && r.Success? && !r.value.duplicate then Some(instruction) else None
    case _ => None
  }

  function InstructionsOf(t: Tables, cs: seq<Call>, id: TaskId): seq<T.Command>
    decreases |cs|
  {
    if cs == [] then []
    else
      var rest := InstructionsOf(Perform(t, cs[0]), cs[1..], id);
      match AppliedToTask(t, cs[0], id)
      case Some(instruction) => [instruction] + rest
      case None => rest
  }

  lemma OneTaskCall(t: Tables, c: Call, id: TaskId)
    ensures match AppliedToTask(t, c, id)
            case Some(instruction) =>
              && TH.Accepts(TaskAt(t, id), instruction)
              && TaskAt(Perform(t, c), id) == T.Applied(TaskAt(t, id), instruction).0
            case None => TaskAt(Perform(t, c), id) == TaskAt(t, id)
  {
    hide W.Applied, T.Applied, WorkflowEvents, TaskEvents, ValidKey, Reserved;
  }

  lemma {:induction false} StoreRunsTheTask(t: Tables, cs: seq<Call>, id: TaskId)
    ensures TaskAt(PerformAll(t, cs), id) == TH.Run(TaskAt(t, id), InstructionsOf(t, cs, id))
    ensures TH.Accepted(TaskAt(t, id), InstructionsOf(t, cs, id)) == InstructionsOf(t, cs, id)
    decreases |cs|
  {
    hide AppliedToTask, Perform, TaskAt, TH.Accepts, T.Applied;
    if cs != [] {
      OneTaskCall(t, cs[0], id);
      StoreRunsTheTask(Perform(t, cs[0]), cs[1..], id);
      var rest := InstructionsOf(Perform(t, cs[0]), cs[1..], id);
      if AppliedToTask(t, cs[0], id).Some? {
        var all := [AppliedToTask(t, cs[0], id).value] + rest;
        assert all[0] == AppliedToTask(t, cs[0], id).value && all[1..] == rest;
      }
    }
  }

  /** A stored task is completed only right after a lease, a start, a submission and a
      verification with every mandatory gate passed. */
  lemma StoredTask(cs: seq<Call>, id: TaskId)
    ensures var t, history := TaskAt(PerformAll(EMPTY, cs), id), InstructionsOf(EMPTY, cs, id);
            && TH.Told(t, history)
            && (t.state.Completed? ==>
                  |history| >= 4
                  && history[|history| - 4..] == [T.Lease, T.Start, T.SubmitCandidate, T.VerificationPassed(true)])
  {
    hide *;
    StoreRunsTheTask(EMPTY, cs, id);
    NoTaskStored(id);
    TH.HistoryDecides(InstructionsOf(EMPTY, cs, id));
  }

  lemma NoTaskStored(id: TaskId)
    ensures TaskAt(EMPTY, id) == T.NEW
  {
  }

  // ---- replies

  /** The delivery has its row, its workflow and its key, and the workflow accepts it. */
  predicate Recordable(t: Tables, id: WorkflowId, candidate: CandidateId, digest: Digest, journal: Digest,
                        key: string) {
    && candidate in t.reservations && t.reservations[candidate] == Reservation(id, digest, Some(journal))
    && id in t.workflows && W.Accepts(t.workflows[id], W.Deliver) && 0 < |key| <= 256 && key !in t.deduplication
  }

  /** Exactly when a call is answered with success: a repeated command of the same
      workflow or task always is, while no delivery is reserved for it; a new one when
      the machine accepts it. */
  lemma AnsweredExactly(t: Tables, id: WorkflowId, key: string, c: W.Command)
    ensures ApplyWorkflow(t, id, key, c).1.Success? <==>
              && 0 < |key| <= 256 && (forall r :: r in t.reservations ==> t.reservations[r].workflow != id)
              && (if key in t.deduplication then
                  t.deduplication[key].WorkflowResult? && t.deduplication[key].workflow == id
                  else W.Accepts(WorkflowAt(t, id), c))
    ensures ApplyWorkflow(t, id, key, c).1.Success? ==>
              (ApplyWorkflow(t, id, key, c).1.value.duplicate <==> key in t.deduplication)
  {
    hide W.Applied, WorkflowEvents;
  }

  lemma TaskAnsweredExactly(t: Tables, owner: WorkflowId, id: TaskId, key: string, c: T.Command)
    ensures ApplyTask(t, owner, id, key, c).1.Success? <==>
              && 0 < |key| <= 256
              && (if key in t.deduplication then t.deduplication[key].TaskResult? && t.deduplication[key].task == id
                  else
                    && (if id in t.tasks then t.tasks[id].owner == owner else owner in t.workflows)
                    && TH.Accepts(TaskAt(t, id), c))
    ensures ApplyTask(t, owner, id, key, c).1.Success? ==>
              (ApplyTask(t, owner, id, key, c).1.value.duplicate <==> key in t.deduplication)
  {
    hide T.Applied, TaskEvents;
  }

  lemma DeliveredExactly(t: Tables, id: WorkflowId, candidate: CandidateId, digest: Digest, journal: Digest,
                         key: string)
    ensures Deliver(t, id, candidate, digest, journal, key).1.Success? <==>
              Recordable(t, id, candidate, digest, journal, key)
  {
    hide W.Applied, WorkflowEvents;
  }

  /** A command applied for the first time is answered with what is stored and logged for it. */
  lemma FirstReplyIsStored(t: Tables, id: WorkflowId, key: string, c: W.Command)
    requires ApplyWorkflow(t, id, key, c).1.Success? && !ApplyWorkflow(t, id, key, c).1.value.duplicate
    ensures var (after, r) := ApplyWorkflow(t, id, key, c);
            && key !in t.deduplication && !Reserved(t, id)
            && r.value.state == WorkflowAt(after, id) && after.events == t.events + WorkflowEvents(id, r.value.events)
  {
  }

  /** Whatever happens in between, a repeated task command is answered with the result
      it had the first time. */
  lemma RepeatedTaskCommandReplays(t: Tables, owner: WorkflowId, id: TaskId, key: string, c: T.Command,
                                   between: seq<Call>, owner': WorkflowId, c': T.Command)
    requires ApplyTask(t, owner, id, key, c).1.Success?
    ensures var (after, first) := ApplyTask(t, owner, id, key, c);
            ApplyTask(PerformAll(after, between), owner', id, key, c').1 == Success(first.value.(duplicate := true))
  {
    RecordsAreFinal(ApplyTask(t, owner, id, key, c).0, between, key);
  }

  // ---- what a reservation protects

  /** Only a delivery with this row's candidate, digest and journal moves a reserved workflow. */
  lemma ReservedMoves(t: Tables, candidate: CandidateId, c: Call)
    requires Constrained(t) && candidate in t.reservations
    ensures var row := t.reservations[candidate];
            WorkflowAt(Perform(t, c), row.workflow) != WorkflowAt(t, row.workflow) ==>
              && row.journal.Some? && c.CallDeliver?
              && c == CallDeliver(row.workflow, candidate, row.candidateDigest, row.journal.value, c.key)
              && candidate !in Perform(t, c).reservations
  {
    hide W.Applied, T.Applied, WorkflowEvents, TaskEvents, ValidKey;
  }

  /** The row is there before and after every call of the run. */
  ghost predicate KeepsRow(t: Tables, cs: seq<Call>, candidate: CandidateId)
    decreases |cs|
  {
    candidate in t.reservations && (cs != [] ==> KeepsRow(Perform(t, cs[0]), cs[1..], candidate))
  }

  lemma RowsKeepTheirWorkflow(t: Tables, c: Call, candidate: CandidateId)
    requires candidate in t.reservations && candidate in Perform(t, c).reservations
    ensures Perform(t, c).reservations[candidate].workflow == t.reservations[candidate].workflow
    ensures Perform(t, c).reservations[candidate].candidateDigest == t.reservations[candidate].candidateDigest
  {
    hide W.Applied, T.Applied, WorkflowEvents, TaskEvents, ValidKey;
  }

  /** While a row stands, its workflow does not change, whatever else is called. */
  lemma {:induction false} ReservedStands(t: Tables, cs: seq<Call>, candidate: CandidateId)
    requires Constrained(t) && KeepsRow(t, cs, candidate)
    ensures var id := t.reservations[candidate].workflow; WorkflowAt(PerformAll(t, cs), id) == WorkflowAt(t, id)
    decreases |cs|
  {
    hide Constrained, Perform, WorkflowAt;
    if cs != [] {
      ReservedMoves(t, candidate, cs[0]);
      RowsKeepTheirWorkflow(t, cs[0], candidate);
      ConstrainedKept(t, cs[0]);
      ReservedStands(Perform(t, cs[0]), cs[1..], candidate);
    }
  }

  /** What a row says of its journal changes only from what the caller expected. */
  lemma JournalIsSwapped(t: Tables, candidate: CandidateId, c: Call)
    requires candidate in t.reservations && candidate in Perform(t, c).reservations
    ensures var before, after := t.reservations[candidate].journal, Perform(t, c).reservations[candidate].journal;
            after != before ==>
                c.CallBind? && c.candidate == candidate && c.expected == before && after == Some(c.journal)
  {
    hide W.Applied, T.Applied, WorkflowEvents, TaskEvents, ValidKey;
  }
}
