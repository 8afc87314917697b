/**
 Promotion end to end: the delivery protocol bound to its reservation row
 (crates/workflowd/src/candidate.rs:326-371, 496-572), the handler of
 `PromoteCandidate` (crates/workflowd/src/lifecycle.rs:519-701), and runs of many
 interrupted attempts.
 */
module Promotion {
  import opened Wrappers
  import opened FileTree
  import opened RollbackSpec
  import opened DeliverySpec
  import opened DeliveryConditions
  import opened Staging
  import opened Recovery
  import S = CommandStore
  import T = TaskMachine
  import W = WorkflowMachine

  /** The workflow and the candidate one delivery belongs to. */
  datatype Ticket = Ticket(workflow: S.WorkflowId, candidate: CandidateId, digest: Digest)

  /** The key under which the handler records the delivery. */
  type Key = k: string | S.ValidKey(k) witness "delivery"

  /** A journal on disk always has its digest in the reservation row, and while a
      journal or a marker is on disk the row is there and holds a digest. */
  ghost predicate Bound(disk: Disk, store: S.Store, t: Ticket)
    reads disk`journal, disk`marker, store`reservations
  {
    && (disk.journal.Some? || disk.marker ==>
          t.candidate in store.reservations
          && store.reservations[t.candidate].workflow == t.workflow
          && store.reservations[t.candidate].candidateDigest == t.digest
          && store.reservations[t.candidate].journal.Some?)
    && (disk.journal.Some? ==> store.reservations[t.candidate].journal == Some(disk.journalHash(disk.journal.value)))
  }

  /** The random part of the next journal's file names is new. */
  ghost predicate FreshNonce(d: Delivery, nonce: string) {
    ValidNonce(nonce) && forall kind, i :: Adjacent(d.manifest.candidate, nonce, kind, i) !in d.origin
  }

  /** The row of this delivery, holding `journal`. */
  function Row(t: Ticket, journal: Option<Digest>): S.Reservation {
    S.Reservation(t.workflow, t.digest, journal)
  }

  /** Only the journal digest of this delivery's row has changed. */
  ghost predicate OnlyRow(t: Ticket, before: map<CandidateId, S.Reservation>, after: map<CandidateId, S.Reservation>) {
    && before.Keys == after.Keys && t.candidate in after
    && (forall c :: c in after && c != t.candidate ==> after[c] == before[c])
    && after[t.candidate] == Row(t, after[t.candidate].journal)
    && (before[t.candidate].journal.Some? ==> after[t.candidate].journal.Some?)
  }

  /** An undisturbed promotion from a settled tree goes through: the tree is already as
      approved and there is a digest to record, or it can be delivered from. */
  ghost predicate Goes(disk: Disk, m: Manifest, payload: Payload, hasDigest: bool, git: Answers)
    reads disk`files, disk`dirs
  {
    if AllPromoted(disk.hash, m, payload, disk.files, disk.dirs) then hasDigest
    else Deliverable(disk.hash, m, git, disk.files, disk.dirs)
  }

  /** `apply_payload`, with the reservation row in place of the binding callback. */
  method ApplyPayload(disk: Disk, store: S.Store, t: Ticket, m: Manifest, payload: Payload, expected: Option<Digest>,
                      git: Answers,
                      ghost d: Delivery, ghost committed: bool)
    returns (r: Step<Digest>, ghost committed': bool)
    requires Consistent(disk, d, committed) && Bound(disk, store, t)
    requires d.manifest == m && d.payload == payload && SafePaths(m) && git.flaky == {} && FreshNonce(d, git.nonce)
    requires t.candidate in store.reservations && store.reservations[t.candidate] == Row(t, expected)
    modifies disk`files, disk`dirs, disk`journal, disk`marker, disk`script, store`reservations
    ensures Consistent(disk, d, committed') && Bound(disk, store, t) && (committed ==> committed')
    ensures OnlyRow(t, old(store.reservations), store.reservations)
    ensures r.Ok? ==>
              Settled(disk) && disk.files == ApprovedFiles(d)
              && store.reservations[t.candidate] == Row(t, Some(r.value))
    ensures committed && old(disk.Reliable()) ==>
              (r.Ok? <==> expected.Some? || m.payloadDigest.Some?)
    ensures DirsGrew(m, old(disk.dirs), disk.dirs)
    ensures !committed && old(disk.Reliable() && Settled(disk)) ==>
              (r.Ok? <==> old(Goes(disk, m, payload, expected.Some? || m.payloadDigest.Some?, git)))
    ensures !committed && old(disk.Reliable()) && (expected.Some? || m.payloadDigest.Some?) ==>
              Deliverable(disk.hash, m, git, d.origin, old(disk.dirs)) ==> r.Ok?
    ensures old(disk.Reliable()) ==> disk.Reliable() && !r.Crash? && Settled(disk) && (r.Ok? || committed' == committed)
  {
    hide ApprovedFiles, GitAgrees, NoFileAbove, ParentsInOrder, AllPromoted, ValidDelivery, Captured, Pending,
           Committed;
    committed' := committed;
    ghost var dirs0 := disk.dirs;
    var recovered := Recover(disk, m, payload, expected, git.flaky, d, committed);
    if !recovered.Ok? { return recovered.PropagateFailure(), committed; }
    if Deliverable(disk.hash, m, git, d.origin, dirs0) {
      StaysDeliverable(disk.hash, m, git, d.origin, dirs0, disk.dirs);
    }
    r, committed' := ApplySettled(disk, store, t, m, payload, expected, git, d, committed);
  }

  /** The rest of `apply_payload`, with nothing left to recover. */
  method ApplySettled(disk: Disk, store: S.Store, t: Ticket, m: Manifest, payload: Payload, expected: Option<Digest>,
                      git: Answers,
                      ghost d: Delivery, ghost committed: bool)
    returns (r: Step<Digest>, ghost committed': bool)
    requires Consistent(disk, d, committed) && Settled(disk)
    requires d.manifest == m && d.payload == payload && SafePaths(m) && git.flaky == {} && FreshNonce(d, git.nonce)
    requires t.candidate in store.reservations && store.reservations[t.candidate] == Row(t, expected)
    modifies disk`files, disk`dirs, disk`journal, disk`marker, disk`script, store`reservations
    ensures Consistent(disk, d, committed') && Bound(disk, store, t) && (committed ==> committed')
    ensures OnlyRow(t, old(store.reservations), store.reservations)
    ensures r.Ok? ==>
              Settled(disk) && disk.files == ApprovedFiles(d)
              && store.reservations[t.candidate] == Row(t, Some(r.value))
    ensures committed && old(disk.Reliable()) ==>
              (r.Ok? <==> expected.Some? || m.payloadDigest.Some?)
    ensures DirsGrew(m, old(disk.dirs), disk.dirs)
    ensures !committed && old(disk.Reliable()) ==>
              (r.Ok? <==> old(Goes(disk, m, payload, expected.Some? || m.payloadDigest.Some?, git)))
    ensures old(disk.Reliable()) ==> disk.Reliable() && !r.Crash? && Settled(disk) && (r.Ok? || committed' == committed)
  {
    hide Captured, Pending, EverySlot, Committed, EntryPromoted, ApprovedFiles, GitAgrees, NoFileAbove, ParentsInOrder;
    committed' := committed;
    if committed { CommittedVerifies(disk, d); }
    var promoted := VerifyPromoted(disk, m, payload);
    if !promoted.Ok? { return promoted.PropagateFailure(), committed; }
    if promoted.value {
      PromotedIsApproved(disk, d, committed);
      if expected.None? && m.payloadDigest.None? { return Err, committed; }
      var digest := if expected.Some? then expected.value else m.payloadDigest.value;
      var bound := BindRow(disk, store, t, expected, digest);
      if !bound.Ok? { return bound.PropagateFailure(), committed; }
      return Ok(digest), committed;
    }
    var journal := PrepareJournal(disk, store, t, m, payload, expected, git, d);
    if !journal.Ok? { return journal.PropagateFailure(), committed; }
    r, committed' := Promote(disk, m, payload, journal.value, git, d);
  }

  /** The preimage check and the capture of the journal. */
  method CaptureFresh(disk: Disk, m: Manifest, payload: Payload, git: Answers, ghost d: Delivery)
    returns (r: Step<Journal>)
    requires ValidDelivery(disk.hash, d) && disk.files == d.origin
    requires d.manifest == m && d.payload == payload && FreshNonce(d, git.nonce)
    modifies disk`script
    ensures r.Ok? ==> && Captured(disk.hash, d, r.value) && Pending(d, r.value, disk.files)
                      && EverySlot(d, r.value, disk.files, Untouched)
                      && |r.value.files| == |m.files|
                      && (forall i :: 0 <= i < |m.files| ==>
                            r.value.files[i].path == m.files[i].path && m.files[i].path !in disk.dirs)
                      && GitAgrees(disk.hash, m, git, disk.files, disk.dirs) && NoFileAbove(m, disk.files, disk.dirs)
    ensures old(disk.Reliable()) ==>
              && disk.Reliable() && !r.Crash?
              && (GitAgrees(disk.hash, m, git, disk.files, disk.dirs) && NoFileAbove(m, disk.files, disk.dirs) ==>
                  r.Ok?)
  {
    hide Captured, Pending, EverySlot, BaseHolds, NoFileAbove;
    var _ :- disk.Call();
    var _ :- ValidatePreimage(disk, m, git);
    var j :- CaptureJournal(disk, m, git);
    CapturedFromTree(disk, m, payload, git, j);
    FreshIsPending(disk.hash, d, j);
    CapturedShape(disk.hash, d, j);
    r := Ok(j);
  }

  /** From the preimage check to the published journal. */
  method PrepareJournal(disk: Disk, store: S.Store, t: Ticket, m: Manifest, payload: Payload, expected: Option<Digest>,
                        git: Answers,
                        ghost d: Delivery)
    returns (r: Step<Journal>)
    requires Consistent(disk, d, false) && Settled(disk)
    requires d.manifest == m && d.payload == payload && FreshNonce(d, git.nonce)
    requires t.candidate in store.reservations && store.reservations[t.candidate] == Row(t, expected)
    modifies disk`journal, disk`script, store`reservations
    ensures Consistent(disk, d, false) && Bound(disk, store, t)
    ensures OnlyRow(t, old(store.reservations), store.reservations)
    ensures r.Ok? ==> Live(disk, d, r.value) && EverySlot(d, r.value, disk.files, Untouched)
                      && store.reservations[t.candidate] == Row(t, Some(disk.journalHash(r.value)))
                      && GitAgrees(disk.hash, m, git, disk.files, disk.dirs) && NoFileAbove(m, disk.files, disk.dirs)
    ensures old(disk.Reliable()) ==>
              && disk.Reliable() && !r.Crash?
              && (r.Ok? || Settled(disk))
              && (GitAgrees(disk.hash, m, git, disk.files, disk.dirs) && NoFileAbove(m, disk.files, disk.dirs) ==>
                  r.Ok?)
  {
    hide GitAgrees, NoFileAbove;
    hide Captured, Pending, EverySlot, ValidDelivery;
    var j :- CaptureFresh(disk, m, payload, git, d);
    var _ :- BindRow(disk, store, t, expected, disk.journalHash(j));
    var _ :- PublishJournal(disk, j);
    var _ :- disk.Call();
    r := Ok(j);
  }

  /** Staging, installing and committing under a published journal. */
  method Promote(disk: Disk, m: Manifest, payload: Payload, j: Journal, git: Answers, ghost d: Delivery)
    returns (r: Step<Digest>, ghost committed: bool)
    requires Live(disk, d, j) && EverySlot(d, j, disk.files, Untouched)
    requires d.manifest == m && d.payload == payload && git.flaky == {}
    modifies disk`files, disk`dirs, disk`journal, disk`marker, disk`script
    ensures Consistent(disk, d, committed) && disk.journal in {Some(j), None}
    ensures r.Ok? ==> committed && Settled(disk) && r.value == disk.journalHash(j)
    ensures DirsGrew(m, old(disk.dirs), disk.dirs)
    ensures r.Ok? ==> NoFileAbove(m, d.origin, old(disk.dirs)) && ParentsInOrder(m, old(disk.dirs))
    ensures old(disk.Reliable()) ==> disk.Reliable() && !r.Crash?
    ensures old(disk.Reliable()) ==> committed == r.Ok?
    ensures old(disk.Reliable()) && NoFileAbove(m, d.origin, old(disk.dirs)) ==>
              Settled(disk) && (ParentsInOrder(m, old(disk.dirs)) ==> r.Ok?)
  {
    committed := false;
    var applied := ApplyStaged(disk, m, payload, j, git.flaky, d);
    if !applied.Ok? { return applied.PropagateFailure(), false; }
    var done;
    done, committed := Commit(disk, j, git.flaky, d);
    r := if done.Ok? then Ok(disk.journalHash(j)) else done.PropagateFailure();
  }

  /** The binding callback of the handler. */
  method BindRow(disk: Disk, store: S.Store, t: Ticket, expected: Option<Digest>, digest: Digest) returns (r: Step<()>)
    requires t.candidate in store.reservations && store.reservations[t.candidate] == Row(t, expected)
    modifies disk`script, store`reservations
    ensures store.reservations in {old(store.reservations),
              old(store.reservations)[t.candidate := Row(t, Some(digest))]}
    ensures r.Ok? ==> store.reservations[t.candidate] == Row(t, Some(digest))
    ensures old(disk.Reliable()) ==> disk.Reliable() && r.Ok?
  {
    var _ :- disk.Call();
    var bound := store.BindJournal(t.workflow, t.candidate, t.digest, expected, digest);
    r := if bound.Success? then Ok(()) else Err;
  }

  /** Before anything is staged, a published journal describes an untouched tree. */
  lemma FreshIsPending(hash: Hash, d: Delivery, j: Journal)
    requires Captured(hash, d, j)
    ensures Pending(d, j, d.origin) && EverySlot(d, j, d.origin, Untouched)
  {
    forall i | 0 <= i < |j.files| ensures SlotOf(d.origin, j, i) == Untouched(Origin(d, i), Approved(d, i)) {
      assert Temp(j, Backup, i) !in d.origin && Temp(j, Incoming, i) !in d.origin && Temp(j, Aside, i) !in d.origin;
    }
  }

  // ---- the handler

  /** The workflow waits for, or has completed, the delivery of this candidate. */
  predicate Awaiting(w: W.Workflow, t: Ticket) {
    (w.state.Delivery? || w.state.Completed?) && w.candidate == Some(t.candidate)
  }

  /** The workflow has no reservation for another candidate, and the row of this
      candidate, if any, is this delivery's. */
  predicate RowIsFree(tables: S.Tables, t: Ticket) {
    if t.candidate in tables.reservations then
      tables.reservations[t.candidate].workflow == t.workflow
      && tables.reservations[t.candidate].candidateDigest == t.digest
    else t.workflow in tables.workflows && !S.Reserved(tables, t.workflow)
  }

  /** The workflow is completed, with this candidate as the one its gates were passed for. */
  predicate Delivered(tables: S.Tables, t: Ticket) {
    S.WorkflowAt(tables, t.workflow).state.Completed? && S.WorkflowAt(tables, t.workflow).candidate == Some(t.candidate)
  }

  /** A journal digest to deliver under: from the row, or from the manifest. */
  predicate HasDigest(tables: S.Tables, t: Ticket, m: Manifest) {
    (t.candidate in tables.reservations && tables.reservations[t.candidate].journal.Some?) || m.payloadDigest.Some?
  }

  /** The store lets the delivery of this ticket be recorded. */
  predicate Concludable(tables: S.Tables, t: Ticket, key: Key) {
    && t.workflow in tables.workflows && Awaiting(tables.workflows[t.workflow], t)
    && (tables.workflows[t.workflow].state.Completed? || key !in tables.deduplication)
  }

  /** While the row is held its workflow awaits the delivery, and the delivery's key
      is used by nothing but the delivery. */
  ghost predicate Held(tables: S.Tables, t: Ticket, key: Key) {
    && (t.candidate in tables.reservations && tables.reservations[t.candidate].workflow == t.workflow ==>
          t.workflow in tables.workflows && Awaiting(tables.workflows[t.workflow], t))
    && (key in tables.deduplication ==> S.WorkflowAt(tables, t.workflow).state.Completed?)
  }

  /** The workflow awaits this candidate, and its row is free for it. */
  predicate CanTry(tables: S.Tables, t: Ticket) {
    t.workflow in tables.workflows && Awaiting(tables.workflows[t.workflow], t) && RowIsFree(tables, t)
  }

  lemma ConcludableAwaits(tables: S.Tables, t: Ticket, key: Key)
    ensures Concludable(tables, t, key) ==> t.workflow in tables.workflows && Awaiting(tables.workflows[t.workflow], t)
  {
  }

  /** For an awaiting workflow, the rows decide neither. */
  lemma WorkflowsDecide(before: S.Tables, after: S.Tables, t: Ticket, key: Key)
    requires after.workflows == before.workflows && after.deduplication == before.deduplication
    requires t.workflow in before.workflows && Awaiting(before.workflows[t.workflow], t)
    ensures Concludable(after, t, key) == Concludable(before, t, key)
    ensures Held(before, t, key) ==> Held(after, t, key)
  {
  }

  /** What the handler may leave in the store and on disk, whatever interrupts it. */
  ghost predicate Settles(disk: Disk, store: S.Store, t: Ticket, d: Delivery, committed: bool)
    reads disk`files, disk`dirs, disk`journal, disk`marker, store`reservations
  {
    Consistent(disk, d, committed) && Bound(disk, store, t)
  }

  lemma PayloadIsGood(disk: Disk, d: Delivery, committed: bool)
    requires Consistent(disk, d, committed)
    ensures PayloadMatches(disk.hash, d.manifest, d.payload)
  {
  }

  /** `promote_bound`: head and payload checks in front of `apply_payload`. */
  method PromoteBound(disk: Disk, store: S.Store, t: Ticket, m: Manifest, payload: Payload, headMatches: bool,
                      expected: Option<Digest>,
                      git: Answers, ghost d: Delivery, ghost committed: bool)
    returns (r: Step<Digest>, ghost committed': bool)
    requires Settles(disk, store, t, d, committed)
    requires d.manifest == m && d.payload == payload && SafePaths(m) && git.flaky == {} && FreshNonce(d, git.nonce)
    requires t.candidate in store.reservations && store.reservations[t.candidate] == Row(t, expected)
    modifies disk`files, disk`dirs, disk`journal, disk`marker, disk`script, store`reservations
    ensures Settles(disk, store, t, d, committed') && (committed ==> committed')
    ensures OnlyRow(t, old(store.reservations), store.reservations)
    ensures r.Ok? ==>
              headMatches && Settled(disk) && disk.files == ApprovedFiles(d)
              && store.reservations[t.candidate] == Row(t, Some(r.value))
    ensures committed && old(disk.Reliable()) ==>
              (r.Ok? <==> headMatches && (expected.Some? || m.payloadDigest.Some?))
    ensures DirsGrew(m, old(disk.dirs), disk.dirs)
    ensures old(disk.Reliable()) ==>
              disk.Reliable() && !r.Crash? && (headMatches ==> Settled(disk)) && (r.Ok? || committed' == committed)
    ensures !committed && old(disk.Reliable() && Settled(disk)) ==>
              (r.Ok? <==> headMatches && old(Goes(disk, m, payload, expected.Some? || m.payloadDigest.Some?, git)))
    ensures !committed && old(disk.Reliable()) && headMatches && (expected.Some? || m.payloadDigest.Some?) ==>
              Deliverable(disk.hash, m, git, d.origin, old(disk.dirs)) ==> r.Ok?
  {
    hide Deliverable, AllPromoted;
    PayloadIsGood(disk, d, committed);
    committed' := committed;
    var _ :- disk.Call();
    if !headMatches || !PayloadMatches(disk.hash, m, payload) { return Err, committed; }
    r, committed' := ApplyPayload(disk, store, t, m, payload, expected, git, d, committed);
  }

  /** After a failed promotion: the reservation goes unless a recovery is required. */
  method ReleaseUnlessRecoverable(disk: Disk, store: S.Store, t: Ticket) returns (ghost calls: seq<S.Call>)
    requires store.readWrite && Bound(disk, store, t)
    modifies disk`script, store`reservations
    ensures Bound(disk, store, t)
    ensures store.View() == S.PerformAll(old(store.View()), calls)
    ensures store.reservations in {old(store.reservations), old(store.reservations) - {t.candidate}}
    ensures old(disk.Reliable()) && Settled(disk) && t.candidate in old(store.reservations)
            && old(store.reservations[t.candidate]) == Row(t, old(store.reservations[t.candidate]).journal) ==>
              t.candidate !in store.reservations
  {
    calls := [];
    ghost var t0 := store.View();
    // An error while looking for the journal or the marker counts as "required".
    var looked := disk.Call();
    if looked.Ok? && disk.journal.None? && !disk.marker {
      var open := disk.Call();
      if open.Ok? {
        var _ := store.ReleaseDelivery(t.workflow, t.candidate, t.digest);
        calls := [S.CallRelease(t.workflow, t.candidate, t.digest)];
        assert S.PerformAll(t0, calls) == S.Perform(t0, calls[0]);
      }
    }
  }

  /**
   `PromoteCandidate`.  `bound` says that candidate, approved verdict and workflow
   belong together.  The last two results describe the call: whether the delivery
   is committed, and the store calls that took effect.
   */
  method PromoteCandidate(disk: Disk, store: S.Store, t: Ticket, m: Manifest, payload: Payload, bound: bool,
                          headMatches: bool,
                          git: Answers, key: Key, ghost d: Delivery, ghost committed: bool)
    returns (r: Step<W.State>, ghost committed': bool, ghost calls: seq<S.Call>)
    requires Settles(disk, store, t, d, committed) && store.readWrite
    requires d.manifest == m && d.payload == payload && SafePaths(m) && git.flaky == {} && FreshNonce(d, git.nonce)
    modifies disk`files, disk`dirs, disk`journal, disk`marker, disk`script, store
    ensures Settles(disk, store, t, d, committed') && (committed ==> committed')
    ensures store.View() == S.PerformAll(old(store.View()), calls)
    ensures r.Ok? ==> && Settled(disk) && disk.files == ApprovedFiles(d)
                      && t.candidate !in store.reservations
                      && r.value == W.Completed && Delivered(store.View(), t) && bound && headMatches
    ensures !bound ==>
              disk.files == old(disk.files) && disk.journal == old(disk.journal) && store.View() == old(store.View())
    ensures committed && old(disk.Reliable()) ==>
              (r.Ok? <==>
                  bound && headMatches
                  && old(Concludable(store.View(), t, key) && RowIsFree(store.View(), t)
                      && HasDigest(store.View(), t, m)))
    ensures DirsGrew(m, old(disk.dirs), disk.dirs)
    ensures old(disk.Reliable() && CanTry(store.View(), t)) && bound && headMatches ==>
              && Settled(disk) && !r.Crash?
              && (old(Concludable(store.View(), t, key)) ==>
                    t.candidate !in store.reservations && (r.Ok? || committed' == committed))
    ensures !committed && old(disk.Reliable() && Settled(disk)) ==>
              (r.Ok? <==>
                  bound && headMatches && old(Concludable(store.View(), t, key) && RowIsFree(store.View(), t))
                  && old(Goes(disk, m, payload, HasDigest(store.View(), t, m), git)))
    ensures !committed && old(disk.Reliable()) && bound && headMatches
            && old(Concludable(store.View(), t, key) && RowIsFree(store.View(), t) && HasDigest(store.View(), t, m)) ==>
              Deliverable(disk.hash, m, git, d.origin, old(disk.dirs)) ==> r.Ok?
    ensures old(Held(store.View(), t, key)) ==> Held(store.View(), t, key)
  {
    hide Consistent, W.Applied, ApprovedFiles, Held, Concludable, HasDigest, RowIsFree, Deliverable, AllPromoted,
         Bound, DirsGrew;
    committed', calls := committed, [];
    SameDirs(m, disk.dirs);
    var _ :- disk.Call();
    ConcludableAwaits(store.View(), t, key);
    if t.workflow !in store.workflows || !Awaiting(store.workflows[t.workflow], t) || !bound {
      return Err, committed', calls;
    }
    r, committed', calls := PromoteAwaiting(disk, store, t, m, payload, headMatches, git, key, d, committed);
  }

  /** The handler for a workflow that awaits this candidate. */
  method PromoteAwaiting(disk: Disk, store: S.Store, t: Ticket, m: Manifest, payload: Payload, headMatches: bool,
                         git: Answers, key: Key, ghost d: Delivery, ghost committed: bool)
    returns (r: Step<W.State>, ghost committed': bool, ghost calls: seq<S.Call>)
    requires Settles(disk, store, t, d, committed) && store.readWrite
    requires t.workflow in store.workflows && Awaiting(store.workflows[t.workflow], t)
    requires d.manifest == m && d.payload == payload && SafePaths(m) && git.flaky == {} && FreshNonce(d, git.nonce)
    modifies disk`files, disk`dirs, disk`journal, disk`marker, disk`script, store
    ensures Settles(disk, store, t, d, committed') && (committed ==> committed')
    ensures store.View() == S.PerformAll(old(store.View()), calls)
    ensures r.Ok? ==> && Settled(disk) && disk.files == ApprovedFiles(d)
                      && t.candidate !in store.reservations
                      && r.value == W.Completed && Delivered(store.View(), t) && headMatches
    ensures committed && old(disk.Reliable()) ==>
              (r.Ok? <==>
                  headMatches
                  && old(Concludable(store.View(), t, key) && RowIsFree(store.View(), t)
                      && HasDigest(store.View(), t, m)))
    ensures DirsGrew(m, old(disk.dirs), disk.dirs)
    ensures old(disk.Reliable() && RowIsFree(store.View(), t)) && headMatches ==>
              && Settled(disk) && !r.Crash?
              && (old(Concludable(store.View(), t, key)) ==>
                    t.candidate !in store.reservations && (r.Ok? || committed' == committed))
    ensures !committed && old(disk.Reliable() && Settled(disk)) ==>
              (r.Ok? <==>
                  headMatches && old(Concludable(store.View(), t, key) && RowIsFree(store.View(), t))
                  && old(Goes(disk, m, payload, HasDigest(store.View(), t, m), git)))
    ensures !committed && old(disk.Reliable()) && headMatches
            && old(Concludable(store.View(), t, key) && RowIsFree(store.View(), t) && HasDigest(store.View(), t, m)) ==>
              Deliverable(disk.hash, m, git, d.origin, old(disk.dirs)) ==> r.Ok?
    ensures old(Held(store.View(), t, key)) ==> Held(store.View(), t, key)
  {
    hide Consistent, W.Applied, ApprovedFiles, Held, Concludable, HasDigest, RowIsFree, Deliverable, AllPromoted,
         Bound, DirsGrew;
    ghost var t0 := store.View();
    var reserved, promotion;
    reserved, promotion, committed', calls :=
        ReserveAndPromote(disk, store, t, m, payload, headMatches, git, d, committed);
    if !reserved { return Err, committed', calls; }
    WorkflowsDecide(t0, store.View(), t, key);
    if promotion.Crash? { return Crash, committed', calls; }
    ghost var more;
    if promotion.Err? {
      ghost var t1 := store.View();
      more := ReleaseUnlessRecoverable(disk, store, t);
      WorkflowsDecide(t1, store.View(), t, key);
      r := Err;
    } else {
      r, more := ConcludeDelivery(disk, store, t, promotion.value, key);
    }
    PerformAppended(t0, calls, more);
    calls := calls + more;
  }

  /** The first half of the handler: a reservation, and the promotion under it. */
  method ReserveAndPromote(disk: Disk, store: S.Store, t: Ticket, m: Manifest, payload: Payload, headMatches: bool,
                           git: Answers, ghost d: Delivery, ghost committed: bool)
    returns (reserved: bool, promotion: Step<Digest>, ghost committed': bool, ghost calls: seq<S.Call>)
    requires Settles(disk, store, t, d, committed) && store.readWrite
    requires d.manifest == m && d.payload == payload && SafePaths(m) && git.flaky == {} && FreshNonce(d, git.nonce)
    modifies disk`files, disk`dirs, disk`journal, disk`marker, disk`script, store`reservations
    ensures Settles(disk, store, t, d, committed') && (committed ==> committed')
    ensures store.View() == S.PerformAll(old(store.View()), calls)
    ensures reserved <==> old(RowIsFree(store.View(), t))
    ensures !reserved ==> promotion.Err? && calls == []
    ensures committed && old(disk.Reliable()) && reserved ==>
              (promotion.Ok? <==> headMatches && old(HasDigest(store.View(), t, m)))
    ensures DirsGrew(m, old(disk.dirs), disk.dirs)
    ensures old(disk.Reliable()) ==>
              disk.Reliable() && !promotion.Crash? && (reserved && headMatches ==> Settled(disk))
              && (promotion.Ok? || committed' == committed)
    ensures reserved ==>
              t.candidate in store.reservations
              && store.reservations[t.candidate] == Row(t, store.reservations[t.candidate].journal)
    ensures !committed && old(disk.Reliable() && Settled(disk)) && reserved ==>
              (promotion.Ok? <==> headMatches && old(Goes(disk, m, payload, HasDigest(store.View(), t, m), git)))
    ensures !committed && old(disk.Reliable() && HasDigest(store.View(), t, m)) && headMatches && reserved ==>
              Deliverable(disk.hash, m, git, d.origin, old(disk.dirs)) ==> promotion.Ok?
    ensures promotion.Ok? ==> && headMatches && Settled(disk) && disk.files == ApprovedFiles(d)
                              && t.candidate in store.reservations
                              && store.reservations[t.candidate] == Row(t, Some(promotion.value))
  {
    hide Consistent, W.Applied, ApprovedFiles;
    committed', calls := committed, [];
    ghost var t0 := store.View();
    var row := store.ReserveDelivery(t.workflow, t.candidate, t.digest);
    reserved := row.Success?;
    if !reserved { return false, Err, committed', calls; }
    calls := [S.CallReserve(t.workflow, t.candidate, t.digest)];
    ghost var t1 := store.View();
    assert S.PerformAll(t0, calls) == t1;
    var expected := store.JournalDigest(t.workflow, t.candidate);
    promotion, committed' := PromoteBound(disk, store, t, m, payload, headMatches, expected, git, d, committed);
    calls := calls + Bindings(t, t1.reservations, store.reservations);
    BindingsPerformed(t, t0, t1, store.View(), calls);
  }

  /** The last store step of the handler: deliver, or free the row of a workflow
      that had been delivered before. */
  method ConcludeDelivery(disk: Disk, store: S.Store, t: Ticket, journal: Digest, key: Key)
    returns (r: Step<W.State>, ghost calls: seq<S.Call>)
    requires store.readWrite && Settled(disk)
    requires t.candidate in store.reservations && store.reservations[t.candidate] == Row(t, Some(journal))
    modifies disk`script, store
    ensures store.View() == S.PerformAll(old(store.View()), calls)
    ensures r.Ok? ==> t.candidate !in store.reservations && r.value == W.Completed
                      && Delivered(store.View(), t)
    ensures old(disk.Reliable()) ==> !r.Crash? && (r.Ok? <==> old(Concludable(store.View(), t, key)))
    ensures Bound(disk, store, t)
    ensures old(Held(store.View(), t, key)) ==> Held(store.View(), t, key)
  {
    calls := [];
    ghost var t0 := store.View();
    var _ :- disk.Call();
    if t.workflow !in store.workflows || !Awaiting(store.workflows[t.workflow], t) { return Err, calls; }
    if store.workflows[t.workflow].state.Completed? {
      var _ := store.ReleaseDelivery(t.workflow, t.candidate, t.digest);
      calls := [S.CallRelease(t.workflow, t.candidate, t.digest)];
      assert S.PerformAll(t0, calls) == S.Perform(t0, calls[0]);
      return Ok(store.workflows[t.workflow].state), calls;
    }
    var delivered := store.DeliverReserved(t.workflow, t.candidate, t.digest, journal, key);
    calls := [S.CallDeliver(t.workflow, t.candidate, t.digest, journal, key)];
    assert S.PerformAll(t0, calls) == S.Perform(t0, calls[0]);
    r := if delivered.Success? then Ok(delivered.value.state.state) else Err;
  }

  /** The binding call that turns one state of the rows into the other, if any. */
  ghost function Bindings(t: Ticket, before: map<CandidateId, S.Reservation>,
                          after: map<CandidateId, S.Reservation>): seq<S.Call>
    requires t.candidate in before && t.candidate in after
  {
    if after[t.candidate] == before[t.candidate] || after[t.candidate].journal.None? then []
    else [S.CallBind(t.workflow, t.candidate, t.digest, before[t.candidate].journal, after[t.candidate].journal.value)]
  }

  lemma PerformAppended(tables: S.Tables, calls: seq<S.Call>, more: seq<S.Call>)
    ensures S.PerformAll(tables, calls + more) == S.PerformAll(S.PerformAll(tables, calls), more)
    decreases |calls|
  {
    if calls == [] {
      assert calls + more == more;
    } else {
      assert (calls + more)[1..] == calls[1..] + more;
      PerformAppended(S.Perform(tables, calls[0]), calls[1..], more);
    }
  }

  lemma BindingsPerformed(t: Ticket, t0: S.Tables, t1: S.Tables, t2: S.Tables, calls: seq<S.Call>)
    requires t1 == S.PerformAll(t0, [S.CallReserve(t.workflow, t.candidate, t.digest)])
    requires t2 == t1.(reservations := t2.reservations) && OnlyRow(t, t1.reservations, t2.reservations)
    requires t1.reservations[t.candidate] == Row(t, t1.reservations[t.candidate].journal)
    requires t2.reservations[t.candidate].journal.None? ==> t1.reservations[t.candidate].journal.None?
    requires calls == [S.CallReserve(t.workflow, t.candidate, t.digest)] + Bindings(t, t1.reservations, t2.reservations)
    ensures t2 == S.PerformAll(t0, calls)
  {
    var reserve := [S.CallReserve(t.workflow, t.candidate, t.digest)];
    var binds := Bindings(t, t1.reservations, t2.reservations);
    if binds == [] {
      assert calls == reserve;
      assert t2.reservations == t1.reservations;
    } else {
      PerformAppended(t0, reserve, binds);
      assert S.PerformAll(t1, binds) == S.Perform(t1, binds[0]);
      assert t2.reservations == t1.reservations[t.candidate := Row(t, t2.reservations[t.candidate].journal)];
    }
  }

  // ---- whole runs

  /** One turn of a run: an attempt under some script of faults, or a command of another client. */
  datatype Turn =
    | Attempt(script: seq<Verdict>, git: Answers, headMatches: bool, bound: bool)
    | WorkflowCommand(id: S.WorkflowId, name: string, command: W.Command)
    | TaskCommand(owner: S.WorkflowId, task: S.TaskId, name: string, instruction: T.Command)

  /** Attempts hash what they roll back and draw new names. */
  ghost predicate Undisputed(d: Delivery, turns: seq<Turn>) {
    forall i :: 0 <= i < |turns| && turns[i].Attempt? ==> turns[i].git.flaky == {} && FreshNonce(d, turns[i].git.nonce)
  }

  /** No other client uses the key of the delivery. */
  predicate LeavesKey(turn: Turn, key: Key) {
    !turn.Attempt? ==> turn.name != key
  }

  /** What is true of the store between the turns. */
  ghost predicate Sound(tables: S.Tables) {
    S.LogAgrees(tables) && S.CompletedOnce(tables) && S.Reachable(tables)
  }

  lemma SoundOverRuns(tables: S.Tables, calls: seq<S.Call>)
    requires Sound(tables)
    ensures Sound(S.PerformAll(tables, calls))
  {
    S.LogAgreesOverRuns(tables, calls);
    S.CompletedOnceOverRuns(tables, calls);
  }

  lemma CompletedRefuses(w: W.Workflow, c: W.Command)
    requires w.state.Completed? && W.Invariant(w)
    ensures W.Applied(w, c).1.Failure?
  {
  }

  lemma CompletedKept(tables: S.Tables, c: S.Call, id: S.WorkflowId)
    requires S.WorkflowAt(tables, id).state.Completed? && W.Invariant(S.WorkflowAt(tables, id))
    ensures S.WorkflowAt(S.Perform(tables, c), id) == S.WorkflowAt(tables, id)
  {
    hide W.Invariant, W.Applied, T.Applied, S.WorkflowEvents, S.TaskEvents, S.ReplayWorkflow, S.ReplayTask, S.ValidKey,
           S.Reserved;
    match c {
      case CallWorkflow(_, _, command) => CompletedRefuses(S.WorkflowAt(tables, id), command);
      case CallDeliver(_, _, _, _, _) => CompletedRefuses(S.WorkflowAt(tables, id), W.Deliver);
      case _ =>
    }
  }

  /** A completed workflow stays as it is. */
  lemma {:induction false} CompletedStays(tables: S.Tables, calls: seq<S.Call>, id: S.WorkflowId)
    requires S.WorkflowAt(tables, id).state.Completed? && S.Reachable(tables) && S.CompletedOnce(tables)
    ensures S.WorkflowAt(S.PerformAll(tables, calls), id) == S.WorkflowAt(tables, id)
    decreases |calls|
  {
    hide W.Applied, W.Invariant, S.CompletedOnce;
    if calls != [] {
      assert W.Invariant(S.WorkflowAt(tables, id));
      CompletedKept(tables, calls[0], id);
      S.CompletedOnceKept(tables, calls[0]);
      CompletedStays(S.Perform(tables, calls[0]), calls[1..], id);
    }
  }

  /** A reserved workflow waits: other clients' commands do not move it. */
  lemma OthersLeaveHeld(tables: S.Tables, c: S.Call, t: Ticket, key: Key)
    requires Held(tables, t, key) && Sound(tables) && (c.CallWorkflow? || c.CallTask?) && c.key != key
    ensures Held(S.Perform(tables, c), t, key) && S.Perform(tables, c).reservations == tables.reservations
  {
    hide W.Applied, W.Invariant, T.Applied, S.LogAgrees, S.CompletedOnce, S.WorkflowEvents, S.TaskEvents,
           S.ReplayWorkflow, S.ReplayTask;
    if S.WorkflowAt(tables, t.workflow).state.Completed? { CompletedKept(tables, c, t.workflow); }
    hide S.Reachable;
  }

  /**
   Any number of attempts, each stopped or disturbed anywhere, with commands of
   other clients in between.  `delivered` says whether some attempt succeeded.
   */
  method DeliveryRun(disk: Disk, store: S.Store, t: Ticket, m: Manifest, payload: Payload, key: Key, turns: seq<Turn>,
                     ghost d: Delivery)
    returns (delivered: bool, ghost committed: bool)
    requires Settled(disk) && disk.files == d.origin && disk.Valid() && ValidDelivery(disk.hash, d)
    requires d.manifest == m && d.payload == payload && SafePaths(m) && store.readWrite && Sound(store.View())
    requires Undisputed(d, turns)
    modifies disk`files, disk`dirs, disk`journal, disk`marker, disk`script, store
    ensures Settles(disk, store, t, d, committed) && Sound(store.View()) && DirsGrew(m, old(disk.dirs), disk.dirs)
    ensures delivered ==> committed || d.origin == ApprovedFiles(d)
    ensures turns == [] ==> store.View() == old(store.View())
    ensures delivered ==>
              Delivered(store.View(), t)
              && S.Completions(store.events, t.workflow) == 1
    ensures old(Held(store.View(), t, key)) && (forall i :: 0 <= i < |turns| ==> LeavesKey(turns[i], key)) ==>
              Held(store.View(), t, key)
  {
    delivered, committed := false, false;
    ghost var held := Held(store.View(), t, key) && forall i :: 0 <= i < |turns| ==> LeavesKey(turns[i], key);
    for i := 0 to |turns|
      invariant held ==> Held(store.View(), t, key)
      invariant i == 0 ==> store.View() == old(store.View())
      invariant Settles(disk, store, t, d, committed) && Sound(store.View()) && DirsGrew(m, old(disk.dirs), disk.dirs)
      invariant delivered ==> committed || d.origin == ApprovedFiles(d)
      invariant delivered ==> Delivered(store.View(), t)
    {
      ghost var tables := store.View();
      var succeeded, committed', calls := TakeTurn(disk, store, t, m, payload, key, turns[i], d, committed);
      SoundOverRuns(tables, calls);
      if delivered { CompletedStays(tables, calls, t.workflow); }
      committed := committed';
      delivered := delivered || succeeded;
    }
  }

  lemma ApprovedAlready(disk: Disk, d: Delivery, committed: bool)
    requires Consistent(disk, d, committed) && Settled(disk) && disk.files == ApprovedFiles(d)
    ensures committed || d.origin == ApprovedFiles(d)
  {
  }

  /** One turn, as a run of store calls. */
  method TakeTurn(disk: Disk, store: S.Store, t: Ticket, m: Manifest, payload: Payload, key: Key, turn: Turn,
                  ghost d: Delivery, ghost committed: bool)
    returns (succeeded: bool, ghost committed': bool, ghost calls: seq<S.Call>)
    requires Settles(disk, store, t, d, committed) && store.readWrite && Sound(store.View())
    requires d.manifest == m && d.payload == payload && SafePaths(m)
    requires turn.Attempt? ==> turn.git.flaky == {} && FreshNonce(d, turn.git.nonce)
    modifies disk`files, disk`dirs, disk`journal, disk`marker, disk`script, store
    ensures Settles(disk, store, t, d, committed') && (committed ==> committed')
    ensures DirsGrew(m, old(disk.dirs), disk.dirs)
    ensures store.View() == S.PerformAll(old(store.View()), calls)
    ensures succeeded ==> committed' || d.origin == ApprovedFiles(d)
    ensures succeeded ==> Delivered(store.View(), t)
    ensures old(Held(store.View(), t, key)) && LeavesKey(turn, key) ==> Held(store.View(), t, key)
  {
    hide W.Applied, Consistent, Held, Sound;
    match turn {
      case Attempt(script, git, headMatches, bound) =>
        disk.script := script;
        var r;
        r, committed', calls :=
            PromoteCandidate(disk, store, t, m, payload, bound, headMatches, git, key, d, committed);
        succeeded := r.Ok?;
        if succeeded { ApprovedAlready(disk, d, committed'); }
      case WorkflowCommand(id, name, command) =>
        ghost var t0 := store.View();
        var _ := store.ApplyWorkflowCommand(id, name, command);
        succeeded, committed', calls := false, committed, [S.CallWorkflow(id, name, command)];
        assert S.PerformAll(t0, calls) == S.Perform(t0, calls[0]);
        if Held(t0, t, key) && name != key { OthersLeaveHeld(t0, calls[0], t, key); }
      case TaskCommand(owner, task, name, instruction) =>
        ghost var t0 := store.View();
        var _ := store.ApplyTaskCommand(owner, task, name, instruction);
        succeeded, committed', calls := false, committed, [S.CallTask(owner, task, name, instruction)];
        assert S.PerformAll(t0, calls) == S.Perform(t0, calls[0]);
        if Held(t0, t, key) && name != key { OthersLeaveHeld(t0, calls[0], t, key); }
    }
  }

  /**
   Crash atomicity: after any such run, a recovery that is not disturbed succeeds
   and leaves exactly the approved file map if the commit marker was ever written
   or a delivery was reported, and exactly the original one otherwise.  Of a run
   that leaves a journal behind, the marker on disk says which.
   */
  method RecoverAfterRun(disk: Disk, store: S.Store, t: Ticket, m: Manifest, payload: Payload, key: Key,
                         turns: seq<Turn>, ghost d: Delivery)
    returns (r: Step<()>, delivered: bool, journalLeft: bool, markerLeft: bool, ghost committed: bool)
    requires Settled(disk) && disk.files == d.origin && disk.Valid() && ValidDelivery(disk.hash, d)
    requires d.manifest == m && d.payload == payload && SafePaths(m) && store.readWrite && Sound(store.View())
    requires Undisputed(d, turns)
    modifies disk`files, disk`dirs, disk`journal, disk`marker, disk`script, store
    ensures r.Ok? && Settled(disk)
    ensures markerLeft ==> disk.files == ApprovedFiles(d)
    ensures journalLeft && !markerLeft ==> disk.files == d.origin
    ensures disk.files == if committed || delivered then ApprovedFiles(d) else d.origin
    ensures S.Completions(store.events, t.workflow) <= 1 && (delivered ==> S.Completions(store.events, t.workflow) == 1)
  {
    hide W.Applied, ApprovedFiles, ValidDelivery, Held, DirsGrew, Captured, Pending, Committed;
    delivered, committed := DeliveryRun(disk, store, t, m, payload, key, turns, d);
    journalLeft, markerLeft := disk.journal.Some?, disk.marker;
    var expected := store.JournalDigest(t.workflow, t.candidate);
    disk.script := [];
    r := Recover(disk, m, payload, expected, {}, d, committed);
  }

  /**
   A committed delivery is delivered: after any such run that leaves the commit marker
   behind, or has written it and still holds its row, one attempt that is not disturbed
   completes the workflow, once, over the approved file map, and frees the row.
   */
  method RetryAfterRun(disk: Disk, store: S.Store, t: Ticket, m: Manifest, payload: Payload, key: Key, turns: seq<Turn>,
                       git: Answers,
                       ghost d: Delivery)
    returns (r: Step<W.State>, markerLeft: bool, rowLeft: bool, ghost committed: bool)
    requires Settled(disk) && disk.files == d.origin && disk.Valid() && ValidDelivery(disk.hash, d)
    requires d.manifest == m && d.payload == payload && SafePaths(m) && store.readWrite && Sound(store.View())
    requires Undisputed(d, turns) && git.flaky == {} && FreshNonce(d, git.nonce)
    requires Held(store.View(), t, key) && forall i :: 0 <= i < |turns| ==> LeavesKey(turns[i], key)
    modifies disk`files, disk`dirs, disk`journal, disk`marker, disk`script, store
    ensures markerLeft ==> committed && rowLeft
    ensures markerLeft || (committed && rowLeft && m.payloadDigest.Some?) ==> r.Ok?
    ensures r.Ok? ==> && Settled(disk) && disk.files == ApprovedFiles(d) && t.candidate !in store.reservations
                      && Delivered(store.View(), t)
                      && S.Completions(store.events, t.workflow) == 1
  {
    hide W.Applied, ApprovedFiles, ValidDelivery;
    var reported;
    reported, committed := DeliveryRun(disk, store, t, m, payload, key, turns, d);
    markerLeft := disk.marker;
    rowLeft := t.candidate in store.reservations && store.reservations[t.candidate].workflow == t.workflow
               && store.reservations[t.candidate].candidateDigest == t.digest;
    disk.script := [];
    ghost var tables := store.View();
    ghost var calls;
    ghost var after;
    r, after, calls := PromoteCandidate(disk, store, t, m, payload, true, true, git, key, d, committed);
    SoundOverRuns(tables, calls);
  }

  /**
   A first attempt that nothing disturbs, in a store that lets the delivery be recorded,
   succeeds exactly when the tree can be delivered from or already is as approved.  Then
   the approved file map is in place and the workflow completed, once; otherwise the
   file map is as it was.  Either way nothing is left to recover and the row is free.
   */
  method FirstAttempt(disk: Disk, store: S.Store, t: Ticket, m: Manifest, payload: Payload, key: Key, git: Answers,
                      ghost d: Delivery)
    returns (r: Step<W.State>)
    requires Settled(disk) && disk.files == d.origin && disk.Valid() && ValidDelivery(disk.hash, d) && disk.Reliable()
    requires d.manifest == m && d.payload == payload && SafePaths(m) && store.readWrite && Sound(store.View())
    requires git.flaky == {} && FreshNonce(d, git.nonce)
    requires Concludable(store.View(), t, key) && RowIsFree(store.View(), t)
    modifies disk`files, disk`dirs, disk`journal, disk`marker, disk`script, store
    ensures r.Ok? <==> old(Goes(disk, m, payload, HasDigest(store.View(), t, m), git))
    ensures Settled(disk) && t.candidate !in store.reservations
    ensures disk.files == if r.Ok? then ApprovedFiles(d) else old(disk.files)
    ensures r.Ok? ==> Delivered(store.View(), t) && S.Completions(store.events, t.workflow) == 1
  {
    hide W.Applied, ApprovedFiles, ValidDelivery, Deliverable, AllPromoted, BaseHolds;
    ghost var tables := store.View();
    ghost var calls;
    ghost var committed;
    r, committed, calls := PromoteCandidate(disk, store, t, m, payload, true, true, git, key, d, false);
    SoundOverRuns(tables, calls);
  }

  /**
   Whatever came before, a delivery that can be made is made: after any number of
   disturbed attempts on a tree that can be delivered from, one attempt that is not
   disturbed completes the workflow, once, over the approved file map, and frees the
   row, provided the store as it was left lets the delivery be recorded.
   */
  method DeliverAfterRun(disk: Disk, store: S.Store, t: Ticket, m: Manifest, payload: Payload, key: Key,
                         turns: seq<Turn>, git: Answers, ghost d: Delivery)
    returns (r: Step<W.State>, ready: bool)
    requires Settled(disk) && disk.files == d.origin && disk.Valid() && ValidDelivery(disk.hash, d)
    requires d.manifest == m && d.payload == payload && SafePaths(m) && store.readWrite && Sound(store.View())
    requires Undisputed(d, turns) && git.flaky == {} && FreshNonce(d, git.nonce)
    modifies disk`files, disk`dirs, disk`journal, disk`marker, disk`script, store
    ensures ready && Deliverable(disk.hash, m, git, old(disk.files), old(disk.dirs)) ==> r.Ok?
    ensures turns == [] ==>
              ready
                  == old(Concludable(store.View(), t, key) && RowIsFree(store.View(), t)
                      && HasDigest(store.View(), t, m))
    ensures r.Ok? ==> && Settled(disk) && disk.files == ApprovedFiles(d) && t.candidate !in store.reservations
                      && Delivered(store.View(), t)
                      && S.Completions(store.events, t.workflow) == 1
  {
    hide W.Applied, ApprovedFiles, ValidDelivery, Deliverable, AllPromoted, BaseHolds;
    ghost var dirs0 := disk.dirs;
    var reported;
    ghost var committed;
    reported, committed := DeliveryRun(disk, store, t, m, payload, key, turns, d);
    var tables := store.View();
    ready := Concludable(tables, t, key) && RowIsFree(tables, t) && HasDigest(tables, t, m);
    disk.script := [];
    if Deliverable(disk.hash, m, git, d.origin, dirs0) {
      StaysDeliverable(disk.hash, m, git, d.origin, dirs0, disk.dirs);
    }
    ghost var calls;
    ghost var after;
    r, after, calls := PromoteCandidate(disk, store, t, m, payload, true, true, git, key, d, committed);
    SoundOverRuns(tables, calls);
  }
}
