/**
 Who is admitted, and for how long a lease or a place in a queue lasts
 (crates/workflowd/src/admission.rs:68-170).
 */
module AdmissionTerms {
  import opened Wrappers
  import opened AdmissionSpec

  /** Until when `w` runs or waits, if it does either. */
  function Ends(s: State, w: WorkflowId): Option<nat> {
    if w in s.active then Some(s.active[w])
    else if w in s.waiting then Some(s.waiting[w])
    else None
  }

  /** The same after one more call, reckoned from the call alone: every request other
      than a release ends `LEASE_MILLIS` after it is made, and what has ended is gone. */
  function EndsAfter(end: Option<nat>, c: Call, w: WorkflowId): Option<nat> {
    match c
    case Drop(x) => if x == w then None else end
    case Execute(op, _, x, _, now) =>
      if x == w then (if op.Release? then None else Some(SaturatingAdd(now, LEASE_MILLIS)))
      else if end.Some? && end.value > now then end
      else None
  }

  function EndsAfterAll(end: Option<nat>, calls: seq<Call>, w: WorkflowId): Option<nat>
    decreases |calls|
  {
    if calls == [] then end else EndsAfterAll(EndsAfter(end, calls[0], w), calls[1..], w)
  }

  // ---- one call

  /** A reap keeps exactly the leases and the waiters that have not ended. */
  lemma ReapedExactly(s: State, now: nat)
    requires s.waiting.Keys !! s.active.Keys
    ensures var t := Reaped(s, now);
            && t.maximum == s.maximum
            && (forall w :: w in t.active <==> w in s.active && s.active[w] > now)
            && (forall w :: w in t.active ==> t.active[w] == s.active[w])
            && (forall w :: w in t.waiting <==> w in s.waiting && s.waiting[w] > now)
            && (forall w :: w in t.waiting ==> t.waiting[w] == s.waiting[w])
  {
    hide SettledProjects, Filter;
    assert forall w :: w in Running(s, now) <==> w in s.active && s.active[w] > now;
    assert forall w :: w in Abandoned(s, now) <==> w in s.waiting && s.waiting[w] <= now;
  }

  lemma RemovedExactly(s: State, w: WorkflowId)
    requires s.waiting.Keys == s.owner.Keys
    ensures var t := Removed(s, w); t.active == s.active - {w} && t.waiting == s.waiting - {w}
  {
    if w !in s.owner { assert s.waiting - {w} == s.waiting; }
  }

  /** It is the turn of a workflow that asks: it stands first of all, or nobody waits. */
  predicate HasTurn(s: State, p: ProjectId, w: WorkflowId) {
    if w in s.waiting then AtFront(s, p, w) else s.rotation == []
  }

  lemma TurnMeans(s: State, p: ProjectId, w: WorkflowId, now: nat)
    requires Consistent(s)
    ensures AtFront(Enqueued(s, p, w, now), p, w) <==> HasTurn(s, p, w)
  {
    if w !in s.waiting {
      var t := Enqueued(s, p, w, now);
      if p in s.projects {
        assert s.projects[p] != [];
        assert t.projects[p][0] == s.projects[p][0];
        assert s.projects[p][0] in s.projects[p];
      } else {
        assert t.projects[p] == [w];
        if s.rotation != [] {
          assert t.rotation[0] == s.rotation[0] && s.rotation[0] in s.rotation;
        }
      }
    }
  }

  /** What a request other than a release is answered, and what it changes, by the reaped state. */
  ghost predicate Answers(s: State, p: ProjectId, w: WorkflowId, decision: Decision, now: nat, t: State, r: Reply) {
    var room, turn := |s.active| < s.maximum, HasTurn(s, p, w);
    var end := SaturatingAdd(now, LEASE_MILLIS);
    && r.active == |t.active| && r.maximum == s.maximum
    && (if w in s.active then
          && r.admitted && r.leaseExpires == Some(end) && r.reason == None && r.retryAfter == 0
          && t == s.(active := s.active[w := end])
        else if room && turn && decision.Admit? then
          && r.admitted && r.leaseExpires == Some(end) && r.reason == None && r.retryAfter == 0
          && t.active == s.active[w := end] && t.waiting == s.waiting - {w}
        else
          && !r.admitted && r.leaseExpires == None && r.retryAfter == RETRY_MILLIS
          && r.reason == Some(if !room then ConcurrencyLimit else if !turn then FairQueue else Deferred(decision))
          && t.active == s.active && t.waiting == s.waiting[w := end]
          && (room && turn ==> AtFront(t, p, w)))
  }

  /** A request once the queues are reaped. */
  function Requested(s: State, p: ProjectId, w: WorkflowId, decision: Decision, now: nat, popped: bool)
    : (State, Reply)
  {
    if w in s.active then
      var t := s.(active := s.active[w := SaturatingAdd(now, LEASE_MILLIS)]);
      (t, Answer(t, true, Some(SaturatingAdd(now, LEASE_MILLIS)), None))
    else Decided(Enqueued(s, p, w, now), p, w, decision, now, popped)
  }

  lemma ExecutedIs(s: State, op: Operation, p: ProjectId, w: WorkflowId, decision: Decision, now: nat, popped: bool)
    requires !op.Release?
    ensures Executed(s, op, p, w, decision, now, popped) == Requested(Reaped(s, now), p, w, decision, now, popped)
  {
    hide Reaped, Enqueued, Decided;
  }

  lemma RequestAnswer(s: State, p: ProjectId, w: WorkflowId, decision: Decision, now: nat, popped: bool)
    requires Consistent(s)
    ensures var (t, r) := Requested(s, p, w, decision, now, popped); Answers(s, p, w, decision, now, t, r)
  {
    if w !in s.active {
      TurnMeans(s, p, w, now);
      QueuedAnswer(s, p, w, decision, now, popped);
      hide *;
      assert Requested(s, p, w, decision, now, popped)
             == Decided(Enqueued(s, p, w, now), p, w, decision, now, popped) by {
        RequestedAnew(s, p, w, decision, now, popped);
      }
    } else {
      hide HasTurn;
    }
  }

  lemma RequestedAnew(s: State, p: ProjectId, w: WorkflowId, decision: Decision, now: nat, popped: bool)
    requires w !in s.active
    ensures Requested(s, p, w, decision, now, popped) == Decided(Enqueued(s, p, w, now), p, w, decision, now, popped)
  {
    hide Decided, Enqueued;
  }

  /** A lease is granted exactly when there is room, it is the workflow's turn and the
      controller admits it; a deferred workflow keeps its place at the front. */
  lemma AnsweredExactly(s: State, op: Operation, p: ProjectId, w: WorkflowId, decision: Decision, now: nat,
                        popped: bool)
    requires Sane(s) && !op.Release?
    ensures var (t, r) := Executed(s, op, p, w, decision, now, popped);
            Answers(Reaped(s, now), p, w, decision, now, t, r)
  {
    hide *;
    ReapedIsConsistent(s, now);
    ExecutedIs(s, op, p, w, decision, now, popped);
    RequestAnswer(Reaped(s, now), p, w, decision, now, popped);
  }

  lemma EnqueuedTerms(s: State, p: ProjectId, w: WorkflowId, now: nat)
    ensures var t := Enqueued(s, p, w, now);
            t.active == s.active && t.maximum == s.maximum
            && t.waiting == s.waiting[w := SaturatingAdd(now, LEASE_MILLIS)]
  {
  }

  lemma DecidedExactly(s: State, p: ProjectId, w: WorkflowId, decision: Decision, now: nat, popped: bool)
    ensures var (t, r) := Decided(s, p, w, decision, now, popped);
            var room, front, end := |s.active| < s.maximum, AtFront(s, p, w), SaturatingAdd(now, LEASE_MILLIS);
            if room && front && decision.Admit? then
              && t.active == s.active[w := end] && t.waiting == s.waiting - {w}
              && r == Reply(|t.active|, true, Some(end), s.maximum, None, 0)
            else
              && t.active == s.active && t.waiting == s.waiting && AtFront(t, p, w) == front
              && r == Reply(|s.active|, false, None, s.maximum,
                            Some(if !room then ConcurrencyLimit else if !front then FairQueue else Deferred(decision)),
                            RETRY_MILLIS)
  {
    StillInFront(s, now, p, w);
    if AtFront(s, p, w) { DequeuedTerms(Ticked(s, now), p, w, popped); }
    hide AtFront, Dequeued, Ticked;
  }

  lemma QueuedAnswer(s: State, p: ProjectId, w: WorkflowId, decision: Decision, now: nat, popped: bool)
    requires AtFront(Enqueued(s, p, w, now), p, w) <==> HasTurn(s, p, w)
    requires w !in s.active
    ensures var (t, r) := Decided(Enqueued(s, p, w, now), p, w, decision, now, popped);
            Answers(s, p, w, decision, now, t, r)
  {
    DecidedExactly(Enqueued(s, p, w, now), p, w, decision, now, popped);
    EnqueuedTerms(s, p, w, now);
    hide HasTurn, AtFront, Enqueued, Decided;
  }

  lemma StillInFront(s: State, now: nat, p: ProjectId, w: WorkflowId)
    ensures AtFront(Ticked(s, now), p, w) == AtFront(s, p, w)
    ensures Ticked(s, now) == s.(lastTick := Ticked(s, now).lastTick)
  {
  }

  lemma DequeuedTerms(s: State, p: ProjectId, w: WorkflowId, popped: bool)
    requires AtFront(s, p, w)
    ensures var t := Dequeued(s, p, w, popped);
            t.active == s.active && t.waiting == s.waiting - {w} && t.maximum == s.maximum
  {
  }

  /** A release, or dropping a workflow, ends what it had and nothing else. */
  lemma ReleasedExactly(s: State, p: ProjectId, w: WorkflowId, decision: Decision, now: nat, popped: bool)
    requires Sane(s)
    ensures var (t, r) := Executed(s, Release, p, w, decision, now, popped);
            && t.active == Reaped(s, now).active - {w} && t.waiting == Reaped(s, now).waiting - {w}
            && !r.admitted && r.reason == Some(Released) && r.leaseExpires == None && r.active == |t.active|
  {
    ReapedIsConsistent(s, now);
    var s1 := Reaped(s, now);
    hide Reaped, QueuesLive, Placed, QueuesDistinct, Rotates;
    RemovedExactly(s1, w);
    hide Removed;
  }

  // ---- one call, reckoned

  /** The call grants `w` a lease with the controller's consent. */
  predicate Grants(c: Call, reply: Option<Reply>, w: WorkflowId) {
    && c.Execute? && !c.op.Release? && c.workflow == w && c.decision.Admit?
    && reply.Some? && reply.value.admitted && reply.value.leaseExpires == Some(SaturatingAdd(c.now, LEASE_MILLIS))
  }

  lemma AnswerEnds(s: State, p: ProjectId, w: WorkflowId, decision: Decision, now: nat, t: State, r: Reply,
                   x: WorkflowId)
    requires Answers(s, p, w, decision, now, t, r) && s.waiting.Keys !! s.active.Keys
    ensures Ends(t, x) == if x == w then Some(SaturatingAdd(now, LEASE_MILLIS)) else Ends(s, x)
    ensures x in t.active ==>
              x in s.active
              || (x == w && decision.Admit? && r.admitted && r.leaseExpires == Some(SaturatingAdd(now, LEASE_MILLIS)))
    ensures x in s.active ==> x in t.active
  {
    hide HasTurn, AtFront;
  }

  /** What one call does to the term of `w` follows from the call, and a new lease was granted by it. */
  ghost predicate Reckons(s: State, c: Call, w: WorkflowId, popped: bool) {
    var (t, reply) := Performed(s, c, popped);
    && Ends(t, w) == EndsAfter(Ends(s, w), c, w)
    && (w in t.active ==> w in s.active || Grants(c, reply, w))
    && (w in s.active && Ends(t, w).Some? && (c.Execute? ==> s.active[w] > c.now) ==> w in t.active)
  }

  lemma DropEnds(s: State, x: WorkflowId, w: WorkflowId, popped: bool)
    requires Sane(s)
    ensures Reckons(s, Drop(x), w, popped)
  {
    RemovedExactly(s, x);
    hide Removed;
  }

  lemma ReleaseEnds(s: State, c: Call, w: WorkflowId, popped: bool)
    requires Sane(s) && c.Execute? && c.op.Release?
    ensures Reckons(s, c, w, popped)
  {
    ReapedExactly(s, c.now);
    ReleasedExactly(s, c.project, c.workflow, c.decision, c.now, popped);
    hide Executed, Reaped, Placed, QueuesDistinct, Rotates;
  }

  lemma NeverBoth(s: State)
    requires Sane(s)
    ensures s.waiting.Keys !! s.active.Keys
  {
  }

  lemma ReapedEnds(s: State, now: nat, w: WorkflowId)
    requires s.waiting.Keys !! s.active.Keys
    ensures var t := Reaped(s, now);
            && t.waiting.Keys !! t.active.Keys
            && Ends(t, w) == (if Ends(s, w).Some? && Ends(s, w).value > now then Ends(s, w) else None)
            && (w in t.active ==> w in s.active) && (w in s.active && s.active[w] > now ==> w in t.active)
  {
    ReapedExactly(s, now);
    hide Reaped;
  }

  lemma RequestEnds(s: State, c: Call, w: WorkflowId, popped: bool)
    requires Sane(s) && c.Execute? && !c.op.Release?
    ensures Reckons(s, c, w, popped)
  {
    hide Executed, Reaped, Answers, Sane;
    NeverBoth(s);
    AnsweredExactly(s, c.op, c.project, c.workflow, c.decision, c.now, popped);
    ReapedEnds(s, c.now, w);
    var (t, r) := Executed(s, c.op, c.project, c.workflow, c.decision, c.now, popped);
    AnswerEnds(Reaped(s, c.now), c.project, c.workflow, c.decision, c.now, t, r, w);
    hide Ends;
  }

  lemma EndsStep(s: State, c: Call, w: WorkflowId, popped: bool)
    requires Sane(s)
    ensures Reckons(s, c, w, popped)
  {
    hide Executed, Removed, Ends, EndsAfter, Grants, Sane;
    match c {
      case Drop(x) => DropEnds(s, x, w, popped);
      case Execute(op, p, x, decision, now) =>
        if op.Release? {
          ReleaseEnds(s, c, w, popped);
        } else {
          RequestEnds(s, c, w, popped);
        }
    }
  }

  // ---- runs

  /** Over every run of either build, whether a workflow runs or waits and until when
      follows from the calls alone. */
  lemma {:induction false} TermsAreReckoned(s: State, calls: seq<Call>, w: WorkflowId, popped: bool)
    requires Sane(s)
    ensures Ends(Run(s, calls, popped).0, w) == EndsAfterAll(Ends(s, w), calls, w)
    decreases |calls|
  {
    hide Sane, Performed, Ends, EndsAfter;
    if calls != [] {
      EndsStep(s, calls[0], w, popped);
      PerformedStaysSane(s, calls[0], popped);
      TermsAreReckoned(Performed(s, calls[0], popped).0, calls[1..], w, popped);
    }
  }

  lemma PerformedStaysSane(s: State, c: Call, popped: bool)
    requires Sane(s)
    ensures Sane(Performed(s, c, popped).0)
  {
    hide Sane, Executed, Removed;
    match c {
      case Execute(op, p, w, decision, now) => ExecutedIsSane(s, op, p, w, decision, now, popped);
      case Drop(w) => RemovedIsSane(s, w);
    }
  }

  lemma RunOn(s: State, calls: seq<Call>, popped: bool)
    requires calls != []
    ensures var (t, reply) := Performed(s, calls[0], popped);
            Run(s, calls, popped) == (Run(t, calls[1..], popped).0, [reply] + Run(t, calls[1..], popped).1)
  {
    hide Performed;
  }

  lemma {:induction false} OneReplyEach(s: State, calls: seq<Call>, popped: bool)
    ensures |Run(s, calls, popped).1| == |calls|
    decreases |calls|
  {
    hide Performed;
    if calls != [] { OneReplyEach(Performed(s, calls[0], popped).0, calls[1..], popped); }
  }

  /** The `i`-th call of the run grants `w` a lease. */
  ghost predicate GrantedAt(s: State, calls: seq<Call>, popped: bool, w: WorkflowId, i: nat) {
    i < |calls| && i < |Run(s, calls, popped).1| && Grants(calls[i], Run(s, calls, popped).1[i], w)
  }

  /** Whoever holds a lease at the end of a run held one at its start, or was granted
      one by a call to which the controller agreed. */
  lemma {:induction false} LeasesAreGranted(s: State, calls: seq<Call>, w: WorkflowId, popped: bool)
    requires Sane(s) && w in Run(s, calls, popped).0.active
    ensures w in s.active || exists i: nat :: GrantedAt(s, calls, popped, w, i)
    decreases |calls|
  {
    hide Sane, Performed, Grants, Run, Ends;
    if calls == [] {
      assert Run(s, calls, popped).0 == s by { NoCalls(s, popped); }
    } else {
      var (t, reply) := Performed(s, calls[0], popped);
      RunOn(s, calls, popped);
      OneReplyEach(s, calls, popped);
      EndsStep(s, calls[0], w, popped);
      PerformedStaysSane(s, calls[0], popped);
      LeasesAreGranted(t, calls[1..], w, popped);
      if w in t.active {
        if w !in s.active { assert GrantedAt(s, calls, popped, w, 0); }
      } else {
        var i: nat :| GrantedAt(t, calls[1..], popped, w, i);
        assert GrantedAt(s, calls, popped, w, i + 1);
      }
    }
  }

  lemma NoCalls(s: State, popped: bool)
    ensures Run(s, [], popped) == (s, [])
  {
  }

  /** Every call comes before the lease ends, and none gives it up. */
  ghost predicate InTerm(end: nat, calls: seq<Call>, w: WorkflowId)
    decreases |calls|
  {
    calls != [] ==>
      && (calls[0].Execute? ==> calls[0].now < end)
      && EndsAfter(Some(end), calls[0], w).Some?
      && InTerm(EndsAfter(Some(end), calls[0], w).value, calls[1..], w)
  }

  /** A lease that is renewed in time and not given up is not lost, whoever else calls. */
  lemma {:induction false} LeasesLast(s: State, calls: seq<Call>, w: WorkflowId, popped: bool)
    requires Sane(s) && w in s.active && InTerm(s.active[w], calls, w)
    ensures w in Run(s, calls, popped).0.active
    decreases |calls|
  {
    hide Sane, Performed, EndsAfter;
    if calls != [] {
      EndsStep(s, calls[0], w, popped);
      PerformedStaysSane(s, calls[0], popped);
      LeasesLast(Performed(s, calls[0], popped).0, calls[1..], w, popped);
    }
  }

  /** In every run of a new object every lease was granted with the controller's
      consent, and ends when the calls say. */
  lemma EveryLeaseOfNew(maximum: nat, calls: seq<Call>, w: WorkflowId, popped: bool)
    requires w in Run(New(maximum), calls, popped).0.active
    ensures exists i: nat :: GrantedAt(New(maximum), calls, popped, w, i)
    ensures Some(Run(New(maximum), calls, popped).0.active[w]) == EndsAfterAll(None, calls, w)
  {
    hide Run, Grants, EndsAfterAll;
    NewIsSane(maximum);
    LeasesAreGranted(New(maximum), calls, w, popped);
    TermsAreReckoned(New(maximum), calls, w, popped);
  }

  lemma NewIsSane(maximum: nat)
    ensures Sane(New(maximum)) && New(maximum).active == map[] && New(maximum).waiting == map[]
  {
  }
}
