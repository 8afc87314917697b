/**
 How long a lease lasts (crates/workflow-core/src/lease.rs:50-100,
 crates/workflow-store/src/leases.rs:14-116): reckoned from the calls alone, and
 proved of the table over whole runs.
 */
module LeaseTerms {
  import opened Wrappers
  import opened LeaseSpec

  const MAX_MILLIS: int := 0x7FFF_FFFF_FFFF_FFFF

  /** A duration that a lease can be granted or renewed for at `now`. */
  predicate ValidTerm(now: Millis, duration: Millis) {
    duration > 0 && now + duration <= MAX_MILLIS
  }

  /** The end of lease `id` after one more call, as the calls have it. */
  function EndAfter(end: Millis, id: LeaseId, c: Call): Millis {
    if c.Heartbeat? && c.id == id && ValidTerm(c.now, c.duration) then c.now + c.duration else end
  }

  function EndAfterAll(end: Millis, id: LeaseId, calls: seq<Call>): Millis
    decreases |calls|
  {
    if calls == [] then end else EndAfterAll(EndAfter(end, id, calls[0]), id, calls[1..])
  }

  /** Every call comes no later than the end reckoned so far, and none releases the lease. */
  ghost predicate InTerm(end: Millis, id: LeaseId, calls: seq<Call>)
    decreases |calls|
  {
    calls != [] ==>
      && calls[0].now <= end && !(calls[0].Release? && calls[0].id == id)
      && InTerm(EndAfter(end, id, calls[0]), id, calls[1..])
  }

  /** What is answered about a lease that is held and ends at `end`. */
  ghost predicate AnswersFor(lease: Lease, end: Millis, c: Call, reply: Reply) {
    && (c.Acquire? && c.task == lease.task ==> reply == Answered(Occupied(lease.(expires := end))))
    && (c.Heartbeat? && c.id == lease.id ==>
          if ValidTerm(c.now, c.duration) then reply == Renewed(lease.(expires := c.now + c.duration))
          else reply == Refused(if c.duration <= 0 then InvalidDuration else TimeOverflow))
  }

  lemma HeldStep(s: State, lease: Lease, c: Call)
    requires Keyed(s.rows) && lease.task in s.rows && s.rows[lease.task] == Row(lease, false)
    requires c.now <= lease.expires && !(c.Release? && c.id == lease.id)
    ensures var (t, reply) := Performed(s, c);
            && lease.task in t.rows
            && t.rows[lease.task] == Row(lease.(expires := EndAfter(lease.expires, lease.id, c)), false)
            && AnswersFor(lease, lease.expires, c, reply)
  {
    assert Holds(s.rows, lease.id, lease.task);
    if !c.Acquire? && c.id == lease.id { OneTask(s.rows, c.id, lease.task); }
  }

  /** As long as its term runs, whatever is called, a lease that is not released keeps
      its row with the end the calls give it; every acquisition on its task is answered
      with it, and each of its heartbeats with a valid duration moves the end to then. */
  lemma {:induction false} LeaseLasts(s: State, lease: Lease, calls: seq<Call>)
    requires Sound(s) && LawfulRun(s, calls) && lease.task in s.rows && s.rows[lease.task] == Row(lease, false)
    requires InTerm(lease.expires, lease.id, calls)
    ensures var (t, replies) := Run(s, calls);
            && lease.task in t.rows && |replies| == |calls|
            && t.rows[lease.task] == Row(lease.(expires := EndAfterAll(lease.expires, lease.id, calls)), false)
            && forall i :: 0 <= i < |calls| ==>
                 AnswersFor(lease, EndAfterAll(lease.expires, lease.id, calls[..i]), calls[i], replies[i])
    decreases |calls|
  {
    hide Performed, Lawful, LawfulRun, Run, AnswersFor, EndAfter;
    if calls == [] {
      NoCalls(s);
    } else {
      var next := lease.(expires := EndAfter(lease.expires, lease.id, calls[0]));
      var (t, reply) := Performed(s, calls[0]);
      FirstOfRun(s, calls);
      SoundIsKeyed(s);
      HeldStep(s, lease, calls[0]);
      StepIsSound(s, calls[0]);
      hide Sound;
      LeaseLasts(t, next, calls[1..]);
      var replies := Run(s, calls).1;
      forall i | 0 <= i < |calls|
        ensures AnswersFor(lease, EndAfterAll(lease.expires, lease.id, calls[..i]), calls[i], replies[i]) {
        if i > 0 {
          assert calls[..i][1..] == calls[1..][..i - 1] && calls[..i][0] == calls[0];
          assert AnswersFor(next, EndAfterAll(next.expires, next.id, calls[1..][..i - 1]), calls[1..][i - 1],
                 replies[i]);
          SameAnswers(lease, next, EndAfterAll(lease.expires, lease.id, calls[..i]), calls[i], replies[i]);
        }
      }
    }
  }

  lemma SoundIsKeyed(s: State)
    requires Sound(s)
    ensures Keyed(s.rows)
  {
  }

  lemma SameAnswers(lease: Lease, other: Lease, end: Millis, c: Call, reply: Reply)
    requires other == lease.(expires := other.expires)
    ensures AnswersFor(lease, end, c, reply) == AnswersFor(other, end, c, reply)
  {
  }

  /** Nobody holds the task: it has no row, or one whose term is over and whose work may be repeated. */
  ghost predicate Available(s: State, t: TaskId, now: Millis) {
    t in s.rows ==> !s.rows[t].uncertain && s.rows[t].lease.expires < now && s.rows[t].lease.safety.Idempotent?
  }

  /** A lease is granted exactly for a valid duration on an available task, and then
      runs from the call for that duration. */
  lemma GrantedExactly(s: State, c: Call)
    requires c.Acquire?
    ensures var (t, reply) := Performed(s, c);
            if Available(s, c.task, c.now) && ValidTerm(c.now, c.duration) then
              var lease := Lease(c.id, c.task, c.owner, c.now, c.now + c.duration, c.safety);
              reply == Answered(Acquired(lease)) && c.task in t.rows && t.rows[c.task] == Row(lease, false)
            else reply.Answered? ==> !reply.acquisition.Acquired?
  {
  }

  /** A lease that is granted can be relied on: it lasts from the grant as the calls say. */
  lemma GrantedLasts(s: State, c: Call, calls: seq<Call>)
    requires Sound(s) && LawfulRun(s, [c] + calls) && c.Acquire?
    requires Available(s, c.task, c.now) && ValidTerm(c.now, c.duration) && InTerm(c.now + c.duration, c.id, calls)
    ensures var lease := Lease(c.id, c.task, c.owner, c.now, c.now + c.duration, c.safety);
            var (t, replies) := Run(s, [c] + calls);
            && |replies| == 1 + |calls| && replies[0] == Answered(Acquired(lease))
            && c.task in t.rows
            && t.rows[c.task] == Row(lease.(expires := EndAfterAll(lease.expires, c.id, calls)), false)
            && forall i :: 0 <= i < |calls| ==>
                 AnswersFor(lease, EndAfterAll(lease.expires, c.id, calls[..i]), calls[i], replies[1 + i])
  {
    hide LawfulRun, Run, Sound, AnswersFor, InTerm, EndAfterAll;
    assert ([c] + calls)[0] == c && ([c] + calls)[1..] == calls;
    FirstOfRun(s, [c] + calls);
    GrantedExactly(s, c);
    hide Performed;
    StepIsSound(s, c);
    LeaseLasts(Performed(s, c).0, Lease(c.id, c.task, c.owner, c.now, c.now + c.duration, c.safety), calls);
  }

  /** A release frees the task for the next acquisition. */
  lemma ReleaseFrees(s: State, c: Call)
    requires Keyed(s.rows) && c.Release?
    ensures var (t, reply) := Performed(s, c);
            && (forall u :: u in t.rows <==> u in s.rows && s.rows[u].lease.id != c.id)
            && (forall u :: u in t.rows ==> t.rows[u] == s.rows[u])
            && reply == Dropped(exists u :: Holds(s.rows, c.id, u))
  {
    var at := TaskOf(s.rows, c.id);
    if at.Some? {
      assert Holds(s.rows, c.id, at.value);
    } else {
      assert forall u :: u in s.rows ==> !Holds(s.rows, c.id, u);
    }
  }
}
