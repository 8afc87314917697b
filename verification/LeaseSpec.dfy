/**
 Task leases as a table (crates/workflow-store/src/leases.rs:14-116 over
 crates/workflow-core/src/lease.rs:50-100), and what holds of every run of calls
 under a clock that does not go back.
 */
module LeaseSpec {
  import opened Wrappers

  type TaskId = nat
  type LeaseId = nat
  type SessionId = nat
  type Millis = n: int | -0x8000_0000_0000_0000 <= n <= 0x7FFF_FFFF_FFFF_FFFF

  datatype Safety = Idempotent | NonIdempotent

  datatype Reconciliation = StillActive | Replayable | ReviewRequired

  datatype Lease = Lease(id: LeaseId, task: TaskId, owner: SessionId, acquired: Millis, expires: Millis, safety: Safety)

  datatype Row = Row(lease: Lease, uncertain: bool)

  type Rows = map<TaskId, Row>

  datatype LeaseError = NotFound | Expired | InvalidDuration | TimeOverflow

  datatype Acquisition = Acquired(lease: Lease) | Occupied(lease: Lease) | ManualReviewRequired(lease: Lease)

  /** `checked_add`, after the check on the duration. */
  function Expiry(now: Millis, duration: Millis): Result<Millis, LeaseError> {
    if duration <= 0 then Failure(InvalidDuration)
    else if now + duration > 0x7FFF_FFFF_FFFF_FFFF then Failure(TimeOverflow)
    else Success(now + duration)
  }

  function Reconcile(lease: Lease, now: Millis): Reconciliation {
    if now <= lease.expires then StillActive
    else if lease.safety.Idempotent? then Replayable
    else ReviewRequired
  }

  /** `lease_id` is unique in the table, and each row is kept under its task. */
  ghost predicate Keyed(rows: Rows) {
    && (forall t :: t in rows ==> rows[t].lease.task == t)
    && (forall t, u :: t in rows && u in rows && rows[t].lease.id == rows[u].lease.id ==> t == u)
  }

  /** `acquire_lease`; `id` is the fresh id it would draw. */
  function AfterAcquire(rows: Rows, t: TaskId, owner: SessionId, now: Millis, duration: Millis, safety: Safety,
                        id: LeaseId)
    : (Rows, Result<Acquisition, LeaseError>)
  {
    if t in rows && (rows[t].uncertain || Reconcile(rows[t].lease, now).ReviewRequired?) then
      (rows[t := rows[t].(uncertain := true)], Success(ManualReviewRequired(rows[t].lease)))
    else if t in rows && Reconcile(rows[t].lease, now).StillActive? then (rows, Success(Occupied(rows[t].lease)))
    else
      match Expiry(now, duration)
      case Failure(e) => (rows, Failure(e))
      case Success(expires) =>
        var lease := Lease(id, t, owner, now, expires, safety);
        (rows[t := Row(lease, false)], Success(Acquired(lease)))
  }

  /** `heartbeat_lease` on the row of task `t`. */
  function AfterHeartbeat(rows: Rows, t: TaskId, now: Millis, duration: Millis): (Rows, Result<Lease, LeaseError>)
    requires t in rows
  {
    var lease := rows[t].lease;
    if now > lease.expires then (rows, Failure(Expired))
    else
      match Expiry(now, duration)
      case Failure(e) => (rows, Failure(e))
      case Success(expires) =>
        var renewed := lease.(expires := expires);
        (rows[t := rows[t].(lease := renewed)], Success(renewed))
  }

  ghost predicate Holds(rows: Rows, id: LeaseId, t: TaskId) {
    t in rows && rows[t].lease.id == id
  }

  /** The task whose row has this lease id. */
  ghost function TaskOf(rows: Rows, id: LeaseId): (r: Option<TaskId>)
    ensures r.Some? ==> Holds(rows, id, r.value)
    ensures r.None? ==> forall t :: !Holds(rows, id, t)
  {
    if exists t :: Holds(rows, id, t) then
      var t :| Holds(rows, id, t);
      Some(t)
    else None
  }

  lemma OneTask(rows: Rows, id: LeaseId, t: TaskId)
    requires Keyed(rows) && Holds(rows, id, t)
    ensures TaskOf(rows, id) == Some(t)
  {
  }

  // ---- runs

  /** The history of one lease: when it was granted, until when it was last
      promised, and when it was released. */
  datatype Grant = Grant(task: TaskId, from: Millis, until: Millis, released: Option<Millis>)

  datatype State = State(rows: Rows, grants: map<LeaseId, Grant>, clock: Millis)

  datatype Call =
    | Acquire(task: TaskId, owner: SessionId, now: Millis, duration: Millis, safety: Safety, id: LeaseId)
    | Heartbeat(id: LeaseId, now: Millis, duration: Millis)
    | Release(id: LeaseId, now: Millis)

  datatype Reply =
    | Answered(acquisition: Acquisition) | Renewed(lease: Lease) | Dropped(found: bool) | Refused(error: LeaseError)

  /** The clock does not go back and new ids are new. */
  ghost predicate Lawful(s: State, c: Call) {
    c.now >= s.clock && (c.Acquire? ==> c.id !in s.grants)
  }

  /** One call, with the history it makes. */
  ghost function Performed(s: State, c: Call): (State, Reply) {
    match c
    case Acquire(t, owner, now, duration, safety, id) =>
      var (rows, r) := AfterAcquire(s.rows, t, owner, now, duration, safety, id);
      (match r
       case Failure(e) => (State(rows, s.grants, now), Refused(e))
       case Success(a) =>
         var grants := if a.Acquired? then s.grants[id := Grant(t, now, a.lease.expires, None)] else s.grants;
         (State(rows, grants, now), Answered(a)))
    case Heartbeat(id, now, duration) =>
      var t := TaskOf(s.rows, id);
      if t.None? || s.rows[t.value].uncertain then (s.(clock := now), Refused(NotFound))
      else
        var (rows, r) := AfterHeartbeat(s.rows, t.value, now, duration);
        (match r
         case Failure(e) => (State(rows, s.grants, now), Refused(e))
         case Success(lease) =>
           var grants := if id in s.grants then s.grants[id := s.grants[id].(until := lease.expires)] else s.grants;
           (State(rows, grants, now), Renewed(lease)))
    case Release(id, now) =>
      var t := TaskOf(s.rows, id);
      if t.None? then (s.(clock := now), Dropped(false))
      else
        var grants := if id in s.grants then s.grants[id := s.grants[id].(released := Some(now))] else s.grants;
        (State(s.rows - {t.value}, grants, now), Dropped(true))
  }

  ghost predicate LawfulRun(s: State, calls: seq<Call>)
    decreases |calls|
  {
    calls == [] || (Lawful(s, calls[0]) && LawfulRun(Performed(s, calls[0]).0, calls[1..]))
  }

  ghost function Run(s: State, calls: seq<Call>): (State, seq<Reply>)
    decreases |calls|
  {
    if calls == [] then (s, [])
    else
      var (t, reply) := Performed(s, calls[0]);
      var (end, replies) := Run(t, calls[1..]);
      (end, [reply] + replies)
  }

  // ---- leases on one task do not overlap

  /** Released by then, or expired before. */
  predicate Over(g: Grant, at: Millis) {
    (g.released.Some? && g.released.value <= at) || g.until < at
  }

  /** The two validity intervals do not meet. */
  predicate Disjoint(g: Grant, h: Grant) {
    Over(g, h.from) || Over(h, g.from)
  }

  ghost predicate Current(s: State, id: LeaseId) {
    id in s.grants && Holds(s.rows, id, s.grants[id].task)
  }

  /** A row is the lease the history has as held. */
  ghost predicate Recorded(s: State) {
    forall t :: t in s.rows ==> Faithful(s, s.rows[t].lease)
  }

  ghost predicate Faithful(s: State, lease: Lease) {
    lease.id in s.grants && s.grants[lease.id] == Grant(lease.task, lease.acquired, lease.expires, None)
  }

  ghost predicate Rivals(s: State, a: LeaseId, b: LeaseId) {
    a in s.grants && b in s.grants && a != b && s.grants[a].task == s.grants[b].task
  }

  /** What is not held is over. */
  ghost predicate Settled(s: State) {
    forall id :: id in s.grants ==> s.grants[id].from <= s.clock && (Current(s, id) || Over(s.grants[id], s.clock))
  }

  /** Nothing overlaps, and the lease now held came after all others of its task. */
  ghost predicate NoOverlap(s: State) {
    forall a, b :: Rivals(s, a, b) ==>
        Disjoint(s.grants[a], s.grants[b]) && (Current(s, b) ==> Over(s.grants[a], s.grants[b].from))
  }

  ghost predicate Sound(s: State) {
    Keyed(s.rows) && Recorded(s) && Settled(s) && NoOverlap(s)
  }

  /** Granting a lease on a task whose row, if any, has expired. */
  lemma GrantedIsSound(s: State, lease: Lease)
    requires Sound(s) && s.clock <= lease.acquired && lease.id !in s.grants
    requires lease.task in s.rows ==> s.rows[lease.task].lease.expires < lease.acquired
    ensures Sound(State(s.rows[lease.task := Row(lease, false)],
              s.grants[lease.id := Grant(lease.task, lease.acquired, lease.expires, None)], lease.acquired))
  {
    var t :=
        State(s.rows[lease.task := Row(lease, false)],
            s.grants[lease.id := Grant(lease.task, lease.acquired, lease.expires, None)], lease.acquired);
    forall id | id in s.grants && s.grants[id].task == lease.task ensures Over(s.grants[id], lease.acquired) {
      assert Current(s, id) || Over(s.grants[id], s.clock);
    }
    forall a, b | Rivals(t, a, b)
      ensures Disjoint(t.grants[a], t.grants[b]) && (Current(t, b) ==> Over(t.grants[a], t.grants[b].from)) {
      if a != lease.id && b != lease.id { assert Rivals(s, a, b); }
    }
    forall id | id in t.grants ensures t.grants[id].from <= t.clock && (Current(t, id) || Over(t.grants[id], t.clock)) {
      if id != lease.id { assert Current(s, id) || Over(s.grants[id], s.clock); }
    }
  }

  /** Renewing the lease held on a task. */
  lemma RenewedIsSound(s: State, task: TaskId, now: Millis, expires: Millis)
    requires Sound(s) && s.clock <= now && task in s.rows
    ensures var id := s.rows[task].lease.id;
            && id in s.grants
            && Sound(State(s.rows[task := s.rows[task].(lease := s.rows[task].lease.(expires := expires))],
                s.grants[id := s.grants[id].(until := expires)], now))
  {
    var lease := s.rows[task].lease;
    var id := lease.id;
    assert Faithful(s, lease) && Current(s, id);
    var t :=
        State(s.rows[task := s.rows[task].(lease := lease.(expires := expires))],
            s.grants[id := s.grants[id].(until := expires)], now);
    forall u | u in t.rows ensures Faithful(t, t.rows[u].lease) {
      if u != task { assert Faithful(s, s.rows[u].lease) && Holds(s.rows, id, task) && !Holds(s.rows, id, u); }
    }
    forall a, b | Rivals(t, a, b)
      ensures Disjoint(t.grants[a], t.grants[b]) && (Current(t, b) ==> Over(t.grants[a], t.grants[b].from)) {
      assert Rivals(s, a, b) && Rivals(s, b, a);
    }
    forall x | x in t.grants ensures t.grants[x].from <= t.clock && (Current(t, x) || Over(t.grants[x], t.clock)) {
      assert Current(s, x) || Over(s.grants[x], s.clock);
    }
  }

  lemma DroppedIsSound(s: State, task: TaskId, now: Millis)
    requires Sound(s) && s.clock <= now && task in s.rows
    ensures var id := s.rows[task].lease.id;
            id in s.grants && Sound(State(s.rows - {task}, s.grants[id := s.grants[id].(released := Some(now))], now))
  {
    var lease := s.rows[task].lease;
    var id := lease.id;
    assert Faithful(s, lease) && Current(s, id);
    var t := State(s.rows - {task}, s.grants[id := s.grants[id].(released := Some(now))], now);
    forall u | u in t.rows ensures Faithful(t, t.rows[u].lease) {
      assert Faithful(s, s.rows[u].lease);
    }
    forall a, b | Rivals(t, a, b)
      ensures Disjoint(t.grants[a], t.grants[b]) && (Current(t, b) ==> Over(t.grants[a], t.grants[b].from)) {
      assert Rivals(s, a, b) && Rivals(s, b, a);
    }
    forall x | x in t.grants ensures t.grants[x].from <= t.clock && (Current(t, x) || Over(t.grants[x], t.clock)) {
      assert Current(s, x) || Over(s.grants[x], s.clock);
    }
  }

  lemma WaitedIsSound(s: State, now: Millis)
    requires Sound(s) && s.clock <= now
    ensures Sound(s.(clock := now))
  {
    var t := s.(clock := now);
    forall a, b | Rivals(t, a, b)
      ensures Disjoint(t.grants[a], t.grants[b]) && (Current(t, b) ==> Over(t.grants[a], t.grants[b].from)) {
      assert Rivals(s, a, b);
    }
    forall x | x in t.grants ensures t.grants[x].from <= t.clock && (Current(t, x) || Over(t.grants[x], t.clock)) {
      assert Current(s, x) || Over(s.grants[x], s.clock);
    }
  }

  lemma FlaggedIsSound(s: State, task: TaskId)
    requires Sound(s) && task in s.rows
    ensures Sound(s.(rows := s.rows[task := s.rows[task].(uncertain := true)]))
  {
    var t := s.(rows := s.rows[task := s.rows[task].(uncertain := true)]);
    assert forall u :: u in t.rows ==> t.rows[u].lease == s.rows[u].lease;
    assert forall id :: Current(t, id) <==> Current(s, id);
    forall a, b | Rivals(t, a, b)
      ensures Disjoint(t.grants[a], t.grants[b]) && (Current(t, b) ==> Over(t.grants[a], t.grants[b].from)) {
      assert Rivals(s, a, b);
    }
    forall u | u in t.rows ensures Faithful(t, t.rows[u].lease) {
      assert Faithful(s, s.rows[u].lease);
    }
  }

  lemma StepIsSound(s: State, c: Call)
    requires Sound(s) && Lawful(s, c)
    ensures Sound(Performed(s, c).0)
  {
    hide Sound;
    WaitedIsSound(s, c.now);
    match c {
      case Acquire(t, owner, now, duration, safety, id) =>
        if t in s.rows && (s.rows[t].uncertain || Reconcile(s.rows[t].lease, now).ReviewRequired?) {
          FlaggedIsSound(s.(clock := now), t);
        } else if !(t in s.rows && Reconcile(s.rows[t].lease, now).StillActive?) && Expiry(now, duration).Success? {
          GrantedIsSound(s, Lease(id, t, owner, now, Expiry(now, duration).value, safety));
        }
      case Heartbeat(id, now, duration) =>
        var t := TaskOf(s.rows, id);
        if t.Some? && Expiry(now, duration).Success? { RenewedIsSound(s, t.value, now, Expiry(now, duration).value); }
      case Release(id, now) =>
        var t := TaskOf(s.rows, id);
        if t.Some? { DroppedIsSound(s, t.value, now); }
    }
  }

  /** In every run, the validity intervals of the leases granted on one task are disjoint. */
  lemma {:induction false} LeasesAreDisjoint(s: State, calls: seq<Call>)
    requires Sound(s) && LawfulRun(s, calls)
    ensures var t := Run(s, calls).0;
            Sound(t) && forall a, b :: Rivals(t, a, b) ==> Disjoint(t.grants[a], t.grants[b])
    decreases |calls|
  {
    if calls != [] {
      StepIsSound(s, calls[0]);
      LeasesAreDisjoint(Performed(s, calls[0]).0, calls[1..]);
    }
  }

  lemma EmptyIsSound(clock: Millis)
    ensures Sound(State(map[], map[], clock))
  {
  }

  /** So from an empty table. */
  lemma LeasesAreDisjointFromTheStart(clock: Millis, calls: seq<Call>)
    requires LawfulRun(State(map[], map[], clock), calls)
    ensures var t := Run(State(map[], map[], clock), calls).0;
            forall a, b :: Rivals(t, a, b) ==> Disjoint(t.grants[a], t.grants[b])
  {
    EmptyIsSound(clock);
    LeasesAreDisjoint(State(map[], map[], clock), calls);
  }

  // ---- a stale lease id stays stale

  ghost predicate Stale(s: State, id: LeaseId) {
    id in s.grants && !Current(s, id)
  }

  lemma NoCalls(s: State)
    ensures Run(s, []) == (s, [])
  {
  }

  /** A run is its first call and the run after it. */
  lemma FirstOfRun(s: State, calls: seq<Call>)
    requires calls != [] && LawfulRun(s, calls)
    ensures var (t, reply) := Performed(s, calls[0]);
            && Lawful(s, calls[0]) && LawfulRun(t, calls[1..])
            && Run(s, calls) == (Run(t, calls[1..]).0, [reply] + Run(t, calls[1..]).1)
            && forall i :: 1 <= i < |calls| ==> calls[i] == calls[1..][i - 1]
  {
    hide Performed, Lawful;
  }

  /** Once replaced or released, a lease is refused every heartbeat and its history does not change. */
  lemma {:induction false} StaleStaysStale(s: State, calls: seq<Call>, id: LeaseId)
    requires Sound(s) && LawfulRun(s, calls) && Stale(s, id)
    ensures var (t, replies) := Run(s, calls);
            && Stale(t, id) && t.grants[id] == s.grants[id] && |replies| == |calls|
            && forall i :: 0 <= i < |calls| ==>
                 && (calls[i].Heartbeat? && calls[i].id == id ==> replies[i] == Refused(NotFound))
                 && (calls[i].Release? && calls[i].id == id ==> replies[i] == Dropped(false))
    decreases |calls|
  {
    hide Performed, Sound, Lawful, LawfulRun, Run, Current;
    if calls == [] {
      NoCalls(s);
    } else {
      var (t, _) := Performed(s, calls[0]);
      FirstOfRun(s, calls);
      StaleStep(s, calls[0], id);
      StepIsSound(s, calls[0]);
      StaleStaysStale(t, calls[1..], id);
    }
  }

  lemma StaleStep(s: State, c: Call, id: LeaseId)
    requires Sound(s) && Lawful(s, c) && Stale(s, id)
    ensures var (t, reply) := Performed(s, c);
            && Stale(t, id) && t.grants[id] == s.grants[id]
            && (c.Heartbeat? && c.id == id ==> reply == Refused(NotFound))
            && (c.Release? && c.id == id ==> reply == Dropped(false))
  {
    if TaskOf(s.rows, id).Some? { HeldIsCurrent(s, id, TaskOf(s.rows, id).value); }
  }

  lemma HeldIsCurrent(s: State, id: LeaseId, t: TaskId)
    requires Sound(s) && Holds(s.rows, id, t)
    ensures Current(s, id)
  {
    assert Faithful(s, s.rows[t].lease);
  }

  /** A lease that has run out is refused every heartbeat too, even while its row is
      still in the table, and its promise is never extended. */
  lemma {:induction false} ExpiredStaysExpired(s: State, calls: seq<Call>, id: LeaseId)
    requires Sound(s) && LawfulRun(s, calls) && id in s.grants && s.grants[id].until < s.clock
    ensures var (t, replies) := Run(s, calls);
            && id in t.grants && t.grants[id].until == s.grants[id].until && |replies| == |calls|
            && forall i :: 0 <= i < |calls| && calls[i].Heartbeat? && calls[i].id == id ==> replies[i].Refused?
    decreases |calls|
  {
    hide Performed, Sound, Lawful, LawfulRun, Run;
    if calls == [] {
      NoCalls(s);
    } else {
      var (t, _) := Performed(s, calls[0]);
      FirstOfRun(s, calls);
      ExpiredStep(s, calls[0], id);
      StepIsSound(s, calls[0]);
      ExpiredStaysExpired(t, calls[1..], id);
    }
  }

  lemma ExpiredStep(s: State, c: Call, id: LeaseId)
    requires Sound(s) && Lawful(s, c) && id in s.grants && s.grants[id].until < s.clock
    ensures var (t, reply) := Performed(s, c);
            && id in t.grants && t.grants[id].until == s.grants[id].until && s.clock <= t.clock
            && (c.Heartbeat? && c.id == id ==> reply.Refused?)
  {
    if c.Heartbeat? && c.id == id && TaskOf(s.rows, id).Some? {
      assert Faithful(s, s.rows[TaskOf(s.rows, id).value].lease);
    }
  }

  // ---- an expired lease that is not idempotent blocks its task

  ghost predicate Blocked(s: State, t: TaskId) {
    t in s.rows && (s.rows[t].uncertain || (s.rows[t].lease.safety.NonIdempotent? && s.rows[t].lease.expires < s.clock))
  }

  ghost predicate NotReleased(calls: seq<Call>, id: LeaseId) {
    forall i :: 0 <= i < |calls| ==> !(calls[i].Release? && calls[i].id == id)
  }

  /** Until it is released, every later acquisition on its task asks for a manual review of it. */
  lemma {:induction false} BlockedUntilReleased(s: State, calls: seq<Call>, t: TaskId)
    requires Sound(s) && LawfulRun(s, calls) && Blocked(s, t) && NotReleased(calls, s.rows[t].lease.id)
    ensures var (end, replies) := Run(s, calls);
            && Blocked(end, t) && end.rows[t].lease == s.rows[t].lease && |replies| == |calls|
            && forall i :: 0 <= i < |calls| && calls[i].Acquire? && calls[i].task == t ==>
                 replies[i] == Answered(ManualReviewRequired(s.rows[t].lease))
    decreases |calls|
  {
    hide Performed, Sound, Lawful, LawfulRun, Run, Blocked;
    if calls == [] {
      NoCalls(s);
    } else {
      var (u, _) := Performed(s, calls[0]);
      FirstOfRun(s, calls);
      BlockedStep(s, calls[0], t);
      StepIsSound(s, calls[0]);
      assert forall i :: 0 <= i < |calls| - 1 ==> calls[1..][i] == calls[i + 1];
      BlockedUntilReleased(u, calls[1..], t);
    }
  }

  lemma BlockedStep(s: State, c: Call, t: TaskId)
    requires Sound(s) && Lawful(s, c) && Blocked(s, t) && !(c.Release? && c.id == s.rows[t].lease.id)
    ensures var (u, reply) := Performed(s, c);
            && Blocked(u, t) && u.rows[t].lease == s.rows[t].lease
            && (c.Acquire? && c.task == t ==> reply == Answered(ManualReviewRequired(s.rows[t].lease)))
  {
    if !c.Acquire? {
      var at := TaskOf(s.rows, c.id);
      assert at.Some? ==> Holds(s.rows, c.id, at.value);
      if at == Some(t) {
        assert s.rows[t].lease.id == c.id;
      }
    }
  }
}
