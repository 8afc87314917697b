/**
 The admission queues as values (crates/workflowd/src/admission.rs): what every
 operation does to them, in builds with and without the pop inside
 `debug_assert_eq!`, and what holds over whole runs.
 */
module AdmissionSpec {
  import opened Wrappers
  import opened Ordering

  type WorkflowId = nat
  type ProjectId = nat

  const LEASE_MILLIS: nat := 15_000
  const RETRY_MILLIS: nat := 500
  const TICK_MILLIS: nat := 1_000
  const MAX_U64: nat := 0xFFFF_FFFF_FFFF_FFFF

  datatype Operation = Acquire | Release | Renew

  /** The answer of the resource controller, an arbitrary input. */
  datatype Decision =
    | Admit | DeferCpu | DeferDisk | DeferIndexing | DeferMemory | DeferMetricsUnavailable | DeferRecoveryBackpressure

  datatype Reason = Released | ConcurrencyLimit | FairQueue | Deferred(decision: Decision)

  datatype Reply = Reply(active: nat, admitted: bool, leaseExpires: Option<nat>, maximum: nat, reason: Option<Reason>,
                         retryAfter: nat)

  datatype State = State(
    active: map<WorkflowId, nat>,
    lastTick: nat,
    maximum: nat,
    projects: map<ProjectId, seq<WorkflowId>>,
    rotation: seq<ProjectId>,
    waiting: map<WorkflowId, nat>,
    owner: map<WorkflowId, ProjectId>)

  function New(maximum: nat): State {
    State(map[], 0, if maximum >= 1 then maximum else 1, map[], [], map[], map[])
  }

  function SaturatingAdd(a: nat, b: nat): nat {
    if a + b <= MAX_U64 then a + b else MAX_U64
  }

  function SaturatingSub(a: nat, b: nat): nat {
    if a >= b then a - b else 0
  }

  // ---- filtered sequences

  function Filter<A>(s: seq<A>, keep: set<A>): seq<A> {
    if s == [] then []
    else Filter(s[..|s| - 1], keep) + if s[|s| - 1] in keep then [s[|s| - 1]] else []
  }

  lemma {:induction false} FilterMembers<A>(s: seq<A>, keep: set<A>)
    ensures forall x :: x in Filter(s, keep) <==> x in s && x in keep
    ensures NoRepeats(s) ==> NoRepeats(Filter(s, keep))
    decreases |s|
  {
    if s != [] {
      FilterMembers(s[..|s| - 1], keep);
      assert s == s[..|s| - 1] + [s[|s| - 1]];
    }
  }

  lemma {:induction false} FilterTwice<A>(s: seq<A>, first: set<A>, second: set<A>)
    ensures Filter(Filter(s, first), second) == Filter(s, first * second)
    decreases |s|
  {
    if s != [] {
      var init, last := s[..|s| - 1], s[|s| - 1];
      FilterTwice(init, first, second);
      if last in first {
        assert (Filter(init, first) + [last])[..|Filter(init, first)|] == Filter(init, first);
      } else {
        assert Filter(init, first) + [] == Filter(init, first);
      }
    }
  }

  /** Only membership of the elements matters. */
  lemma {:induction false} FilterSame<A>(s: seq<A>, first: set<A>, second: set<A>)
    requires forall x :: x in s ==> (x in first <==> x in second)
    ensures Filter(s, first) == Filter(s, second)
    decreases |s|
  {
    if s != [] {
      assert s == s[..|s| - 1] + [s[|s| - 1]];
      FilterSame(s[..|s| - 1], first, second);
    }
  }

  lemma {:induction false} FilterNothing<A>(s: seq<A>, keep: set<A>)
    requires forall x :: x in s ==> x in keep
    ensures Filter(s, keep) == s
    decreases |s|
  {
    if s != [] {
      assert s == s[..|s| - 1] + [s[|s| - 1]];
      FilterNothing(s[..|s| - 1], keep);
    }
  }

  lemma {:induction false} FilterJoin<A>(s: seq<A>, t: seq<A>, keep: set<A>)
    ensures Filter(s + t, keep) == Filter(s, keep) + Filter(t, keep)
    decreases |t|
  {
    if t == [] {
      assert s + t == s;
    } else {
      assert (s + t)[..|s| + |t| - 1] == s + t[..|t| - 1];
      FilterJoin(s, t[..|t| - 1], keep);
    }
  }

  // ---- invariants

  /** The workflows waiting for project `p`. */
  function Live(s: State, p: ProjectId): set<WorkflowId> {
    set w | w in s.waiting && w in s.owner && s.owner[w] == p
  }

  /** Every waiting workflow stands in the queue of its project. */
  ghost predicate Placed(s: State) {
    forall w :: w in s.owner ==> s.owner[w] in s.projects && w in s.projects[s.owner[w]]
  }

  ghost predicate QueuesDistinct(s: State) {
    forall p :: p in s.projects ==> NoRepeats(s.projects[p])
  }

  /** The rotation names every queued project once. */
  ghost predicate Rotates(s: State) {
    NoRepeats(s.rotation) && (forall p :: p in s.rotation <==> p in s.projects)
  }

  /** What every build keeps between calls: queues may hold workflows that no longer wait. */
  ghost predicate Sane(s: State) {
    && s.maximum >= 1 && |s.active| <= s.maximum
    && s.waiting.Keys == s.owner.Keys && s.waiting.Keys !! s.active.Keys
    && Placed(s) && QueuesDistinct(s) && Rotates(s)
  }

  /** Waiting workflows, owners, queues and rotation describe the same set: every queue
      is nonempty and holds, once each, exactly the workflows waiting for its project. */
  ghost predicate Consistent(s: State) {
    Sane(s) && QueuesLive(s)
  }

  ghost predicate QueuesLive(s: State) {
    forall p :: p in s.projects ==> s.projects[p] != [] && forall w :: w in s.projects[p] <==> w in Live(s, p)
  }

  // ---- the repair pass, in closed form

  function Queue(s: State, p: ProjectId): seq<WorkflowId> {
    if p in s.projects then Filter(s.projects[p], Live(s, p)) else []
  }

  function SettledProjects(s: State): map<ProjectId, seq<WorkflowId>> {
    map p | p in s.projects && Queue(s, p) != [] :: Queue(s, p)
  }

  function Settled(s: State): State {
    var projects := SettledProjects(s);
    s.(projects := projects, rotation := Filter(s.rotation, projects.Keys))
  }

  lemma SettledIsConsistent(s: State)
    requires Sane(s)
    ensures Consistent(Settled(s))
  {
    var t := Settled(s);
    forall p | p in t.projects
      ensures NoRepeats(t.projects[p]) && t.projects[p] != [] && forall w :: w in t.projects[p] <==> w in Live(t, p)
    {
      FilterMembers(s.projects[p], Live(s, p));
    }
    forall w | w in t.owner ensures t.owner[w] in t.projects && w in t.projects[t.owner[w]] {
      FilterMembers(s.projects[s.owner[w]], Live(s, s.owner[w]));
      assert w in Live(s, s.owner[w]);
    }
    FilterMembers(s.rotation, t.projects.Keys);
  }

  /** The elements of `keep` in the order of their first occurrence. */
  function FirstOf<A(==)>(s: seq<A>, keep: set<A>): seq<A> {
    if s == [] then []
    else
      var rest, last := FirstOf(s[..|s| - 1], keep), s[|s| - 1];
      if last in keep && last !in rest then rest + [last] else rest
  }

  lemma {:induction false} FirstOfMembers<A>(s: seq<A>, keep: set<A>)
    ensures NoRepeats(FirstOf(s, keep)) && forall x :: x in FirstOf(s, keep) <==> x in s && x in keep
    decreases |s|
  {
    if s != [] {
      FirstOfMembers(s[..|s| - 1], keep);
      assert s == s[..|s| - 1] + [s[|s| - 1]];
    }
  }

  lemma {:induction false} FirstOfDistinct<A>(s: seq<A>, keep: set<A>)
    requires NoRepeats(s)
    ensures FirstOf(s, keep) == Filter(s, keep)
    decreases |s|
  {
    if s != [] {
      FirstOfDistinct(s[..|s| - 1], keep);
      FirstOfMembers(s[..|s| - 1], keep);
      assert Filter(s[..|s| - 1], keep) + [] == Filter(s[..|s| - 1], keep);
    }
  }

  /** What the repair pass does to any state at all. */
  ghost predicate Repaired(s: State, t: State) {
    && t.active == s.active && t.lastTick == s.lastTick && t.maximum == s.maximum
    && t.projects == SettledProjects(s)
    && t.waiting == Standing(s, t.projects, s.waiting) && t.owner == Standing(s, t.projects, s.owner)
    && NoRepeats(t.rotation) && (forall p :: p in t.rotation <==> p in t.projects)
    && var first := FirstOf(s.rotation, t.projects.Keys); first <= t.rotation && Ascending(t.rotation[|first|..])
  }

  function Standing<V>(s: State, projects: map<ProjectId, seq<WorkflowId>>, m: map<WorkflowId, V>): map<WorkflowId, V> {
    map w | w in m && Stands(s, projects, w) :: m[w]
  }

  /** `w` waits and stands in the queue of its project. */
  predicate Stands(s: State, projects: map<ProjectId, seq<WorkflowId>>, w: WorkflowId) {
    w in s.waiting && w in s.owner && s.owner[w] in projects && w in projects[s.owner[w]]
  }

  /** From any state whose queues hold nobody twice, a repair makes waiting workflows,
      owners, queues and rotation agree. */
  lemma RepairMakesConsistent(s: State, t: State)
    requires Repaired(s, t) && QueuesDistinct(s)
    ensures t.waiting.Keys == t.owner.Keys && Placed(t) && QueuesDistinct(t) && Rotates(t) && QueuesLive(t)
  {
    forall p | p in t.projects
      ensures NoRepeats(t.projects[p]) && t.projects[p] != [] && forall w :: w in t.projects[p] <==> w in Live(t, p)
    {
      FilterMembers(s.projects[p], Live(s, p));
    }
  }

  /** From a sane state the repair pass settles the queues. */
  lemma RepairSettles(s: State, t: State)
    requires Repaired(s, t) && Sane(s)
    ensures t == Settled(s)
  {
    hide *;
    RepairedFields(s, t);
    SettledFields(s);
  }

  lemma SettledFields(s: State)
    ensures Settled(s) == State(s.active, s.lastTick, s.maximum, SettledProjects(s),
                                Filter(s.rotation, SettledProjects(s).Keys), s.waiting, s.owner)
  {
  }

  lemma RepairedFields(s: State, t: State)
    requires Repaired(s, t) && Sane(s)
    ensures t == State(s.active, s.lastTick, s.maximum, SettledProjects(s),
                       Filter(s.rotation, SettledProjects(s).Keys), s.waiting, s.owner)
  {
    hide Stands, SettledProjects, Filter, FirstOf, NoRepeats, Ascending, QueuesDistinct;
    SaneStands(s, t.projects);
    EverybodyStands(s, t.projects, s.waiting);
    EverybodyStands(s, t.projects, s.owner);
    KeysQueued(s);
    NothingMissing(s.rotation, t.rotation, t.projects.Keys);
  }

  lemma KeysQueued(s: State)
    ensures SettledProjects(s).Keys <= s.projects.Keys
  {
  }

  lemma EverybodyStands<V>(s: State, projects: map<ProjectId, seq<WorkflowId>>, m: map<WorkflowId, V>)
    requires forall w :: w in m ==> Stands(s, projects, w)
    ensures Standing(s, projects, m) == m
  {
  }

  lemma SaneStands(s: State, projects: map<ProjectId, seq<WorkflowId>>)
    requires Placed(s) && s.waiting.Keys == s.owner.Keys
    requires projects == SettledProjects(s)
    ensures forall w :: w in s.owner ==> Stands(s, projects, w)
  {
    forall w | w in s.owner ensures Stands(s, projects, w) {
      FilterMembers(s.projects[s.owner[w]], Live(s, s.owner[w]));
      assert w in Live(s, s.owner[w]);
    }
  }

  /** A rotation that names every queued project needs nothing appended. */
  lemma NothingMissing(s: seq<ProjectId>, t: seq<ProjectId>, keys: set<ProjectId>)
    requires NoRepeats(s) && NoRepeats(t) && (forall p :: p in t <==> p in keys) && (forall p :: p in keys ==> p in s)
    requires FirstOf(s, keys) <= t
    ensures t == Filter(s, keys)
  {
    FirstOfDistinct(s, keys);
    FirstOfMembers(s, keys);
    var first := FirstOf(s, keys);
    if t != [] {
      var k := |t| - 1;
      assert t[k] in first;
      var i :| 0 <= i < |first| && first[i] == t[k];
      assert i == k by { assert t[i] == first[i]; }
    }
  }

  // ---- removal

  /** `remove`. */
  function Removed(s: State, w: WorkflowId): State {
    var base := s.(active := s.active - {w});
    if w !in s.owner then base
    else
      var p := s.owner[w];
      var unlisted := base.(owner := s.owner - {w}, waiting := s.waiting - {w});
      if p !in s.projects then unlisted
      else
        var queue := Filter(s.projects[p], (set x | x in s.projects[p]) - {w});
        if queue == [] then
          unlisted.(projects := s.projects - {p}, rotation := Filter(s.rotation, (set q | q in s.rotation) - {p}))
        else unlisted.(projects := s.projects[p := queue])
  }

  /** The workflows `gone` neither run nor wait any more. */
  function Without(s: State, gone: set<WorkflowId>): State {
    s.(active := s.active - gone, waiting := s.waiting - gone, owner := s.owner - gone)
  }

  lemma RemovedWaiting(s: State, w: WorkflowId)
    requires s.waiting.Keys == s.owner.Keys
    ensures var t := Removed(s, w);
            && t.active == s.active - {w} && t.maximum == s.maximum
            && t.waiting.Keys == t.owner.Keys && t.waiting.Keys <= s.waiting.Keys
  {
  }

  lemma RemovedIsSane(s: State, w: WorkflowId)
    requires Sane(s)
    ensures Sane(Removed(s, w))
  {
    RemovedQueues(s, w);
    RemovedRotates(s, w);
    RemovedWaiting(s, w);
    hide Placed, QueuesDistinct, Rotates, Removed;
    SmallerMap(s.active, {w});
  }

  lemma RemovedQueues(s: State, w: WorkflowId)
    requires Placed(s) && QueuesDistinct(s)
    ensures Placed(Removed(s, w)) && QueuesDistinct(Removed(s, w))
  {
    if w in s.owner {
      var p := s.owner[w];
      FilterMembers(s.projects[p], (set x | x in s.projects[p]) - {w});
      hide NoRepeats;
      var t := Removed(s, w);
      assert forall x :: x in t.owner ==> x in s.owner && x != w && t.owner[x] == s.owner[x];
    }
  }

  lemma RemovedRotates(s: State, w: WorkflowId)
    requires Rotates(s) && Placed(s)
    ensures Rotates(Removed(s, w))
  {
    if w in s.owner {
      FilterMembers(s.rotation, (set q | q in s.rotation) - {s.owner[w]});
    }
  }

  lemma SmallerMap<K, V>(m: map<K, V>, gone: set<K>)
    ensures |m - gone| <= |m|
  {
    var smaller := m - gone;
    assert smaller.Keys <= m.Keys;
    SubsetSize(smaller.Keys, m.Keys);
    assert |smaller| == |smaller.Keys| && |m| == |m.Keys|;
  }

  lemma SubsetSize<A>(s: set<A>, t: set<A>)
    requires s <= t
    ensures |s| <= |t|
  {
    assert t == s + (t - s);
  }

  /** Two states that settle to the same queues. */
  lemma SameSettled(s: State, t: State)
    requires s.active == t.active && s.lastTick == t.lastTick && s.maximum == t.maximum
    requires s.waiting == t.waiting && s.owner == t.owner
    requires forall p :: Queue(s, p) == Queue(t, p)
    requires Filter(s.rotation, Settled(s).projects.Keys) == Filter(t.rotation, Settled(s).projects.Keys)
    ensures Settled(s) == Settled(t)
  {
    assert Settled(s).projects == Settled(t).projects;
  }

  lemma RemovedQueue(s: State, w: WorkflowId, q: ProjectId)
    requires w in s.owner && s.owner[w] in s.projects
    ensures Queue(Removed(s, w), q) == Queue(Without(s, {w}), q)
  {
    var t, u, p := Removed(s, w), Without(s, {w}), s.owner[w];
    var others := (set x | x in s.projects[p]) - {w};
    assert Live(t, q) == Live(u, q);
    if q == p {
      FilterTwice(s.projects[p], others, Live(u, p));
      FilterSame(s.projects[p], others * Live(u, p), Live(u, p));
      if p !in t.projects {
        assert Filter<WorkflowId>([], Live(u, p)) == [];
      }
    }
  }

  /** After settling, removing a workflow means no more than that it is gone. */
  lemma RemovedSettles(s: State, w: WorkflowId)
    requires s.waiting.Keys == s.owner.Keys && (w in s.owner ==> s.owner[w] in s.projects)
    ensures Settled(Removed(s, w)) == Settled(Without(s, {w}))
  {
    var t, u := Removed(s, w), Without(s, {w});
    if w in s.owner {
      forall q ensures Queue(t, q) == Queue(u, q) {
        RemovedQueue(s, w, q);
      }
      var p, keys := s.owner[w], Settled(t).projects.Keys;
      if p !in t.projects {
        var rest := (set q | q in s.rotation) - {p};
        FilterTwice(s.rotation, rest, keys);
        FilterSame(s.rotation, rest * keys, keys);
      }
      hide Queue, Live;
      SameSettled(t, u);
    } else {
      assert s.waiting - {w} == s.waiting && s.owner - {w} == s.owner;
      assert t == u;
    }
  }

  /** Settling first makes no difference to what remains when workflows go. */
  lemma WithoutSettles(s: State, gone: set<WorkflowId>)
    ensures Settled(Without(s, gone)) == Settled(Without(Settled(s), gone))
  {
    var t, u := Without(s, gone), Without(Settled(s), gone);
    forall p ensures Queue(t, p) == Queue(u, p) {
      assert Live(t, p) == Live(u, p);
      if p in s.projects {
        FilterTwice(s.projects[p], Live(s, p), Live(t, p));
        FilterSame(s.projects[p], Live(s, p) * Live(t, p), Live(t, p));
      }
    }
    var keys := Settled(t).projects.Keys;
    FilterTwice(s.rotation, Settled(s).projects.Keys, keys);
    forall p | p in keys ensures p in Settled(s).projects {
      assert Queue(u, p) != [];
    }
    FilterSame(s.rotation, Settled(s).projects.Keys * keys, keys);
    SameSettled(t, u);
  }

  // ---- the operations

  /** The leases that have not expired. */
  function Running(s: State, now: nat): map<WorkflowId, nat> {
    map w | w in s.active && s.active[w] > now :: s.active[w]
  }

  /** The waiters that have not renewed in time. */
  function Abandoned(s: State, now: nat): set<WorkflowId> {
    set w | w in s.waiting && s.waiting[w] <= now
  }

  /** `reap`: expired leases and abandoned waiters go, then the queues are repaired. */
  function Reaped(s: State, now: nat): State {
    var running := Running(s, now);
    var abandoned := Abandoned(s, now);
    Settled(Without(s.(active := running), abandoned))
  }

  lemma ReapedIsConsistent(s: State, now: nat)
    requires Sane(s)
    ensures Consistent(Reaped(s, now)) && Reaped(s, now).maximum == s.maximum
  {
    var running := Running(s, now);
    var abandoned := Abandoned(s, now);
    WithoutIsSane(s, running, abandoned);
    SettledIsConsistent(Without(s.(active := running), abandoned));
  }

  lemma WithoutIsSane(s: State, running: map<WorkflowId, nat>, gone: set<WorkflowId>)
    requires Sane(s) && running.Keys <= s.active.Keys
    ensures Sane(Without(s.(active := running), gone))
  {
    hide Placed, QueuesDistinct, Rotates;
    WithoutPlaced(s, running, gone);
    SmallerMap(running, gone);
    SubsetSize(running.Keys, s.active.Keys);
    assert |running| == |running.Keys| && |s.active| == |s.active.Keys|;
  }

  lemma WithoutPlaced(s: State, running: map<WorkflowId, nat>, gone: set<WorkflowId>)
    requires Placed(s) && QueuesDistinct(s) && Rotates(s)
    ensures var t := Without(s.(active := running), gone); Placed(t) && QueuesDistinct(t) && Rotates(t)
  {
    hide NoRepeats;
  }

  /** `enqueue`. */
  function Enqueued(s: State, p: ProjectId, w: WorkflowId, now: nat): State {
    var expires := SaturatingAdd(now, LEASE_MILLIS);
    if w in s.waiting then s.(waiting := s.waiting[w := expires])
    else
      s.(waiting := s.waiting[w := expires],
         projects := s.projects[p := (if p in s.projects then s.projects[p] else []) + [w]],
         owner := s.owner[w := p],
         rotation := if p in s.projects then s.rotation else s.rotation + [p])
  }

  /** `dequeue_front`; `popped` says whether the build evaluates `debug_assert_eq!`. */
  function Dequeued(s: State, p: ProjectId, w: WorkflowId, popped: bool): State
    requires p in s.projects && s.projects[p] != [] && s.rotation != []
  {
    var queue := if popped then s.projects[p][1..] else s.projects[p];
    var t := s.(waiting := s.waiting - {w}, owner := s.owner - {w});
    if queue == [] then t.(projects := s.projects - {p}, rotation := s.rotation[1..])
    else t.(projects := s.projects[p := queue], rotation := s.rotation[1..] + [p])
  }

  /** It is this workflow's turn. */
  predicate AtFront(s: State, p: ProjectId, w: WorkflowId) {
    s.rotation != [] && s.rotation[0] == p && p in s.projects && s.projects[p] != [] && s.projects[p][0] == w
  }

  function Answer(s: State, admitted: bool, expires: Option<nat>, reason: Option<Reason>): Reply {
    Reply(|s.active|, admitted, expires, s.maximum, reason, if admitted then 0 else RETRY_MILLIS)
  }

  function Ticked(s: State, now: nat): State {
    if SaturatingSub(now, s.lastTick) >= TICK_MILLIS then s.(lastTick := now) else s
  }

  /** The part of `execute` for a workflow that has just been queued. */
  function Decided(s: State, p: ProjectId, w: WorkflowId, decision: Decision, now: nat, popped: bool): (State, Reply) {
    var expires := SaturatingAdd(now, LEASE_MILLIS);
    if |s.active| >= s.maximum then (s, Answer(s, false, None, Some(ConcurrencyLimit)))
    else if !AtFront(s, p, w) then (s, Answer(s, false, None, Some(FairQueue)))
    else
      var t := Ticked(s, now);
      if !decision.Admit? then (t, Answer(t, false, None, Some(Deferred(decision))))
      else
        var u := Dequeued(t, p, w, popped);
        var v := u.(active := u.active[w := expires]);
        (v, Answer(v, true, Some(expires), None))
  }

  /** `execute`. */
  function Executed(s: State, op: Operation, p: ProjectId, w: WorkflowId, decision: Decision, now: nat,
                    popped: bool): (State, Reply) {
    var s1 := Reaped(s, now);
    var expires := SaturatingAdd(now, LEASE_MILLIS);
    if op.Release? then
      var s2 := Removed(s1, w);
      (s2, Answer(s2, false, None, Some(Released)))
    else if w in s1.active then
      var s2 := s1.(active := s1.active[w := expires]);
      (s2, Answer(s2, true, Some(expires), None))
    else Decided(Enqueued(s1, p, w, now), p, w, decision, now, popped)
  }

  // ---- what the operations keep

  /** The queues do not depend on when the waiting expires. */
  lemma OnlyExpiries(s: State, waiting: map<WorkflowId, nat>)
    requires waiting.Keys == s.waiting.Keys
    ensures var t := s.(waiting := waiting);
            Placed(t) == Placed(s) && QueuesDistinct(t) == QueuesDistinct(s) && Rotates(t) == Rotates(s)
            && QueuesLive(t) == QueuesLive(s)
  {
    assert forall q :: Live(s.(waiting := waiting), q) == Live(s, q);
  }

  lemma EnqueuedIsConsistent(s: State, p: ProjectId, w: WorkflowId, now: nat)
    requires Consistent(s) && w !in s.active
    ensures Consistent(Enqueued(s, p, w, now))
    ensures Enqueued(s, p, w, now).active == s.active && Enqueued(s, p, w, now).maximum == s.maximum
  {
    hide Placed, QueuesDistinct, Rotates, QueuesLive;
    if w in s.waiting {
      OnlyExpiries(s, s.waiting[w := SaturatingAdd(now, LEASE_MILLIS)]);
    } else {
      EnqueuedQueues(s, p, w, now);
      EnqueuedRotates(s, p, w, now);
    }
  }

  lemma EnqueuedFields(s: State, p: ProjectId, w: WorkflowId, now: nat)
    requires w !in s.waiting
    ensures var t := Enqueued(s, p, w, now);
            && t.projects == s.projects[p := (if p in s.projects then s.projects[p] else []) + [w]]
            && t.owner == s.owner[w := p] && t.waiting.Keys == s.waiting.Keys + {w}
  {
  }

  lemma NobodyUnlisted(s: State, p: ProjectId)
    requires Placed(s)
    ensures p !in s.projects ==> Live(s, p) == {}
  {
  }

  lemma EnqueuedPlaced(s: State, p: ProjectId, w: WorkflowId, now: nat)
    requires Placed(s) && w !in s.waiting
    ensures Placed(Enqueued(s, p, w, now))
  {
    EnqueuedFields(s, p, w, now);
    hide Enqueued;
  }

  lemma EnqueuedLive(s: State, p: ProjectId, w: WorkflowId, now: nat)
    requires Placed(s) && QueuesLive(s) && w !in s.waiting && w !in s.owner
    ensures QueuesLive(Enqueued(s, p, w, now))
  {
    EnqueuedFields(s, p, w, now);
    NobodyUnlisted(s, p);
    hide Enqueued, Placed;
    var t := Enqueued(s, p, w, now);
    assert Live(t, p) == Live(s, p) + {w};
    assert forall q :: q != p ==> Live(t, q) == Live(s, q);
    hide Live;
  }

  lemma EnqueuedQueues(s: State, p: ProjectId, w: WorkflowId, now: nat)
    requires Placed(s) && QueuesDistinct(s) && QueuesLive(s) && w !in s.waiting && w !in s.owner
    requires s.waiting.Keys == s.owner.Keys
    ensures var t := Enqueued(s, p, w, now); Placed(t) && QueuesDistinct(t) && QueuesLive(t)
  {
    EnqueuedDistinct(s, p, w, now);
    EnqueuedPlaced(s, p, w, now);
    EnqueuedLive(s, p, w, now);
    hide *;
  }

  lemma EnqueuedDistinct(s: State, p: ProjectId, w: WorkflowId, now: nat)
    requires QueuesDistinct(s) && QueuesLive(s) && w !in s.waiting
    ensures QueuesDistinct(Enqueued(s, p, w, now))
  {
    assert p in s.projects && w in s.projects[p] ==> w in Live(s, p);
  }

  lemma EnqueuedRotates(s: State, p: ProjectId, w: WorkflowId, now: nat)
    requires Rotates(s)
    ensures Rotates(Enqueued(s, p, w, now))
  {
  }

  lemma DequeuedIsSane(s: State, p: ProjectId, w: WorkflowId, popped: bool)
    requires Consistent(s) && AtFront(s, p, w)
    ensures var t := Dequeued(s, p, w, popped);
            && Placed(t) && QueuesDistinct(t) && Rotates(t)
            && t.waiting.Keys == t.owner.Keys == s.waiting.Keys - {w} && t.active == s.active && t.maximum == s.maximum
            && (popped ==> QueuesLive(t))
  {
    DequeuedQueues(s, p, w, popped);
    DequeuedRotates(s, p, w, popped);
    hide Placed, QueuesDistinct, Rotates;
  }

  lemma TailDistinct<A>(s: seq<A>)
    requires NoRepeats(s) && s != []
    ensures NoRepeats(s[1..]) && s[0] !in s[1..] && forall x :: x in s[1..] <==> x in s && x != s[0]
  {
    assert s == [s[0]] + s[1..];
  }

  lemma DequeuedPlaced(s: State, p: ProjectId, w: WorkflowId, popped: bool)
    requires Placed(s) && AtFront(s, p, w)
    requires forall x :: x in s.projects[p][1..] <==> x in s.projects[p] && x != w
    ensures Placed(Dequeued(s, p, w, popped))
  {
    var t := Dequeued(s, p, w, popped);
    forall x | x in t.owner ensures t.owner[x] in t.projects && x in t.projects[t.owner[x]] {
      assert x != w && t.owner[x] == s.owner[x] && x in s.projects[s.owner[x]];
    }
  }

  lemma DequeuedLive(s: State, p: ProjectId, w: WorkflowId)
    requires QueuesLive(s) && AtFront(s, p, w) && w in Live(s, p)
    requires forall x :: x in s.projects[p][1..] <==> x in s.projects[p] && x != w
    ensures QueuesLive(Dequeued(s, p, w, true))
  {
    var t := Dequeued(s, p, w, true);
    assert Live(t, p) == Live(s, p) - {w};
    assert forall q :: q != p ==> Live(t, q) == Live(s, q);
    hide Live;
    forall q | q in t.projects ensures t.projects[q] != [] && forall x :: x in t.projects[q] <==> x in Live(t, q) {
    }
  }

  lemma DequeuedQueues(s: State, p: ProjectId, w: WorkflowId, popped: bool)
    requires Placed(s) && QueuesDistinct(s) && QueuesLive(s) && AtFront(s, p, w) && s.waiting.Keys == s.owner.Keys
    ensures var t := Dequeued(s, p, w, popped); Placed(t) && QueuesDistinct(t) && (popped ==> QueuesLive(t))
  {
    var t := Dequeued(s, p, w, popped);
    TailDistinct(s.projects[p]);
    assert w in Live(s, p) by { assert w in s.projects[p]; }
    DequeuedPlaced(s, p, w, popped);
    if popped { DequeuedLive(s, p, w); }
    hide NoRepeats, Live, Placed, QueuesLive;
  }

  lemma DequeuedRotates(s: State, p: ProjectId, w: WorkflowId, popped: bool)
    requires Rotates(s) && AtFront(s, p, w)
    ensures Rotates(Dequeued(s, p, w, popped))
  {
    assert s.rotation == [p] + s.rotation[1..];
  }

  lemma DecidedIsSane(s: State, p: ProjectId, w: WorkflowId, decision: Decision, now: nat, popped: bool)
    requires Consistent(s) && w !in s.active
    ensures var (t, reply) := Decided(s, p, w, decision, now, popped);
            && Sane(t) && (popped ==> Consistent(t)) && t.maximum == s.maximum
            && reply.active == |t.active| && (reply.admitted <==> w in t.active)
  {
    TickedIsConsistent(s, now);
    var t := Ticked(s, now);
    if |s.active| < s.maximum && AtFront(s, p, w) && decision.Admit? {
      DequeuedIsSane(t, p, w, popped);
      AdmittedIsSane(t, p, w, popped, SaturatingAdd(now, LEASE_MILLIS));
    }
    hide Placed, QueuesDistinct, Rotates, QueuesLive, Dequeued, Ticked;
  }

  /** Every call keeps the queues sane, never exceeds the limit, and never has a
      workflow both running and waiting; builds that pop keep them consistent. */
  lemma ExecutedIsSane(s: State, op: Operation, p: ProjectId, w: WorkflowId, decision: Decision, now: nat, popped: bool)
    requires Sane(s)
    ensures var (t, reply) := Executed(s, op, p, w, decision, now, popped);
            && Sane(t) && (popped ==> Consistent(t))
            && reply.active == |t.active| <= t.maximum == s.maximum && t.active.Keys !! t.waiting.Keys
            && (reply.admitted <==> !op.Release? && w in t.active)
  {
    ReapedIsConsistent(s, now);
    var s1 := Reaped(s, now);
    hide Placed, QueuesDistinct, Rotates, QueuesLive, Enqueued, Decided, Reaped, Removed;
    if op.Release? {
      RemovedIsSane(s1, w);
      RemovedIsConsistent(s1, w);
    } else if w in s1.active {
      RenewedIsConsistent(s1, w, SaturatingAdd(now, LEASE_MILLIS));
    } else {
      EnqueuedIsConsistent(s1, p, w, now);
      DecidedIsSane(Enqueued(s1, p, w, now), p, w, decision, now, popped);
    }
  }

  lemma AdmittedIsSane(s: State, p: ProjectId, w: WorkflowId, popped: bool, expires: nat)
    requires Consistent(s) && AtFront(s, p, w) && |s.active| < s.maximum && w !in s.active
    ensures var t := Dequeued(s, p, w, popped);
            && t.maximum == s.maximum
            && Sane(t.(active := t.active[w := expires]))
            && (popped ==> Consistent(t.(active := t.active[w := expires])))
  {
    DequeuedIsSane(s, p, w, popped);
    var t := Dequeued(s, p, w, popped);
    OnlyActive(t, t.active[w := expires]);
    hide Placed, QueuesDistinct, Rotates, QueuesLive, Dequeued;
  }

  /** The queues do not depend on what is running. */
  lemma OnlyActive(s: State, active: map<WorkflowId, nat>)
    ensures var t := s.(active := active);
            Placed(t) == Placed(s) && QueuesDistinct(t) == QueuesDistinct(s) && Rotates(t) == Rotates(s)
            && QueuesLive(t) == QueuesLive(s)
  {
    assert forall q :: Live(s.(active := active), q) == Live(s, q);
  }

  lemma TickedIsConsistent(s: State, now: nat)
    requires Consistent(s)
    ensures Consistent(Ticked(s, now)) && Ticked(s, now) == s.(lastTick := Ticked(s, now).lastTick)
  {
    assert forall q :: Live(Ticked(s, now), q) == Live(s, q);
  }

  lemma RenewedIsConsistent(s: State, w: WorkflowId, expires: nat)
    requires Consistent(s) && w in s.active
    ensures Consistent(s.(active := s.active[w := expires]))
  {
    var t := s.(active := s.active[w := expires]);
    assert t.active.Keys == s.active.Keys;
    assert |t.active| == |t.active.Keys| && |s.active| == |s.active.Keys|;
    assert forall q :: Live(t, q) == Live(s, q);
  }

  lemma RemovedIsConsistent(s: State, w: WorkflowId)
    requires Consistent(s)
    ensures Consistent(Removed(s, w)) && w !in Removed(s, w).active && Removed(s, w).maximum == s.maximum
  {
    RemovedIsSane(s, w);
    RemovedLive(s, w);
    hide Placed, QueuesDistinct, Rotates;
  }

  lemma RemovedLive(s: State, w: WorkflowId)
    requires QueuesLive(s) && Placed(s) && s.waiting.Keys == s.owner.Keys
    ensures QueuesLive(Removed(s, w))
  {
    var t := Removed(s, w);
    if w in s.owner {
      var p := s.owner[w];
      FilterMembers(s.projects[p], (set x | x in s.projects[p]) - {w});
      hide NoRepeats;
      assert forall q :: Live(t, q) == Live(s, q) - {w};
      forall q | q in t.projects ensures t.projects[q] != [] && forall x :: x in t.projects[q] <==> x in Live(t, q) {
        assert q != p ==> w !in Live(s, q);
      }
    } else {
      assert forall q :: Live(t, q) == Live(s, q);
    }
  }

  // ---- both builds answer alike

  /** Two states, one of each build, that a repair makes equal. */
  ghost predicate Alike(s: State, t: State) {
    Sane(s) && Sane(t) && Settled(s) == Settled(t)
  }

  lemma AlikeReapAlike(s: State, t: State, now: nat)
    requires Alike(s, t)
    ensures Reaped(s, now) == Reaped(t, now)
  {
    var running := Running(s, now);
    var abandoned := Abandoned(s, now);
    assert Settled(s).active == Settled(t).active && Settled(s).waiting == Settled(t).waiting;
    RunningSettles(s, running);
    RunningSettles(t, running);
    WithoutSettles(s.(active := running), abandoned);
    WithoutSettles(t.(active := running), abandoned);
  }

  lemma RunningSettles(s: State, running: map<WorkflowId, nat>)
    ensures Settled(s.(active := running)) == Settled(s).(active := running)
  {
    assert forall p :: Live(s.(active := running), p) == Live(s, p);
    assert forall p :: Queue(s.(active := running), p) == Queue(s, p);
    assert Settled(s.(active := running)).projects == Settled(s).projects;
  }

  /** Leaving the served workflow in its queue is repaired to the same queues as popping it. */
  lemma PopMakesNoDifference(s: State, p: ProjectId, w: WorkflowId)
    requires Consistent(s) && AtFront(s, p, w)
    ensures Settled(Dequeued(s, p, w, true)) == Settled(Dequeued(s, p, w, false))
  {
    var t, u := Dequeued(s, p, w, true), Dequeued(s, p, w, false);
    forall q ensures Queue(u, q) == Queue(t, q) {
      PoppedQueues(s, p, w, q);
    }
    var keys := Settled(u).projects.Keys;
    assert p !in t.projects ==> Queue(t, p) == [];
    if p !in t.projects { AppendedIsFiltered(s.rotation[1..], p, keys); }
    hide Consistent, Queue;
    SameSettled(u, t);
  }

  lemma AppendedIsFiltered<A>(s: seq<A>, x: A, keep: set<A>)
    requires x !in keep
    ensures Filter(s + [x], keep) == Filter(s, keep)
  {
    assert (s + [x])[..|s|] == s;
    assert Filter(s, keep) + [] == Filter(s, keep);
  }

  lemma PoppedQueues(s: State, p: ProjectId, w: WorkflowId, q: ProjectId)
    requires Consistent(s) && AtFront(s, p, w)
    ensures Queue(Dequeued(s, p, w, false), q) == Queue(Dequeued(s, p, w, true), q)
  {
    hide Filter, Sane, QueuesLive;
    if q == p {
      PoppedQueue(s, p, w);
    } else {
      assert Live(Dequeued(s, p, w, false), q) == Live(Dequeued(s, p, w, true), q);
    }
  }

  lemma PoppedQueue(s: State, p: ProjectId, w: WorkflowId)
    requires Consistent(s) && AtFront(s, p, w)
    ensures Queue(Dequeued(s, p, w, false), p) == Queue(Dequeued(s, p, w, true), p)
  {
    hide Filter, Sane, QueuesLive;
    var t, u := Dequeued(s, p, w, true), Dequeued(s, p, w, false);
    assert Live(u, p) == Live(t, p) && w !in Live(t, p);
    FilterHead(s.projects[p], Live(t, p));
  }

  lemma FilterHead<A>(s: seq<A>, keep: set<A>)
    requires s != [] && s[0] !in keep
    ensures Filter(s, keep) == Filter(s[1..], keep) && Filter<A>([], keep) == []
  {
    assert s == [s[0]] + s[1..];
    FilterJoin([s[0]], s[1..], keep);
    assert Filter([s[0]], keep) == [] by { assert [s[0]][..0] == []; }
    assert [] + Filter(s[1..], keep) == Filter(s[1..], keep);
  }

  datatype Call =
    | Execute(op: Operation, project: ProjectId, workflow: WorkflowId, decision: Decision, now: nat)
    | Drop(workflow: WorkflowId)

  /** One call in one build: the new state and, for `execute`, its reply. */
  function Performed(s: State, c: Call, popped: bool): (State, Option<Reply>) {
    match c
    case Execute(op, p, w, decision, now) =>
      var (t, reply) := Executed(s, op, p, w, decision, now, popped);
      (t, Some(reply))
    case Drop(w) => (Removed(s, w), None)
  }

  lemma AlikeStep(s: State, t: State, c: Call)
    requires Alike(s, t)
    ensures var (s', r), (t', r') := Performed(s, c, true), Performed(t, c, false); Alike(s', t') && r == r'
  {
    match c {
      case Execute(op, p, w, decision, now) =>
        AlikeReapAlike(s, t, now);
        ExecutedIsSane(s, op, p, w, decision, now, true);
        ExecutedIsSane(t, op, p, w, decision, now, false);
        AlikeExecuted(Reaped(s, now), s, t, op, p, w, decision, now);
      case Drop(w) =>
        RemovedIsSane(s, w);
        RemovedIsSane(t, w);
        RemovedSettles(s, w);
        RemovedSettles(t, w);
        WithoutSettles(s, {w});
        WithoutSettles(t, {w});
    }
  }

  lemma AlikeExecuted(s1: State, s: State, t: State, op: Operation, p: ProjectId, w: WorkflowId, decision: Decision,
                      now: nat)
    requires Sane(s) && s1 == Reaped(s, now) == Reaped(t, now)
    ensures var (s', r), (t', r') :=
              Executed(s, op, p, w, decision, now, true), Executed(t, op, p, w, decision, now, false);
            Settled(s') == Settled(t') && r == r'
  {
    hide Settled, Decided, Reaped, Enqueued, Removed, Sane, QueuesLive;
    ReapedIsConsistent(s, now);
    if !op.Release? && w !in s1.active {
      EnqueuedIsConsistent(s1, p, w, now);
      DecidedAlike(Enqueued(s1, p, w, now), p, w, decision, now);
    }
  }

  lemma DecidedAlike(s: State, p: ProjectId, w: WorkflowId, decision: Decision, now: nat)
    requires Consistent(s)
    ensures var (t, r), (t', r') := Decided(s, p, w, decision, now, true), Decided(s, p, w, decision, now, false);
            Settled(t) == Settled(t') && r == r'
  {
    TickedIsConsistent(s, now);
    var t := Ticked(s, now);
    if |s.active| < s.maximum && AtFront(s, p, w) && decision.Admit? {
      PopMakesNoDifference(t, p, w);
      var expires := SaturatingAdd(now, LEASE_MILLIS);
      RunningSettles(Dequeued(t, p, w, true), t.active[w := expires]);
      RunningSettles(Dequeued(t, p, w, false), t.active[w := expires]);
    }
    hide Settled, Consistent, Ticked;
  }

  function Run(s: State, calls: seq<Call>, popped: bool): (State, seq<Option<Reply>>)
    decreases |calls|
  {
    if calls == [] then (s, [])
    else
      var (t, reply) := Performed(s, calls[0], popped);
      var (end, replies) := Run(t, calls[1..], popped);
      (end, [reply] + replies)
  }

  /** On every call sequence, builds with and without the pop answer the same. */
  lemma {:induction false} BuildsAnswerAlike(s: State, t: State, calls: seq<Call>)
    requires Alike(s, t)
    ensures Run(s, calls, true).1 == Run(t, calls, false).1 && Alike(Run(s, calls, true).0, Run(t, calls, false).0)
    decreases |calls|
  {
    if calls != [] {
      AlikeStep(s, t, calls[0]);
      BuildsAnswerAlike(Performed(s, calls[0], true).0, Performed(t, calls[0], false).0, calls[1..]);
    }
  }

  lemma NewIsAlike(maximum: nat)
    ensures Consistent(New(maximum)) && Alike(New(maximum), New(maximum))
  {
  }

  /** So from a new queue, whose limit no call of either build ever exceeds. */
  lemma BuildsAnswerAlikeFromNew(maximum: nat, calls: seq<Call>)
    ensures Run(New(maximum), calls, true).1 == Run(New(maximum), calls, false).1
    ensures forall popped :: |Run(New(maximum), calls, popped).0.active| <= Run(New(maximum), calls, popped).0.maximum
  {
    hide Run, Performed, Settled;
    NewIsAlike(maximum);
    BuildsAnswerAlike(New(maximum), New(maximum), calls);
    assert Sane(Run(New(maximum), calls, true).0) && Sane(Run(New(maximum), calls, false).0);
    forall popped ensures |Run(New(maximum), calls, popped).0.active| <= Run(New(maximum), calls, popped).0.maximum {
    }
  }
}
