/**
 Who is served when (crates/workflowd/src/admission.rs:68-154): projects in turn,
 the workflows of a project in the order in which they came.
 */
module AdmissionFairness {
  import opened AdmissionSpec

  // ---- fairness among projects

  /** Where `x` stands; the length if it does not occur. */
  function Position<A(==)>(s: seq<A>, x: A): (n: nat)
    ensures n <= |s| && (x in s <==> n < |s|) && (n < |s| ==> s[n] == x)
  {
    if s == [] then 0
    else
      var n := Position(s[..|s| - 1], x);
      assert s == s[..|s| - 1] + [s[|s| - 1]];
      if n < |s| - 1 || s[|s| - 1] == x then n else n + 1
  }

  lemma PositionAppend<A>(s: seq<A>, y: A, x: A)
    requires x in s
    ensures Position(s + [y], x) == Position(s, x)
  {
    assert (s + [y])[..|s|] == s;
  }

  lemma {:induction false} PositionTail<A>(s: seq<A>, x: A)
    requires s != [] && s[0] != x
    ensures Position(s, x) == Position(s[1..], x) + 1
    decreases |s|
  {
    if |s| == 1 {
      assert s[..0] == [] && s[1..] == [];
    } else {
      var init := s[..|s| - 1];
      PositionTail(init, x);
      assert init[1..] == s[1..][..|s[1..]| - 1];
    }
  }

  lemma {:induction false} PositionFilter<A>(s: seq<A>, keep: set<A>, x: A)
    requires x in keep
    ensures |Filter(s, keep)| <= |s| && Position(Filter(s, keep), x) <= Position(s, x)
    decreases |s|
  {
    if s != [] {
      var init, last := s[..|s| - 1], s[|s| - 1];
      PositionFilter(init, keep, x);
      assert s == init + [last];
      FilterMembers(init, keep);
      if last in keep {
        assert (Filter(init, keep) + [last])[..|Filter(init, keep)|] == Filter(init, keep);
      } else {
        assert Filter(init, keep) + [] == Filter(init, keep);
      }
    }
  }

  /** The call grants a new lease. */
  predicate Admits(s: State, c: Call) {
    c.Execute? && !c.op.Release? && c.workflow !in Reaped(s, c.now).active && Performed(s, c, true).1.value.admitted
  }

  lemma AdmitsIsTurn(s: State, c: Call, popped: bool)
    requires Sane(s) && Admits(s, c)
    ensures var t := Enqueued(Reaped(s, c.now), c.project, c.workflow, c.now);
            && AtFront(t, c.project, c.workflow)
            && Performed(s, c, popped).0.rotation == Dequeued(t, c.project, c.workflow, popped).rotation
  {
    hide Reaped, Enqueued, Decided, Dequeued, Sane, AtFront;
    AdmittedIsTurn(Enqueued(Reaped(s, c.now), c.project, c.workflow, c.now), c.project, c.workflow, c.decision, c.now,
        popped);
  }

  lemma AdmittedIsTurn(s: State, p: ProjectId, w: WorkflowId, decision: Decision, now: nat, popped: bool)
    requires Decided(s, p, w, decision, now, true).1.admitted
    ensures AtFront(s, p, w) && Decided(s, p, w, decision, now, popped).0.rotation == Dequeued(s, p, w, popped).rotation
  {
  }

  /** The project of index k moves up by one with every admission of another project,
      and is never overtaken by a newcomer. */
  lemma OneStepNearer(s: State, c: Call, p: ProjectId, popped: bool)
    requires Sane(s) && p in s.rotation && p in Performed(s, c, popped).0.rotation
    requires c.Execute? ==> p in Reaped(s, c.now).rotation
    requires !(Admits(s, c) && c.project == p)
    ensures Position(Performed(s, c, popped).0.rotation, p) + (if Admits(s, c) then 1 else 0) <= Position(s.rotation, p)
  {
    hide Removed, Reaped, Enqueued, Decided, Position, Sane;
    match c {
      case Drop(w) => RemovedPosition(s, w, p);
      case Execute(op, q, w, decision, now) =>
        ReapedPosition(s, now, p);
        var s1 := Reaped(s, now);
        if op.Release? {
          RemovedPosition(s1, w, p);
        } else if w !in s1.active {
          var s2 := Enqueued(s1, q, w, now);
          EnqueuedPosition(s1, q, w, now, p);
          if Admits(s, c) {
            AdmitsIsTurn(s, c, popped);
            AdmittedPosition(s2, q, w, p, popped);
          } else {
            NotAdmittedRotation(s2, q, w, decision, now, popped);
          }
        }
    }
  }

  lemma EnqueuedPosition(s: State, q: ProjectId, w: WorkflowId, now: nat, p: ProjectId)
    requires p in s.rotation
    ensures p in Enqueued(s, q, w, now).rotation
    ensures Position(Enqueued(s, q, w, now).rotation, p) == Position(s.rotation, p)
  {
    PositionAppend(s.rotation, q, p);
  }

  lemma NotAdmittedRotation(s: State, q: ProjectId, w: WorkflowId, decision: Decision, now: nat, popped: bool)
    requires !Decided(s, q, w, decision, now, true).1.admitted
    ensures Decided(s, q, w, decision, now, popped).0.rotation == s.rotation
  {
  }

  lemma AdmittedPosition(s: State, q: ProjectId, w: WorkflowId, p: ProjectId, popped: bool)
    requires AtFront(s, q, w) && q != p && p in s.rotation
    ensures Position(Dequeued(s, q, w, popped).rotation, p) + 1 == Position(s.rotation, p)
  {
    PositionTail(s.rotation, p);
    assert s.rotation == [q] + s.rotation[1..];
    PositionAppend(s.rotation[1..], q, p);
  }

  lemma ReapedPosition(s: State, now: nat, p: ProjectId)
    requires p in Reaped(s, now).rotation
    ensures Position(Reaped(s, now).rotation, p) <= Position(s.rotation, p)
  {
    var running := Running(s, now);
    var t := Without(s.(active := running), Abandoned(s, now));
    FilterMembers(t.rotation, Settled(t).projects.Keys);
    PositionFilter(t.rotation, Settled(t).projects.Keys, p);
  }

  lemma RemovedPosition(s: State, w: WorkflowId, p: ProjectId)
    requires p in Removed(s, w).rotation
    ensures Position(Removed(s, w).rotation, p) <= Position(s.rotation, p)
  {
    if w in s.owner {
      var keep := (set q | q in s.rotation) - {s.owner[w]};
      FilterMembers(s.rotation, keep);
      if p in keep { PositionFilter(s.rotation, keep, p); }
    }
  }

  ghost predicate HasWaiter(s: State, p: ProjectId) {
    exists w :: w in s.owner && s.owner[w] == p
  }

  /** Some workflow waiting for `p` has renewed its place beyond `now`. */
  ghost predicate HasRenewed(s: State, p: ProjectId, now: nat) {
    exists w :: w in s.owner && s.owner[w] == p && w in s.waiting && s.waiting[w] > now
  }

  /** A project with a waiting workflow is in the rotation, and stays in it over a
      reap if one of them has renewed. */
  lemma WaitersKeepTheTurn(s: State, p: ProjectId, now: nat)
    requires Sane(s)
    ensures HasWaiter(s, p) ==> p in s.rotation
    ensures HasRenewed(s, p, now) ==> p in Reaped(s, now).rotation
  {
    if HasRenewed(s, p, now) {
      var w :| w in s.owner && s.owner[w] == p && w in s.waiting && s.waiting[w] > now;
      ReapedIsConsistent(s, now);
      hide Queue, SettledProjects;
      assert w in Reaped(s, now).owner && Reaped(s, now).owner[w] == p;
    }
  }

  /** Before every call, and when it reaps, some workflow of `p` is waiting, and none of them is admitted. */
  ghost predicate WaitsThroughout(s: State, calls: seq<Call>, p: ProjectId, popped: bool)
    decreases |calls|
  {
    && HasWaiter(s, p)
    && (calls != [] ==>
          && (calls[0].Execute? ==> HasRenewed(s, p, calls[0].now))
          && !(Admits(s, calls[0]) && calls[0].project == p)
          && WaitsThroughout(Performed(s, calls[0], popped).0, calls[1..], p, popped))
  }

  function Admissions(s: State, calls: seq<Call>, popped: bool): nat
    decreases |calls|
  {
    if calls == [] then 0
    else (if Admits(s, calls[0]) then 1 else 0) + Admissions(Performed(s, calls[0], popped).0, calls[1..], popped)
  }

  lemma PerformedIsSane(s: State, c: Call, popped: bool)
    requires Sane(s)
    ensures Sane(Performed(s, c, popped).0)
  {
    hide Sane, Executed, Removed;
    match c {
      case Execute(op, p, w, decision, now) => ExecutedIsSane(s, op, p, w, decision, now, popped);
      case Drop(w) => RemovedIsSane(s, w);
    }
  }

  /** In either build, a project at index k whose workflows keep waiting is at the front
      after at most k admissions of others. */
  lemma {:induction false} RoundRobin(s: State, calls: seq<Call>, p: ProjectId, popped: bool)
    requires Sane(s) && WaitsThroughout(s, calls, p, popped)
    ensures p in Run(s, calls, popped).0.rotation
    ensures Admissions(s, calls, popped) + Position(Run(s, calls, popped).0.rotation, p) <= Position(s.rotation, p)
    decreases |calls|
  {
    hide Sane, Performed, HasWaiter, HasRenewed, Admits, Position, Reaped;
    if calls != [] {
      var t := Performed(s, calls[0], popped).0;
      PerformedIsSane(s, calls[0], popped);
      if calls[0].Execute? { WaitersKeepTheTurn(s, p, calls[0].now); }
      WaitersKeepTheTurn(s, p, 0);
      WaitersKeepTheTurn(t, p, 0);
      OneStepNearer(s, calls[0], p, popped);
      RoundRobin(t, calls[1..], p, popped);
    } else {
      WaitersKeepTheTurn(s, p, 0);
    }
  }

  lemma NotRunning(s: State, w: WorkflowId)
    requires Sane(s) && w in s.waiting
    ensures w !in s.active
  {
  }

  lemma RenewedIsServed(s: State, p: ProjectId, w: WorkflowId, now: nat, popped: bool)
    requires AtFront(s, p, w) && |s.active| < s.maximum && w in s.waiting
    ensures Decided(Enqueued(s, p, w, now), p, w, Admit, now, popped).1.admitted
  {
    hide Dequeued;
  }

  /** The head of the first project's queue is admitted as soon as there is room and the controller agrees. */
  lemma FirstIsServed(s: State, p: ProjectId, w: WorkflowId, now: nat, popped: bool)
    requires Sane(s) && AtFront(Reaped(s, now), p, w) && |Reaped(s, now).active| < s.maximum
    requires w in Reaped(s, now).waiting
    ensures Executed(s, Acquire, p, w, Admit, now, popped).1.admitted
  {
    ReapedIsConsistent(s, now);
    hide Reaped, Sane, QueuesLive, Decided, Enqueued;
    var s1 := Reaped(s, now);
    NotRunning(s1, w);
    RenewedIsServed(s1, p, w, now, popped);
  }

  // ---- first come, first served within a project

  ghost predicate Before<A>(s: seq<A>, a: A, b: A) {
    exists i, j :: 0 <= i < j < |s| && s[i] == a && s[j] == b
  }

  lemma {:induction false} FilterKeepsOrder<A>(s: seq<A>, keep: set<A>, a: A, b: A)
    requires Before(s, a, b) && a in keep && b in keep
    ensures Before(Filter(s, keep), a, b)
    decreases |s|
  {
    var i, j :| 0 <= i < j < |s| && s[i] == a && s[j] == b;
    var init, last := s[..|s| - 1], s[|s| - 1];
    var rest, all := Filter(init, keep), Filter(s, keep);
    FilterMembers(init, keep);
    if j < |s| - 1 {
      assert init[i] == a && init[j] == b;
      FilterKeepsOrder(init, keep, a, b);
      var m, n :| 0 <= m < n < |rest| && rest[m] == a && rest[n] == b;
      assert all[m] == a && all[n] == b;
    } else {
      assert init[i] == a;
      assert a in rest;
      var m :| 0 <= m < |rest| && rest[m] == a;
      assert all == rest + [b];
      assert all[m] == a && all[|rest|] == b;
    }
  }

  /** `a` waits before `b` in the queue of `p`. */
  ghost predicate Precedes(s: State, p: ProjectId, a: WorkflowId, b: WorkflowId) {
    p in s.projects && Before(s.projects[p], a, b)
  }

  lemma ReapedKeepsOrder(s: State, now: nat, p: ProjectId, a: WorkflowId, b: WorkflowId)
    requires Precedes(s, p, a, b) && a in Live(Reaped(s, now), p) && b in Live(Reaped(s, now), p)
    ensures Precedes(Reaped(s, now), p, a, b)
  {
    var running := Running(s, now);
    var t := Without(s.(active := running), Abandoned(s, now));
    assert Live(Reaped(s, now), p) == Live(t, p);
    FilterKeepsOrder(s.projects[p], Live(t, p), a, b);
    assert Queue(t, p) != [];
  }

  lemma EnqueuedKeepsOrder(s: State, q: ProjectId, w: WorkflowId, now: nat, p: ProjectId, a: WorkflowId, b: WorkflowId)
    requires Precedes(s, p, a, b)
    ensures Precedes(Enqueued(s, q, w, now), p, a, b)
  {
    var i, j :| 0 <= i < j < |s.projects[p]| && s.projects[p][i] == a && s.projects[p][j] == b;
    var queue := Enqueued(s, q, w, now).projects[p];
    assert queue[i] == a && queue[j] == b;
  }

  /** While `a` is still waiting, a later workflow `b` of its project is not admitted. */
  lemma FirstComeFirstServed(s: State, c: Call, p: ProjectId, a: WorkflowId, b: WorkflowId)
    requires Sane(s) && Precedes(s, p, a, b) && a != b
    requires Admits(s, c) && c.project == p && c.workflow == b
    ensures a !in Live(Reaped(s, c.now), p) || b !in Live(Reaped(s, c.now), p)
  {
    var s1 := Reaped(s, c.now);
    if a in Live(s1, p) && b in Live(s1, p) {
      ReapedKeepsOrder(s, c.now, p, a, b);
      EnqueuedKeepsOrder(s1, p, b, c.now, p, a, b);
      AdmitsIsTurn(s, c, true);
      ReapedIsConsistent(s, c.now);
      EnqueuedIsConsistent(s1, p, b, c.now);
    }
  }

  /** Whatever is called in either build, two workflows that both go on waiting keep their order. */
  lemma OrderIsKept(s: State, c: Call, p: ProjectId, a: WorkflowId, b: WorkflowId, popped: bool)
    requires Sane(s) && Precedes(s, p, a, b) && a != b
    requires var t := Performed(s, c, popped).0; a in Live(t, p) && b in Live(t, p)
    requires c.Execute? ==> a in Live(Reaped(s, c.now), p) && b in Live(Reaped(s, c.now), p)
    ensures Precedes(Performed(s, c, popped).0, p, a, b)
  {
    hide Reaped, Enqueued, Decided, Removed, Live, Precedes;
    match c {
      case Drop(w) => RemovedKeepsOrder(s, w, p, a, b);
      case Execute(op, q, w, decision, now) =>
        ReapedKeepsOrder(s, now, p, a, b);
        var s1 := Reaped(s, now);
        if op.Release? {
          RemovedKeepsOrder(s1, w, p, a, b);
        } else if w in s1.active {
          SameQueues(s1, s1.(active := s1.active[w := SaturatingAdd(now, LEASE_MILLIS)]), p, a, b);
        } else {
          EnqueuedKeepsOrder(s1, q, w, now, p, a, b);
          DecidedKeepsOrder(Enqueued(s1, q, w, now), q, w, decision, now, p, a, b, popped);
        }
    }
  }

  lemma RemovedKeepsOrder(s: State, w: WorkflowId, p: ProjectId, a: WorkflowId, b: WorkflowId)
    requires Precedes(s, p, a, b)
    requires a in Live(Removed(s, w), p) && b in Live(Removed(s, w), p)
    ensures Precedes(Removed(s, w), p, a, b)
  {
    if w in s.owner && s.owner[w] == p {
      FilterKeepsOrder(s.projects[p], (set x | x in s.projects[p]) - {w}, a, b);
    }
  }

  lemma DecidedKeepsOrder(s: State, q: ProjectId, w: WorkflowId, decision: Decision, now: nat, p: ProjectId,
                          a: WorkflowId, b: WorkflowId, popped: bool)
    requires Precedes(s, p, a, b)
    requires var t := Decided(s, q, w, decision, now, popped).0; a in Live(t, p) && b in Live(t, p)
    ensures Precedes(Decided(s, q, w, decision, now, popped).0, p, a, b)
  {
    hide Dequeued, AtFront, Precedes;
    var t, u := Ticked(s, now), Decided(s, q, w, decision, now, popped).0;
    SameQueues(s, t, p, a, b);
    if |s.active| < s.maximum && AtFront(s, q, w) && decision.Admit? {
      OnlyTicked(s, now, q, w);
      DequeuedKeepsOrder(t, q, w, p, a, b, u, popped);
    } else {
      SameQueues(s, u, p, a, b);
    }
  }

  lemma OnlyTicked(s: State, now: nat, q: ProjectId, w: WorkflowId)
    ensures AtFront(Ticked(s, now), q, w) == AtFront(s, q, w)
  {
  }

  lemma SameQueues(s: State, t: State, p: ProjectId, a: WorkflowId, b: WorkflowId)
    requires s.projects == t.projects
    ensures Precedes(s, p, a, b) == Precedes(t, p, a, b)
  {
  }

  lemma DequeuedKeepsOrder(s: State, q: ProjectId, w: WorkflowId, p: ProjectId, a: WorkflowId, b: WorkflowId, t: State,
                           popped: bool)
    requires AtFront(s, q, w) && Precedes(s, p, a, b)
    requires t.projects == Dequeued(s, q, w, popped).projects && t.owner == Dequeued(s, q, w, popped).owner
    requires a in Live(t, p) && b in Live(t, p)
    ensures Precedes(t, p, a, b)
  {
    if q == p {
      var queue := s.projects[p];
      var i, j :| 0 <= i < j < |queue| && queue[i] == a && queue[j] == b;
      assert a != w && queue[0] == w;
      assert queue[1..][i - 1] == a && queue[1..][j - 1] == b;
    }
  }

  // ---- over runs

  /** `a` waits for `p`, and `b`, if it waits there too, stands behind it. */
  ghost predicate Ahead(s: State, p: ProjectId, a: WorkflowId, b: WorkflowId) {
    a in Live(s, p) && (b in Live(s, p) ==> Precedes(s, p, a, b))
  }

  /** Before every call, and when it reaps, `a` is waiting for `p`. */
  ghost predicate GoesOnWaiting(s: State, calls: seq<Call>, p: ProjectId, a: WorkflowId, popped: bool)
    decreases |calls|
  {
    && a in Live(s, p)
    && (calls != [] ==>
          && (calls[0].Execute? ==> a in Live(Reaped(s, calls[0].now), p))
          && GoesOnWaiting(Performed(s, calls[0], popped).0, calls[1..], p, a, popped))
  }

  ghost predicate NeverAdmits(s: State, calls: seq<Call>, p: ProjectId, b: WorkflowId, popped: bool)
    decreases |calls|
  {
    calls != [] ==>
      && !(Admits(s, calls[0]) && calls[0].project == p && calls[0].workflow == b)
      && NeverAdmits(Performed(s, calls[0], popped).0, calls[1..], p, b, popped)
  }

  /** In either build, while `a` goes on waiting ahead of `b`, no call of a run admits `b`. */
  lemma {:induction false} NobodyOvertakes(s: State, calls: seq<Call>, p: ProjectId, a: WorkflowId, b: WorkflowId,
                                           popped: bool)
    requires Sane(s) && Ahead(s, p, a, b) && a != b && GoesOnWaiting(s, calls, p, a, popped)
    ensures NeverAdmits(s, calls, p, b, popped)
    decreases |calls|
  {
    hide Sane, Ahead, Performed, Admits, Live, Reaped;
    if calls != [] {
      var t := Performed(s, calls[0], popped).0;
      PerformedIsSane(s, calls[0], popped);
      StaysAhead(s, calls[0], p, a, b, popped);
      NobodyOvertakes(t, calls[1..], p, a, b, popped);
    }
  }

  lemma StaysAhead(s: State, c: Call, p: ProjectId, a: WorkflowId, b: WorkflowId, popped: bool)
    requires Sane(s) && Ahead(s, p, a, b) && a != b && a in Live(Performed(s, c, popped).0, p)
    requires c.Execute? ==> a in Live(Reaped(s, c.now), p)
    ensures Ahead(Performed(s, c, popped).0, p, a, b)
    ensures !(Admits(s, c) && c.project == p && c.workflow == b)
  {
    hide Sane, Live, Precedes, Reaped, Enqueued, Decided, Removed, AtFront, Dequeued;
    match c {
      case Drop(w) =>
        RemovedLeaves(s, w, p, b);
        if b in Live(Removed(s, w), p) { RemovedKeepsOrder(s, w, p, a, b); }
      case Execute(op, q, w, decision, now) =>
        var s1 := Reaped(s, now);
        ReapedLeaves(s, now, p, b);
        ReapedIsConsistent(s, now);
        if b in Live(s1, p) { ReapedKeepsOrder(s, now, p, a, b); }
        if op.Release? {
          RemovedLeaves(s1, w, p, b);
          if b in Live(Removed(s1, w), p) { RemovedKeepsOrder(s1, w, p, a, b); }
        } else if w in s1.active {
          SameWaiting(s1, s1.(active := s1.active[w := SaturatingAdd(now, LEASE_MILLIS)]), p, a, b);
        } else {
          EnqueuedAhead(s1, q, w, now, p, a, b);
          EnqueuedIsConsistent(s1, q, w, now);
          DecidedAhead(Enqueued(s1, q, w, now), q, w, decision, now, p, a, b, popped);
        }
    }
  }

  lemma SameWaiting(s: State, t: State, p: ProjectId, a: WorkflowId, b: WorkflowId)
    requires s.projects == t.projects && s.waiting == t.waiting && s.owner == t.owner
    ensures Ahead(s, p, a, b) == Ahead(t, p, a, b)
  {
    assert Live(s, p) == Live(t, p);
  }

  lemma RemovedLeaves(s: State, w: WorkflowId, p: ProjectId, b: WorkflowId)
    ensures b in Live(Removed(s, w), p) ==> b in Live(s, p)
  {
  }

  lemma ReapedLeaves(s: State, now: nat, p: ProjectId, b: WorkflowId)
    ensures b in Live(Reaped(s, now), p) ==> b in Live(s, p)
  {
    hide SettledProjects;
  }

  /** A workflow that is queued anew stands behind all that wait. */
  lemma EnqueuedAhead(s: State, q: ProjectId, w: WorkflowId, now: nat, p: ProjectId, a: WorkflowId, b: WorkflowId)
    requires Consistent(s) && Ahead(s, p, a, b) && a != b
    ensures Ahead(Enqueued(s, q, w, now), p, a, b)
  {
    var t := Enqueued(s, q, w, now);
    assert a in s.projects[p];
    if b in Live(s, p) {
      EnqueuedKeepsOrder(s, q, w, now, p, a, b);
    } else if b in Live(t, p) {
      var queue := s.projects[p];
      var i :| 0 <= i < |queue| && queue[i] == a;
      assert t.projects[p] == queue + [b];
      assert t.projects[p][i] == a && t.projects[p][|queue|] == b;
    }
  }

  /** The workflow served stands at the front of its queue, so nobody waits ahead of it. */
  lemma DecidedAhead(s: State, q: ProjectId, w: WorkflowId, decision: Decision, now: nat, p: ProjectId,
                     a: WorkflowId, b: WorkflowId, popped: bool)
    requires Consistent(s) && Ahead(s, p, a, b) && a != b && a in Live(Decided(s, q, w, decision, now, popped).0, p)
    ensures Ahead(Decided(s, q, w, decision, now, popped).0, p, a, b)
    ensures Decided(s, q, w, decision, now, true).1.admitted ==> !(q == p && w == b)
  {
    var t := Decided(s, q, w, decision, now, popped).0;
    DecidedLeaves(s, q, w, decision, now, p, b, popped);
    if b in Live(t, p) { DecidedKeepsOrder(s, q, w, decision, now, p, a, b, popped); }
    if Decided(s, q, w, decision, now, true).1.admitted && q == p && w == b {
      AdmittedIsTurn(s, q, w, decision, now, popped);
      hide Decided;
      FrontIsFirst(s, p, a, b);
    }
  }

  lemma DequeuedLeaves(s: State, tick: nat, q: ProjectId, w: WorkflowId, p: ProjectId, b: WorkflowId, popped: bool)
    requires AtFront(s, q, w)
    ensures AtFront(s.(lastTick := tick), q, w)
    ensures b in Live(Dequeued(s.(lastTick := tick), q, w, popped), p) ==> b in Live(s, p)
  {
  }

  lemma DecidedLeaves(s: State, q: ProjectId, w: WorkflowId, decision: Decision, now: nat, p: ProjectId, b: WorkflowId,
                      popped: bool)
    ensures b in Live(Decided(s, q, w, decision, now, popped).0, p) ==> b in Live(s, p)
  {
    hide Dequeued, AtFront;
    if AtFront(s, q, w) { DequeuedLeaves(s, Ticked(s, now).lastTick, q, w, p, b, popped); }
  }

  lemma FrontIsFirst(s: State, p: ProjectId, a: WorkflowId, b: WorkflowId)
    requires Consistent(s) && AtFront(s, p, b)
    ensures b in Live(s, p) && !Precedes(s, p, a, b)
  {
    assert b in s.projects[p];
  }
}
