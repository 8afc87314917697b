/**
 `RuntimeAdmission` (crates/workflowd/src/admission.rs:26-224): the mutable object,
 method by method, proved against `AdmissionSpec`.
 */
module Admission {
  import opened Wrappers
  import opened Ordering
  import opened AdmissionSpec

  class RuntimeAdmission {
    /** Whether this build evaluates the argument of `debug_assert_eq!`. */
    const popped: bool
    const maximum: nat
    var active: map<WorkflowId, nat>
    var lastTick: nat
    var projects: map<ProjectId, seq<WorkflowId>>
    var rotation: seq<ProjectId>
    var waiting: map<WorkflowId, nat>
    var owner: map<WorkflowId, ProjectId>

    constructor (maximum: nat, popped: bool)
      ensures View() == New(maximum) && this.popped == popped && Valid()
    {
      this.maximum, this.popped := if maximum >= 1 then maximum else 1, popped;
      active, lastTick, projects, rotation, waiting, owner := map[], 0, map[], [], map[], map[];
    }

    function View(): State
      reads this
    {
      State(active, lastTick, maximum, projects, rotation, waiting, owner)
    }

    /** Holds between calls in both builds. */
    ghost predicate Valid()
      reads this
    {
      Sane(View())
    }

    /** `remove`. */
    method Remove(w: WorkflowId)
      modifies this
      ensures View() == Removed(old(View()), w)
    {
      active := active - {w};
      if w !in owner { return; }
      var p := owner[w];
      owner, waiting := owner - {w}, waiting - {w};
      if p in projects {
        var queue := Filter(projects[p], (set x | x in projects[p]) - {w});
        projects := projects[p := queue];
        if queue == [] {
          projects := projects - {p};
          assert projects == old(projects) - {p};
          rotation := Filter(rotation, (set q | q in rotation) - {p});
        }
      }
    }

    /** `enqueue`. */
    method Enqueue(p: ProjectId, w: WorkflowId, now: nat)
      modifies this
      ensures View() == Enqueued(old(View()), p, w, now)
    {
      var expires := SaturatingAdd(now, LEASE_MILLIS);
      if w in waiting {
        waiting := waiting[w := expires];
        return;
      }
      waiting := waiting[w := expires];
      var newProject := p !in projects;
      projects := projects[p := (if p in projects then projects[p] else []) + [w]];
      owner := owner[w := p];
      if newProject { rotation := rotation + [p]; }
    }

    /** `dequeue_front`. */
    method DequeueFront(p: ProjectId, w: WorkflowId)
      requires AtFront(View(), p, w)
      modifies this
      ensures View() == Dequeued(old(View()), p, w, popped)
    {
      if popped {
        projects := projects[p := projects[p][1..]];
      }
      waiting, owner := waiting - {w}, owner - {w};
      rotation := rotation[1..];
      if projects[p] == [] {
        projects := projects - {p};
        assert projects == old(projects) - {p};
      } else {
        rotation := rotation + [p];
        assert projects == old(projects)[p := projects[p]];
      }
    }

    /** `repair_queue_invariants`, from any state whatever. */
    method Repair()
      modifies this
      ensures Repaired(old(View()), View())
      ensures old(Valid()) ==> View() == Settled(old(View()))
    {
      hide SettledProjects, Standing, FirstOf, NoRepeats, Ascending, Sane, Settled;
      var before := View();
      projects := SettledProjects(before);
      waiting, owner := Standing(before, projects, waiting), Standing(before, projects, owner);
      var kept := Retained(rotation, projects.Keys);
      rotation := Appended(kept, projects.Keys);
      if Sane(before) { RepairSettles(before, View()); }
    }

    /** `reap`. */
    method Reap(now: nat)
      requires Valid()
      modifies this
      ensures Valid() && View() == Reaped(old(View()), now) && Consistent(View())
    {
      hide Sane, Settled, Running, Abandoned, QueuesLive;
      ghost var before := View();
      active := Running(View(), now);
      RunningIsSane(before, now);
      AbandonedRunning(before, now);
      var abandoned := AscendingKeys(Abandoned(View(), now));
      RemoveAll(abandoned, Abandoned(before, now));
      Repair();
      ReapedIsConsistent(before, now);
    }

    /** The loop of `reap` over the abandoned workflows. */
    method RemoveAll(abandoned: seq<WorkflowId>, ghost all: set<WorkflowId>)
      requires Valid() && forall w :: w in abandoned <==> w in all
      modifies this
      ensures Valid() && Settled(View()) == Settled(Without(old(View()), all))
    {
      hide Sane, Settled, Removed, Without;
      ghost var before := View();
      ghost var gone: set<WorkflowId> := {};
      NobodyGone(before);
      for i := 0 to |abandoned|
        invariant Valid() && gone == set w | w in abandoned[..i]
        invariant Settled(View()) == Settled(Without(before, gone))
      {
        assert abandoned[..i + 1] == abandoned[..i] + [abandoned[i]];
        RemovedIsSane(View(), abandoned[i]);
        OneMoreGone(before, View(), gone, abandoned[i]);
        Remove(abandoned[i]);
        gone := gone + {abandoned[i]};
      }
      assert abandoned[..|abandoned|] == abandoned;
      assert gone == all;
    }

    method Answered(admitted: bool, expires: Option<nat>, reason: Option<Reason>) returns (r: Reply)
      ensures r == Answer(View(), admitted, expires, reason)
    {
      r := Reply(|active|, admitted, expires, maximum, reason, if admitted then 0 else RETRY_MILLIS);
    }

    /** `execute`; `decision` is what the resource controller would answer. */
    method Execute(op: Operation, p: ProjectId, w: WorkflowId, decision: Decision, now: nat) returns (r: Reply)
      requires Valid()
      modifies this
      ensures Valid() && (View(), r) == Executed(old(View()), op, p, w, decision, now, popped)
    {
      hide Sane, Consistent, Reaped, Removed, Enqueued, Decided;
      ExecutedIsSane(View(), op, p, w, decision, now, popped);
      Reap(now);
      if op.Release? {
        Remove(w);
        r := Answered(false, None, Some(Released));
        return;
      }
      var expires := SaturatingAdd(now, LEASE_MILLIS);
      if w in active {
        active := active[w := expires];
        r := Answered(true, Some(expires), None);
        return;
      }
      Enqueue(p, w, now);
      r := Decide(p, w, decision, now);
    }

    /** The rest of `execute`, once the workflow stands in its queue. */
    method Decide(p: ProjectId, w: WorkflowId, decision: Decision, now: nat) returns (r: Reply)
      modifies this
      ensures (View(), r) == Decided(old(View()), p, w, decision, now, popped)
    {
      hide Dequeued, Answer, SaturatingAdd, SaturatingSub;
      if |active| >= maximum {
        r := Answered(false, None, Some(ConcurrencyLimit));
        return;
      }
      if rotation == [] || rotation[0] != p || p !in projects || projects[p] == [] || projects[p][0] != w {
        r := Answered(false, None, Some(FairQueue));
        return;
      }
      if SaturatingSub(now, lastTick) >= TICK_MILLIS { lastTick := now; }
      if decision != Admit {
        r := Answered(false, None, Some(Deferred(decision)));
        return;
      }
      DequeueFront(p, w);
      var expires := SaturatingAdd(now, LEASE_MILLIS);
      active := active[w := expires];
      r := Answered(true, Some(expires), None);
    }

    /** The public `release`. */
    method Drop(w: WorkflowId)
      requires Valid()
      modifies this
      ensures Valid() && View() == Removed(old(View()), w)
    {
      RemovedIsSane(View(), w);
      Remove(w);
    }
  }

  /** `rotation.retain`: queued projects, each at its first place. */
  method Retained(turns: seq<ProjectId>, keys: set<ProjectId>) returns (kept: seq<ProjectId>)
    ensures kept == FirstOf(turns, keys) && NoRepeats(kept) && forall p :: p in kept <==> p in turns && p in keys
  {
    kept := [];
    var seen: set<ProjectId> := {};
    for i := 0 to |turns|
      invariant seen == set p | p in kept
      invariant kept == FirstOf(turns[..i], keys)
    {
      assert turns[..i + 1][..i] == turns[..i];
      if turns[i] in keys && turns[i] !in seen {
        kept, seen := kept + [turns[i]], seen + {turns[i]};
      }
    }
    assert turns[..|turns|] == turns;
    FirstOfMembers(turns, keys);
  }

  /** The projects the rotation lacks are appended in ascending order. */
  method Appended(kept: seq<ProjectId>, keys: set<ProjectId>) returns (turns: seq<ProjectId>)
    requires NoRepeats(kept) && forall p :: p in kept ==> p in keys
    ensures NoRepeats(turns) && (forall p :: p in turns <==> p in keys)
    ensures kept <= turns && Ascending(turns[|kept|..])
  {
    var order := AscendingKeys(keys);
    var added: seq<ProjectId> := [];
    for i := 0 to |order|
      invariant Ascending(added)
      invariant forall p :: p in added <==> p in order[..i] && p !in kept
    {
      assert order[..i + 1] == order[..i] + [order[i]];
      assert forall k :: 0 <= k < |added| ==> added[k] in added;
      if order[i] !in kept && order[i] !in added { added := added + [order[i]]; }
    }
    assert order[..|order|] == order;
    turns := kept + added;
    assert forall k :: 0 <= k < |added| ==> added[k] in added;
    assert turns[|kept|..] == added;
  }

  lemma SaneOwners(s: State, w: WorkflowId)
    requires Sane(s)
    ensures s.waiting.Keys == s.owner.Keys && (w in s.owner ==> s.owner[w] in s.projects)
  {
  }

  /** Removing one workflow more, on the way to a repaired queue. */
  lemma OneMoreGone(base: State, at: State, gone: set<WorkflowId>, w: WorkflowId)
    requires Sane(at) && Settled(at) == Settled(Without(base, gone))
    ensures Settled(Removed(at, w)) == Settled(Without(base, gone + {w}))
  {
    hide *;
    SaneOwners(at, w);
    RemovedSettles(at, w);
    WithoutSettles(at, {w});
    WithoutSettles(Without(base, gone), {w});
    WithoutBoth(base, gone, {w});
  }

  lemma WithoutBoth(base: State, gone: set<WorkflowId>, more: set<WorkflowId>)
    ensures Without(Without(base, gone), more) == Without(base, gone + more)
  {
    assert base.active - gone - more == base.active - (gone + more);
    assert base.waiting - gone - more == base.waiting - (gone + more);
    assert base.owner - gone - more == base.owner - (gone + more);
  }

  lemma NobodyGone(s: State)
    ensures Without(s, {}) == s
  {
    assert s.active - {} == s.active && s.waiting - {} == s.waiting && s.owner - {} == s.owner;
  }

  lemma RunningIsSane(s: State, now: nat)
    requires Sane(s)
    ensures Sane(s.(active := Running(s, now)))
  {
    WithoutIsSane(s, Running(s, now), {});
    NobodyGone(s.(active := Running(s, now)));
  }

  lemma AbandonedRunning(s: State, now: nat)
    ensures Abandoned(s.(active := Running(s, now)), now) == Abandoned(s, now)
  {
  }
}
