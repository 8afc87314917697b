/**
 `index_project` (crates/workflow-code-intel/src/index.rs:107-290), proved against
 `IndexSpec` for every interleaving of its workers.
 */
module ProjectIndex {
  import opened IndexSpec
  import opened Ordering
  import opened Wrappers

  /** The workers: the next index to claim, what each holds, who goes on, and the results sent. */
  datatype Pool = Pool(next: nat, holding: map<nat, nat>, running: set<nat>, arrivals: seq<nat>)

  ghost predicate Held(p: Pool, i: nat) {
    exists w :: w in p.holding && p.holding[w] == i
  }

  /** A result that reports an error has arrived, which cancels the work. */
  predicate Cancelled(p: Pool, failing: set<nat>) {
    exists i :: i in p.arrivals && i in failing
  }

  /** Every index claimed so far is held by one worker or its result has arrived, once;
      after an error, workers may have dropped what they held. */
  ghost predicate Orderly(p: Pool, workers: set<nat>, n: nat, failing: set<nat>) {
    && p.running <= workers && p.holding.Keys <= p.running
    && NoRepeats(p.arrivals) && (forall i :: i in p.arrivals ==> i < n && i < p.next && !Held(p, i))
    && (forall w :: w in p.holding ==> p.holding[w] < n && p.holding[w] < p.next)
    && (forall v, w :: v in p.holding && w in p.holding && v != w ==> p.holding[v] != p.holding[w])
    && (Cancelled(p, failing) || NothingDropped(p, workers, n))
  }

  ghost predicate NothingDropped(p: Pool, workers: set<nat>, n: nat) {
    && (p.running != workers ==> p.next >= n)
    && (forall i :: 0 <= i < n && i < p.next ==> i in p.arrivals || Held(p, i))
  }

  /** One step of one worker: it sends what it holds, or claims the next index, or stops. */
  function Acted(p: Pool, w: nat, n: nat): Pool {
    if w in p.holding then p.(arrivals := p.arrivals + [p.holding[w]], holding := p.holding - {w})
    else if p.next < n then p.(next := p.next + 1, holding := p.holding[w := p.next])
    else p.(next := p.next + 1, running := p.running - {w})
  }

  /** A worker that finds the work cancelled, or nobody to send to, stops. */
  function Quit(p: Pool, w: nat): Pool {
    p.(holding := p.holding - {w}, running := p.running - {w})
  }

  lemma SentIsOrderly(p: Pool, w: nat, workers: set<nat>, n: nat, failing: set<nat>)
    requires Orderly(p, workers, n, failing) && w in p.running && w in p.holding
    ensures Orderly(Acted(p, w, n), workers, n, failing)
  {
    var q := Acted(p, w, n);
    assert Held(p, p.holding[w]) && p.holding[w] !in p.arrivals;
    assert forall i :: Held(q, i) ==> Held(p, i);
    if NothingDropped(p, workers, n) {
      forall i | 0 <= i < n && i < q.next ensures i in q.arrivals || Held(q, i) {
        if Held(p, i) {
          var v :| v in p.holding && p.holding[v] == i;
          assert v != w ==> v in q.holding && q.holding[v] == i;
        }
      }
    }
  }

  lemma ClaimedIsOrderly(p: Pool, w: nat, workers: set<nat>, n: nat, failing: set<nat>)
    requires Orderly(p, workers, n, failing) && w in p.running && w !in p.holding && p.next < n
    ensures Orderly(Acted(p, w, n), workers, n, failing)
  {
    var q := Acted(p, w, n);
    assert forall i :: Held(q, i) ==> Held(p, i) || i == p.next;
    if NothingDropped(p, workers, n) {
      forall i | 0 <= i < n && i < q.next ensures i in q.arrivals || Held(q, i) {
        if i == p.next {
          assert w in q.holding && q.holding[w] == i;
        } else if Held(p, i) {
          var v :| v in p.holding && p.holding[v] == i;
          assert v in q.holding && q.holding[v] == i;
        }
      }
    }
  }

  lemma StoppedIsOrderly(p: Pool, w: nat, workers: set<nat>, n: nat, failing: set<nat>)
    requires Orderly(p, workers, n, failing) && w in p.running && w !in p.holding && p.next >= n
    ensures Orderly(Acted(p, w, n), workers, n, failing)
  {
    var q := Acted(p, w, n);
    assert forall i :: Held(q, i) <==> Held(p, i);
  }

  lemma ActedIsOrderly(p: Pool, w: nat, workers: set<nat>, n: nat, failing: set<nat>)
    requires Orderly(p, workers, n, failing) && w in p.running
    ensures Orderly(Acted(p, w, n), workers, n, failing)
  {
    hide Orderly;
    if w in p.holding {
      SentIsOrderly(p, w, workers, n, failing);
    } else if p.next < n {
      ClaimedIsOrderly(p, w, workers, n, failing);
    } else {
      StoppedIsOrderly(p, w, workers, n, failing);
    }
  }

  lemma QuitIsOrderly(p: Pool, w: nat, workers: set<nat>, n: nat, failing: set<nat>)
    requires Orderly(p, workers, n, failing) && Cancelled(p, failing)
    ensures Orderly(Quit(p, w), workers, n, failing)
  {
    assert forall i :: Held(Quit(p, w), i) ==> Held(p, i);
  }

  lemma StartIsOrderly(workers: set<nat>, n: nat, failing: set<nat>)
    ensures Orderly(Pool(0, map[], workers, []), workers, n, failing)
  {
  }

  /** Every step uses up a worker, an index or a held item. */
  lemma ActedIsNearer(p: Pool, w: nat, n: nat)
    requires w in p.running
    ensures var q := Acted(p, w, n);
            if w in p.holding then q.running == p.running && q.next == p.next && |q.holding.Keys| < |p.holding.Keys|
            else if p.next < n then q.running == p.running && q.next == p.next + 1
            else |q.running| < |p.running|
    ensures |Quit(p, w).running| < |p.running|
  {
    if w in p.holding { assert p.holding.Keys == (p.holding - {w}).Keys + {w}; }
    assert p.running == (p.running - {w}) + {w};
  }

  lemma AllArrived(p: Pool, workers: set<nat>, n: nat, failing: set<nat>)
    requires Orderly(p, workers, n, failing) && workers != {} && p.running == {}
    ensures NoRepeats(p.arrivals) && forall i :: i in p.arrivals ==> 0 <= i < n
    ensures (forall i :: i in p.arrivals ==> i !in failing) ==> forall i :: 0 <= i < n ==> i in p.arrivals
  {
    assert forall i :: !Held(p, i);
  }

  /** The worker threads: any of them may act next, and may or may not notice in time
      that the work is cancelled. No result arrives twice, and all arrive unless one of
      those that do reports an error. */
  method RunWorkers(n: nat, workers: set<nat>, failing: set<nat>) returns (arrivals: seq<nat>)
    requires workers != {}
    ensures NoRepeats(arrivals) && forall i :: i in arrivals ==> 0 <= i < n
    ensures (forall i :: i in arrivals ==> i !in failing) ==> forall i :: 0 <= i < n ==> i in arrivals
  {
    hide Orderly, Acted, Quit;
    var pool := Pool(0, map[], workers, []);
    StartIsOrderly(workers, n, failing);
    while pool.running != {}
      invariant Orderly(pool, workers, n, failing)
      decreases |pool.running|, if pool.next < n then n - pool.next else 0, |pool.holding.Keys|
    {
      var w :| w in pool.running;
      var noticed: bool := *;
      ActedIsNearer(pool, w, n);
      if noticed && Cancelled(pool, failing) {
        QuitIsOrderly(pool, w, workers, n, failing);
        pool := Quit(pool, w);
      } else {
        ActedIsOrderly(pool, w, workers, n, failing);
        pool := Acted(pool, w, n);
      }
    }
    AllArrived(pool, workers, n, failing);
    arrivals := pool.arrivals;
  }

  /** `index_scope`: the facts and manifest entries of the files of one scope. */
  method IndexScope(language: Language, tree: Tree, scope: Scope, files: seq<Path>)
    returns (facts: set<Fact>, entries: map<Path, ManifestEntry>)
    requires forall p :: p in files <==> p in tree && ScopeOf(p) == scope
    ensures facts == FactsOf(language, tree, scope) && entries == Entries(language, tree, {scope})
  {
    hide FactsOf, Entries, ScopeOf, EntryOf;
    facts, entries := {}, map[];
    NothingRead(language, tree, scope);
    for i := 0 to |files|
      invariant facts == FactsOf(language, Part(tree, files[..i]), scope)
      invariant entries == Entries(language, Part(tree, files[..i]), {scope})
    {
      assert files[i] in files;
      OneMoreFile(language, tree, scope, files, i);
      facts := facts + language.facts(scope, files[i], tree[files[i]].content);
      entries := entries[files[i] := EntryOf(language, tree[files[i]])];
    }
    assert files[..|files|] == files;
    AllRead(language, tree, scope, files);
  }

  /** The tree restricted to the files read so far. */
  ghost function Part(tree: Tree, files: seq<Path>): Tree {
    map p | p in files && p in tree :: tree[p]
  }

  lemma NothingRead(language: Language, tree: Tree, scope: Scope)
    ensures FactsOf(language, Part(tree, []), scope) == {} && Entries(language, Part(tree, []), {scope}) == map[]
  {
  }

  lemma OneMoreFile(language: Language, tree: Tree, scope: Scope, files: seq<Path>, i: nat)
    requires i < |files| && files[i] in tree && ScopeOf(files[i]) == scope
    ensures FactsOf(language, Part(tree, files[..i + 1]), scope)
            == FactsOf(language, Part(tree, files[..i]), scope)
                + language.facts(scope, files[i], tree[files[i]].content)
    ensures Entries(language, Part(tree, files[..i + 1]), {scope})
            == Entries(language, Part(tree, files[..i]), {scope})[files[i] := EntryOf(language, tree[files[i]])]
  {
    hide ScopeOf, EntryOf;
    var before, after := Part(tree, files[..i]), Part(tree, files[..i + 1]);
    assert files[..i + 1] == files[..i] + [files[i]];
    assert after == before[files[i] := tree[files[i]]];
    forall f ensures f in FactsOf(language, after, scope) <==>
                     f in FactsOf(language, before, scope) + language.facts(scope, files[i], tree[files[i]].content)
    {
      if f in FactsOf(language, before, scope) {
        var p :| p in before && ScopeOf(p) == scope && f in language.facts(scope, p, before[p].content);
        assert p in after && after[p] == before[p];
      }
      if f in language.facts(scope, files[i], tree[files[i]].content) { assert files[i] in after; }
    }
  }

  lemma AllRead(language: Language, tree: Tree, scope: Scope, files: seq<Path>)
    requires forall p :: p in files <==> p in tree && ScopeOf(p) == scope
    ensures FactsOf(language, Part(tree, files), scope) == FactsOf(language, tree, scope)
    ensures Entries(language, Part(tree, files), {scope}) == Entries(language, tree, {scope})
  {
    hide ScopeOf, EntryOf;
    var part := Part(tree, files);
    forall f ensures f in FactsOf(language, part, scope) <==> f in FactsOf(language, tree, scope) {
      if f in FactsOf(language, tree, scope) {
        var p :| p in tree && ScopeOf(p) == scope && f in language.facts(scope, p, tree[p].content);
        assert p in part;
      }
    }
  }

  method Listed(scopes: set<Scope>) returns (s: seq<Scope>)
    ensures NoRepeats(s) && forall x :: x in s <==> x in scopes
  {
    s := [];
    var left := scopes;
    while left != {}
      invariant left <= scopes && NoRepeats(s) && forall x :: x in s <==> x in scopes && x !in left
    {
      var x :| x in left;
      s, left := s + [x], left - {x};
    }
  }

  lemma NoScopes()
    ensures Scopes({}) == {}
  {
  }

  lemma ScopesAdd(paths: set<Path>, p: Path)
    ensures Scopes(paths + {p}) == Scopes(paths) + {ScopeOf(p)}
  {
    hide ScopeOf;
  }

  lemma ChangedMeans(manifest: map<Path, ManifestEntry>, tree: Tree, p: Path)
    ensures p in Changed(manifest, tree) <==> p in tree && (p !in manifest || manifest[p].metadata != tree[p].metadata)
  {
  }

  lemma ChangedExist(manifest: map<Path, ManifestEntry>, tree: Tree)
    ensures Changed(manifest, tree) <= tree.Keys
  {
  }

  class GraphStore {
    var partitions: map<Scope, set<Fact>>
    var manifest: map<Path, ManifestEntry>

    constructor ()
      ensures View() == Store(map[], map[])
    {
      partitions, manifest := map[], map[];
    }

    function View(): Store
      reads this
    {
      Store(partitions, manifest)
    }

    /** The loops that find the scopes to index. */
    method FindAffected(inventory: seq<Path>, tree: Tree, forced: set<Path>) returns (affected: set<Scope>)
      requires forall p :: p in inventory <==> p in tree
      ensures affected == Affected(manifest, tree, forced)
    {
      hide Scopes, ScopeOf, Changed;
      affected := {};
      NoScopes();
      assert Changed(manifest, tree) * {} == {};
      ghost var seen: set<Path> := {};
      for i := 0 to |inventory|
        invariant forall p :: p in seen <==> p in inventory[..i]
        invariant affected == Scopes(Changed(manifest, tree) * seen)
      {
        var p := inventory[i];
        assert inventory[..i + 1] == inventory[..i] + [p];
        ChangedMeans(manifest, tree, p);
        ScopesAdd(Changed(manifest, tree) * seen, p);
        assert Changed(manifest, tree) * (seen + {p})
               == if p in Changed(manifest, tree) then (Changed(manifest, tree) * seen) + {p}
                   else Changed(manifest, tree) * seen;
        seen := seen + {p};
        if p !in manifest || manifest[p].metadata != tree[p].metadata { affected := affected + {ScopeOf(p)}; }
      }
      assert inventory[..|inventory|] == inventory;
      assert Changed(manifest, tree) * seen == Changed(manifest, tree) by { ChangedExist(manifest, tree); }
      var prior := manifest.Keys;
      assert (manifest.Keys - prior) - tree.Keys == {};
      while prior != {}
        invariant prior <= manifest.Keys
        invariant affected == Scopes(Changed(manifest, tree)) + Scopes((manifest.Keys - prior) - tree.Keys)
      {
        var p :| p in prior;
        ScopesAdd((manifest.Keys - prior) - tree.Keys, p);
        assert (manifest.Keys - (prior - {p})) - tree.Keys
               == if p in tree then (manifest.Keys - prior) - tree.Keys
                   else ((manifest.Keys - prior) - tree.Keys) + {p};
        prior := prior - {p};
        if p !in tree { affected := affected + {ScopeOf(p)}; }
      }
      assert (manifest.Keys - prior) - tree.Keys == manifest.Keys - tree.Keys;
      affected := affected + Scopes(forced);
      if manifest == map[] { affected := affected + Scopes(tree.Keys); }
    }

    /** `index_project`. `failing` are the scopes whose indexing reports an error; then,
        or when a manifest row is still there, nothing is committed. */
    method IndexProject(language: Language, inventory: seq<Path>, tree: Tree, forced: set<Path>, failing: set<Scope>,
                        workers: set<nat>)
      returns (ok: bool)
      requires (forall p :: p in inventory <==> p in tree) && workers != {}
      modifies this
      ensures ok <==>
                Indexed(language, old(View()), tree, forced).Some? && Affected(old(manifest), tree, forced) !! failing
      ensures ok ==> Indexed(language, old(View()), tree, forced) == Some(View())
      ensures !ok ==> View() == old(View())
    {
      hide Affected, FactsOf, Entries, ScopeOf, Swept, EntryOf;
      var affected := FindAffected(inventory, tree, forced);
      var work := Listed(affected);
      var arrivals := RunWorkers(|work|, workers, set k | 0 <= k < |work| && work[k] in failing);
      var batch, rows, done := partitions, map[], {};
      NothingDone(language, tree, partitions);
      for i := 0 to |arrivals|
        invariant done == set k | k in arrivals[..i] && k < |work| :: work[k]
        invariant done !! failing && View() == old(View())
        invariant batch == partitions + Partitions(language, tree, done)
        invariant rows == Entries(language, tree, done)
      {
        assert arrivals[i] in arrivals;
        var scope := work[arrivals[i]];
        assert arrivals[..i + 1] == arrivals[..i] + [arrivals[i]];
        assert scope in work;
        if scope in failing { return false; }
        var files := FilesOf(inventory, scope);
        var facts, entries := IndexScope(language, tree, scope, files);
        OneMoreDone(language, tree, partitions, done, scope);
        batch, rows, done := batch[scope := facts], rows + entries, done + {scope};
      }
      assert arrivals[..|arrivals|] == arrivals;
      assert done == affected by {
        forall s | s in affected ensures s in done {
          var k :| 0 <= k < |work| && work[k] == s;
          assert k in arrivals;
        }
        assert forall k :: k in arrivals ==> work[k] in work;
      }
      var kept := Kept(manifest, affected);
      ConflictMeans(language, manifest, tree, affected);
      if kept.Keys * rows.Keys != {} { return false; }
      partitions, manifest := batch, kept + rows;
      return true;
    }
  }

  method FilesOf(inventory: seq<Path>, scope: Scope) returns (files: seq<Path>)
    ensures forall p :: p in files <==> p in inventory && ScopeOf(p) == scope
  {
    files := [];
    for i := 0 to |inventory|
      invariant forall p :: p in files <==> p in inventory[..i] && ScopeOf(p) == scope
    {
      assert inventory[..i + 1] == inventory[..i] + [inventory[i]];
      if ScopeOf(inventory[i]) == scope { files := files + [inventory[i]]; }
    }
    assert inventory[..|inventory|] == inventory;
  }

  lemma NothingDone(language: Language, tree: Tree, partitions: map<Scope, set<Fact>>)
    ensures partitions + Partitions(language, tree, {}) == partitions && Entries(language, tree, {}) == map[]
  {
    hide FactsOf;
  }

  lemma OneMoreDone(language: Language, tree: Tree, partitions: map<Scope, set<Fact>>, done: set<Scope>, s: Scope)
    ensures (partitions + Partitions(language, tree, done))[s := FactsOf(language, tree, s)]
              == partitions + Partitions(language, tree, done + {s})
    ensures Entries(language, tree, done) + Entries(language, tree, {s}) == Entries(language, tree, done + {s})
  {
    hide FactsOf, ScopeOf;
  }

  lemma ConflictMeans(language: Language, manifest: map<Path, ManifestEntry>, tree: Tree, affected: set<Scope>)
    ensures Kept(manifest, affected).Keys * Entries(language, tree, affected).Keys != {} <==>
              Conflicts(manifest, tree, affected)
  {
    hide Swept, ScopeOf;
    var kept, entries := Kept(manifest, affected), Entries(language, tree, affected);
    if Conflicts(manifest, tree, affected) {
      var p :| p in manifest && !Swept(affected, p) && p in tree && ScopeOf(p) in affected;
      assert p in kept.Keys * entries.Keys;
    }
  }
}
