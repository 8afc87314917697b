/**
 The incremental index as values (crates/workflow-code-intel/src/index.rs:119-231,
 294-296) over the rows of its store (graph/store.rs:342-458). One run equals a
 rebuild exactly when the manifest rows the store deletes are those of the affected
 scopes; a pair of runs after which it does not is given.
 */
module IndexSpec {
  import opened Wrappers

  type Path = string
  type Scope = string
  type Fact = nat
  type Content = nat
  type Metadata = nat
  type Digest = nat

  datatype File = File(metadata: Metadata, content: Content)

  /** The supported files of the project. */
  type Tree = map<Path, File>

  datatype ManifestEntry = ManifestEntry(hash: Digest, metadata: Metadata)

  datatype Store = Store(partitions: map<Scope, set<Fact>>, manifest: map<Path, ManifestEntry>)

  /** The parsers and the content hash, left open. */
  datatype Language = Language(facts: (Scope, Path, Content) -> set<Fact>, digest: Content -> Digest)

  // ---- scopes, and the rows a scope sweeps

  /** The part before the last slash. */
  function Directory(path: Path): (r: Option<string>)
    ensures r.Some? ==> |r.value| < |path| && path[..|r.value| + 1] == r.value + "/"
    ensures r.None? <==> '/' !in path
  {
    if path == "" then None
    else
      assert path == path[..|path| - 1] + [path[|path| - 1]];
      if path[|path| - 1] == '/' then Some(path[..|path| - 1]) else Directory(path[..|path| - 1])
  }

  function ScopeOf(path: Path): Scope {
    match Directory(path)
    case None => "root"
    case Some(directory) => directory
  }

  function Lower(c: char): char {
    if 'A' <= c <= 'Z' then c + 32 as char else c
  }

  /** `LIKE 'prefix%'`, which ignores the case of ASCII letters. */
  predicate Like(prefix: string, path: Path) {
    |prefix| <= |path| && forall i :: 0 <= i < |prefix| ==> Lower(path[i]) == Lower(prefix[i])
  }

  /** The rows deleted for one affected scope. */
  predicate Sweeps(scope: Scope, path: Path) {
    if scope == "root" then '/' !in path else Like(scope + "/", path)
  }

  predicate Swept(affected: set<Scope>, path: Path) {
    exists scope :: scope in affected && Sweeps(scope, path)
  }

  /** A scope sweeps its own files, except those in a directory that is itself called root. */
  lemma ScopeSweepsItsOwn(path: Path)
    ensures Sweeps(ScopeOf(path), path) <==> Directory(path) != Some("root")
  {
    var directory := Directory(path);
    if directory.Some? && directory.value != "root" {
      assert forall i :: 0 <= i <= |directory.value| ==> path[i] == path[..|directory.value| + 1][i];
    }
  }

  // ---- what a tree says

  function Scopes(paths: set<Path>): set<Scope> {
    set p | p in paths :: ScopeOf(p)
  }

  function FactsOf(language: Language, tree: Tree, scope: Scope): set<Fact> {
    set p, f | p in tree && ScopeOf(p) == scope && f in language.facts(scope, p, tree[p].content) :: f
  }

  function EntryOf(language: Language, file: File): ManifestEntry {
    ManifestEntry(language.digest(file.content), file.metadata)
  }

  function Entries(language: Language, tree: Tree, affected: set<Scope>): map<Path, ManifestEntry> {
    map p | p in tree && ScopeOf(p) in affected :: EntryOf(language, tree[p])
  }

  /** An index built from nothing. */
  function Rebuilt(language: Language, tree: Tree): Store {
    Store(Partitions(language, tree, Scopes(tree.Keys)), map p | p in tree :: EntryOf(language, tree[p]))
  }

  function Partitions(language: Language, tree: Tree, scopes: set<Scope>): map<Scope, set<Fact>> {
    map s | s in scopes :: FactsOf(language, tree, s)
  }

  // ---- one run

  function Changed(manifest: map<Path, ManifestEntry>, tree: Tree): set<Path> {
    set p | p in tree && (p !in manifest || manifest[p].metadata != tree[p].metadata)
  }

  function Affected(manifest: map<Path, ManifestEntry>, tree: Tree, forced: set<Path>): set<Scope> {
    Scopes(Changed(manifest, tree)) + Scopes(manifest.Keys - tree.Keys) + Scopes(forced)
    + if manifest == map[] then Scopes(tree.Keys) else {}
  }

  function Kept(manifest: map<Path, ManifestEntry>, affected: set<Scope>): map<Path, ManifestEntry> {
    map p | p in manifest && !Swept(affected, p) :: manifest[p]
  }

  /** A row about to be inserted is still there. */
  predicate Conflicts(manifest: map<Path, ManifestEntry>, tree: Tree, affected: set<Scope>) {
    exists p :: p in manifest && !Swept(affected, p) && p in tree && ScopeOf(p) in affected
  }

  function Indexed(language: Language, store: Store, tree: Tree, forced: set<Path>): Option<Store> {
    var affected := Affected(store.manifest, tree, forced);
    if Conflicts(store.manifest, tree, affected) then None
    else
      Some(Store(store.partitions + Partitions(language, tree, affected),
                 Kept(store.manifest, affected) + Entries(language, tree, affected)))
  }

  // ---- when a run equals a rebuild

  /** A partition that is absent is empty. */
  function Facts(partitions: map<Scope, set<Fact>>, scope: Scope): set<Fact> {
    if scope in partitions then partitions[scope] else {}
  }

  ghost predicate PartitionsAre(language: Language, store: Store, tree: Tree) {
    forall s :: Facts(store.partitions, s) == FactsOf(language, tree, s)
  }

  /** The store is what a rebuild from `tree` would make it. */
  ghost predicate UpToDate(language: Language, store: Store, tree: Tree) {
    PartitionsAre(language, store, tree) && store.manifest == Rebuilt(language, tree).manifest
  }

  /** Equal metadata means equal content. */
  ghost predicate Trusted(before: Tree, after: Tree) {
    forall p :: p in before && p in after && before[p].metadata == after[p].metadata ==>
        before[p].content == after[p].content
  }

  /** The rows deleted are those of the affected scopes. */
  predicate SweepsExactly(manifest: map<Path, ManifestEntry>, affected: set<Scope>) {
    forall p :: p in manifest ==> (Swept(affected, p) <==> ScopeOf(p) in affected)
  }

  lemma RebuildIsUpToDate(language: Language, tree: Tree)
    ensures UpToDate(language, Rebuilt(language, tree), tree)
  {
    forall s ensures Facts(Rebuilt(language, tree).partitions, s) == FactsOf(language, tree, s) {
      if s !in Scopes(tree.Keys) { assert FactsOf(language, tree, s) == {}; }
    }
  }

  /** What a run must read again: what is new or whose metadata changed, what vanished,
      what was forced, and everything when nothing is known. */
  ghost predicate MustRead(manifest: map<Path, ManifestEntry>, tree: Tree, forced: set<Path>, p: Path) {
    || p in forced
    || (p in tree && (p !in manifest || manifest[p].metadata != tree[p].metadata))
    || (p in manifest && p !in tree)
    || (p in tree && manifest == map[])
  }

  /** Whatever the store held before, and without trusting any metadata, a run that
      succeeds reads exactly the scopes of what must be read as the tree has them, and
      keeps the others. */
  lemma ReadAgainExactly(language: Language, store: Store, tree: Tree, forced: set<Path>, s: Scope)
    requires Indexed(language, store, tree, forced).Some?
    ensures var next := Indexed(language, store, tree, forced).value;
            var read := exists p :: MustRead(store.manifest, tree, forced, p) && ScopeOf(p) == s;
            && Facts(next.partitions, s) == (if read then FactsOf(language, tree, s) else Facts(store.partitions, s))
            && forall p :: read && p in tree && ScopeOf(p) == s ==>
                 p in next.manifest && next.manifest[p] == EntryOf(language, tree[p])
  {
    AffectedExactly(store.manifest, tree, forced, s);
    hide Affected, ScopeOf, FactsOf, MustRead, Swept, EntryOf;
  }

  lemma AffectedExactly(manifest: map<Path, ManifestEntry>, tree: Tree, forced: set<Path>, s: Scope)
    ensures s in Affected(manifest, tree, forced) <==>
              exists p :: MustRead(manifest, tree, forced, p) && ScopeOf(p) == s
  {
    hide ScopeOf;
    if s in Affected(manifest, tree, forced) {
      var p :| (p in Changed(manifest, tree) || p in manifest.Keys - tree.Keys || p in forced
          || (manifest == map[] && p in tree))
               && ScopeOf(p) == s;
      assert MustRead(manifest, tree, forced, p);
    }
    if exists p :: MustRead(manifest, tree, forced, p) && ScopeOf(p) == s {
      var p :| MustRead(manifest, tree, forced, p) && ScopeOf(p) == s;
      assert p in forced ==> ScopeOf(p) in Scopes(forced);
      assert p in Changed(manifest, tree) ==> ScopeOf(p) in Scopes(Changed(manifest, tree));
      assert p in manifest.Keys - tree.Keys ==> ScopeOf(p) in Scopes(manifest.Keys - tree.Keys);
      assert p in tree.Keys ==> ScopeOf(p) in Scopes(tree.Keys);
    }
  }

  lemma UnaffectedIsUnchanged(language: Language, before: Tree, after: Tree, forced: set<Path>, p: Path)
    requires Trusted(before, after)
    requires ScopeOf(p) !in Affected(Rebuilt(language, before).manifest, after, forced)
    ensures p in before <==> p in after
    ensures p in before ==> before[p] == after[p]
  {
    var manifest := Rebuilt(language, before).manifest;
    assert p in Changed(manifest, after) ==> ScopeOf(p) in Scopes(Changed(manifest, after));
    assert p in manifest.Keys - after.Keys ==> ScopeOf(p) in Scopes(manifest.Keys - after.Keys);
  }

  /** From an up-to-date store, a run that succeeds leaves every partition as a rebuild would. */
  lemma PartitionsAreRebuilt(language: Language, store: Store, before: Tree, after: Tree, forced: set<Path>)
    requires UpToDate(language, store, before) && Trusted(before, after)
    requires Indexed(language, store, after, forced).Some?
    ensures PartitionsAre(language, Indexed(language, store, after, forced).value, after)
  {
    hide Affected, FactsOf, ScopeOf, Conflicts;
    var affected := Affected(store.manifest, after, forced);
    forall s ensures Facts(store.partitions + Partitions(language, after, affected), s) == FactsOf(language, after, s) {
      if s !in affected {
        forall p | ScopeOf(p) == s ensures (p in before <==> p in after) && (p in before ==> before[p] == after[p]) {
          UnaffectedIsUnchanged(language, before, after, forced, p);
        }
        SameFacts(language, before, after, s);
      }
    }
  }

  lemma SameFacts(language: Language, before: Tree, after: Tree, s: Scope)
    requires forall p :: ScopeOf(p) == s ==> (p in before <==> p in after) && (p in before ==> before[p] == after[p])
    ensures FactsOf(language, before, s) == FactsOf(language, after, s)
  {
  }

  lemma ExactSweepRebuilds(language: Language, store: Store, before: Tree, after: Tree, forced: set<Path>)
    requires UpToDate(language, store, before) && Trusted(before, after)
    requires SweepsExactly(store.manifest, Affected(store.manifest, after, forced))
    ensures var r := Indexed(language, store, after, forced);
            r.Some? && r.value.manifest == Rebuilt(language, after).manifest
  {
    hide Affected, Swept, ScopeOf, PartitionsAre, Partitions;
    var affected := Affected(store.manifest, after, forced);
    var kept, entries, right :=
        Kept(store.manifest, affected), Entries(language, after, affected), Rebuilt(language, after).manifest;
    forall p | ScopeOf(p) !in affected
      ensures (p in before <==> p in after) && (p in before ==> before[p] == after[p]) {
      UnaffectedIsUnchanged(language, before, after, forced, p);
    }
    assert (kept + entries).Keys == right.Keys;
    assert kept + entries == right;
  }

  lemma OtherSweepsDoNot(language: Language, store: Store, before: Tree, after: Tree, forced: set<Path>)
    requires UpToDate(language, store, before) && Trusted(before, after)
    requires !SweepsExactly(store.manifest, Affected(store.manifest, after, forced))
    ensures var r := Indexed(language, store, after, forced);
            !(r.Some? && r.value.manifest == Rebuilt(language, after).manifest)
  {
    hide Affected, Swept, ScopeOf, PartitionsAre, Partitions;
    var affected := Affected(store.manifest, after, forced);
    var kept, entries := Kept(store.manifest, affected), Entries(language, after, affected);
    var p :| p in store.manifest && !(Swept(affected, p) <==> ScopeOf(p) in affected);
    if ScopeOf(p) in affected {
      assert p in kept;
      assert p in after ==> Conflicts(store.manifest, after, affected);
    } else {
      UnaffectedIsUnchanged(language, before, after, forced, p);
      assert p !in kept && p !in entries && p in after;
    }
  }

  /** The run succeeds and leaves the manifest a rebuild would exactly when it deletes
      the rows of the affected scopes and no others. */
  lemma ManifestIsRebuilt(language: Language, store: Store, before: Tree, after: Tree, forced: set<Path>)
    requires UpToDate(language, store, before) && Trusted(before, after)
    ensures var r := Indexed(language, store, after, forced);
            r.Some? && r.value.manifest == Rebuilt(language, after).manifest <==>
            SweepsExactly(store.manifest, Affected(store.manifest, after, forced))
  {
    hide Affected, SweepsExactly, Indexed, Rebuilt;
    if SweepsExactly(store.manifest, Affected(store.manifest, after, forced)) {
      ExactSweepRebuilds(language, store, before, after, forced);
    } else {
      OtherSweepsDoNot(language, store, before, after, forced);
    }
  }

  /** So a run under that condition keeps the store up to date. */
  lemma RunKeepsUpToDate(language: Language, store: Store, before: Tree, after: Tree, forced: set<Path>)
    requires UpToDate(language, store, before) && Trusted(before, after)
    requires SweepsExactly(store.manifest, Affected(store.manifest, after, forced))
    ensures Indexed(language, store, after, forced).Some?
    ensures UpToDate(language, Indexed(language, store, after, forced).value, after)
  {
    hide *;
    ManifestIsRebuilt(language, store, before, after, forced);
    PartitionsAreRebuilt(language, store, before, after, forced);
    UpToDateIs(language, Indexed(language, store, after, forced).value, after);
  }

  lemma UpToDateIs(language: Language, store: Store, tree: Tree)
    ensures UpToDate(language, store, tree) <==>
              PartitionsAre(language, store, tree) && store.manifest == Rebuilt(language, tree).manifest
  {
  }

  /** From nothing, a run is a rebuild. */
  lemma FirstRunRebuilds(language: Language, tree: Tree, forced: set<Path>)
    ensures var r := Indexed(language, Store(map[], map[]), tree, forced);
            r.Some? && UpToDate(language, r.value, tree)
  {
    var empty := Store(map[], map[]);
    forall s ensures Facts(empty.partitions, s) == FactsOf(language, map[], s) {
    }
    assert empty.manifest == Rebuilt(language, map[]).manifest;
    RunKeepsUpToDate(language, empty, map[], tree, forced);
  }

  // ---- runs one after another

  datatype Change = Change(tree: Tree, forced: set<Path>)

  function RunAll(language: Language, store: Store, changes: seq<Change>): Option<Store>
    decreases |changes|
  {
    if changes == [] then Some(store)
    else
      match Indexed(language, store, changes[0].tree, changes[0].forced)
      case None => None
      case Some(next) => RunAll(language, next, changes[1..])
  }

  /** Scopes that do not nest: each sweeps its own files and nothing else. */
  ghost predicate Flat(paths: set<Path>) {
    forall p, q :: p in paths && q in paths ==> (Sweeps(ScopeOf(p), q) <==> ScopeOf(p) == ScopeOf(q))
  }

  /** Trees and forced paths stay within `paths`, and equal metadata means equal content. */
  ghost predicate ChangesWithin(before: Tree, changes: seq<Change>, paths: set<Path>)
    decreases |changes|
  {
    && before.Keys <= paths
    && (changes == []
        || (Trusted(before, changes[0].tree) && changes[0].forced <= paths
            && ChangesWithin(changes[0].tree, changes[1..], paths)))
  }

  lemma AffectedComesFrom(manifest: map<Path, ManifestEntry>, tree: Tree, forced: set<Path>, s: Scope) returns (p: Path)
    requires s in Affected(manifest, tree, forced)
    ensures p in manifest.Keys + tree.Keys + forced && ScopeOf(p) == s
  {
    hide ScopeOf;
    p :| p in manifest.Keys + tree.Keys + forced && ScopeOf(p) == s;
  }

  lemma FlatSweepsExactly(manifest: map<Path, ManifestEntry>, tree: Tree, forced: set<Path>, paths: set<Path>)
    requires Flat(paths) && manifest.Keys <= paths && tree.Keys <= paths && forced <= paths
    ensures SweepsExactly(manifest, Affected(manifest, tree, forced))
  {
    hide Sweeps, ScopeOf, Affected;
    var affected := Affected(manifest, tree, forced);
    forall p | p in manifest ensures Swept(affected, p) <==> ScopeOf(p) in affected {
      if Swept(affected, p) {
        var s :| s in affected && Sweeps(s, p);
        var q := AffectedComesFrom(manifest, tree, forced, s);
        assert q in paths && p in paths && Sweeps(ScopeOf(q), p);
      }
      if ScopeOf(p) in affected { assert p in paths && Sweeps(ScopeOf(p), p); }
    }
  }

  lemma NoRun(language: Language, store: Store)
    ensures RunAll(language, store, []) == Some(store)
  {
  }

  lemma FirstRun(language: Language, store: Store, changes: seq<Change>)
    requires changes != [] && Indexed(language, store, changes[0].tree, changes[0].forced).Some?
    ensures RunAll(language, store, changes)
            == RunAll(language, Indexed(language, store, changes[0].tree, changes[0].forced).value, changes[1..])
  {
    hide Indexed;
  }

  lemma FirstChange(before: Tree, changes: seq<Change>, paths: set<Path>)
    requires changes != [] && ChangesWithin(before, changes, paths)
    ensures before.Keys <= paths && changes[0].tree.Keys <= paths && changes[0].forced <= paths
    ensures Trusted(before, changes[0].tree) && ChangesWithin(changes[0].tree, changes[1..], paths)
  {
    hide Trusted;
    assert ChangesWithin(changes[0].tree, changes[1..], paths);
  }

  lemma ManifestOf(language: Language, store: Store, tree: Tree)
    requires UpToDate(language, store, tree)
    ensures store.manifest.Keys == tree.Keys
  {
    hide PartitionsAre, Partitions;
  }

  /** In a project whose scopes do not nest, every sequence of runs ends as a rebuild would. */
  lemma {:induction false} FlatProjectsStayUpToDate(language: Language, store: Store, before: Tree,
                                                    changes: seq<Change>, paths: set<Path>)
    requires UpToDate(language, store, before) && Flat(paths) && ChangesWithin(before, changes, paths)
    ensures var r := RunAll(language, store, changes);
            r.Some? && UpToDate(language, r.value, if changes == [] then before else changes[|changes| - 1].tree)
    decreases |changes|
  {
    hide *;
    if changes == [] {
      NoRun(language, store);
    } else {
      var c := changes[0];
      ManifestOf(language, store, before);
      FirstChange(before, changes, paths);
      FlatSweepsExactly(store.manifest, c.tree, c.forced, paths);
      RunKeepsUpToDate(language, store, before, c.tree, c.forced);
      FlatProjectsStayUpToDate(language, Indexed(language, store, c.tree, c.forced).value, c.tree, changes[1..], paths);
      FirstRun(language, store, changes);
    }
  }

  /** From a rebuild of `before`, the changes end in an up-to-date store. */
  ghost predicate EndsUpToDate(language: Language, before: Tree, changes: seq<Change>) {
    var r := RunAll(language, Rebuilt(language, before), changes);
    r.Some? && UpToDate(language, r.value, if changes == [] then before else changes[|changes| - 1].tree)
  }

  /** Where scopes nest, or a directory is called root, some single change already goes wrong. */
  lemma NestedProjectGoesWrong(language: Language, paths: set<Path>) returns (before: Tree, change: Change)
    requires !Flat(paths)
    ensures ChangesWithin(before, [change], paths) && !EndsUpToDate(language, before, [change])
  {
    hide Sweeps, ScopeOf;
    var p, q :| p in paths && q in paths && !(Sweeps(ScopeOf(p), q) <==> ScopeOf(p) == ScopeOf(q));
    before := map[q := File(1, 0)][p := File(1, 0)];
    change := Change(before[p := File(2, 0)], {});
    var manifest := Rebuilt(language, before).manifest;
    OneFileChanged(language, before, p);
    assert Swept({ScopeOf(p)}, q) <==> Sweeps(ScopeOf(p), q);
    assert q in manifest;
    RebuildIsUpToDate(language, before);
    ManifestIsRebuilt(language, Rebuilt(language, before), before, change.tree, {});
    hide UpToDate, Indexed, Rebuilt, Affected;
    OneChange(language, Rebuilt(language, before), change);
    assert ChangesWithin(change.tree, [], paths) && [change][1..] == [];
    var r := Indexed(language, Rebuilt(language, before), change.tree, {});
    if r.Some? { UpToDateIs(language, r.value, change.tree); }
  }

  lemma OneFileChanged(language: Language, before: Tree, p: Path)
    requires p in before && before[p].metadata == 1
    ensures Affected(Rebuilt(language, before).manifest, before[p := File(2, 0)], {}) == {ScopeOf(p)}
  {
    hide ScopeOf;
    var manifest, after := Rebuilt(language, before).manifest, before[p := File(2, 0)];
    assert Changed(manifest, after) == {p} && manifest.Keys - after.Keys == {} && p in manifest;
    assert Scopes({p}) == {ScopeOf(p)};
  }

  lemma OneChange(language: Language, store: Store, change: Change)
    ensures RunAll(language, store, [change]) == Indexed(language, store, change.tree, change.forced)
  {
    hide Indexed;
    assert [change][1..] == [];
  }

  /** Every sequence of changes within `paths` ends as a rebuild would if and only if
      the scopes of `paths` do not nest. */
  lemma FlatIsExact(language: Language, paths: set<Path>)
    ensures Flat(paths) <==>
              forall before, changes :: ChangesWithin(before, changes, paths) ==>
                  EndsUpToDate(language, before, changes)
  {
    hide UpToDate, Rebuilt, RunAll, Flat, ChangesWithin;
    if Flat(paths) {
      forall before, changes | ChangesWithin(before, changes, paths) ensures EndsUpToDate(language, before, changes) {
        RebuildIsUpToDate(language, before);
        FlatProjectsStayUpToDate(language, Rebuilt(language, before), before, changes, paths);
      }
    } else {
      var before, change := NestedProjectGoesWrong(language, paths);
    }
  }

  // ---- where it goes wrong

  lemma ScopesOfExamples()
    ensures Directory("s/a") == Some("s") && Directory("s/t/b") == Some("s/t") && Directory("root/x") == Some("root")
  {
    assert "s/a"[..2] == "s/" && "s/"[..1] == "s";
    assert "s/t/b"[..4] == "s/t/" && "s/t/"[..3] == "s/t";
    assert "root/x"[..5] == "root/" && "root/"[..4] == "root";
  }

  /** Changing a file of `s` and then deleting the one file of `s/t` leaves the
      deleted file's facts in the index: the first run also deleted the manifest row
      of `s/t/b`, so the second did not miss the file. */
  lemma NestedScopeGoesStale(language: Language, before: Tree, first: Tree, second: Tree)
    requires language.facts("s/t", "s/t/b", 2) != {}
    requires before == map["s/a" := File(1, 1), "s/t/b" := File(1, 2)]
    requires first == map["s/a" := File(2, 3), "s/t/b" := File(1, 2)]
    requires second == map["s/a" := File(2, 3)]
    ensures Trusted(before, first) && Trusted(first, second)
    ensures var r := RunAll(language, Rebuilt(language, before), [Change(first, {}), Change(second, {})]);
            r.Some? && !PartitionsAre(language, r.value, second)
  {
    hide Indexed, FactsOf, Directory, RunAll, Rebuilt;
    var one := FirstOfTwo(language, before, first);
    var two := SecondOfTwo(language, one, second);
    TwoRuns(language, Rebuilt(language, before), Change(first, {}), Change(second, {}), one, two);
    NoFacts(language, second);
    assert Facts(two.partitions, "s/t") != FactsOf(language, second, "s/t");
  }

  lemma TwoRuns(language: Language, store: Store, c: Change, d: Change, one: Store, two: Store)
    requires Indexed(language, store, c.tree, c.forced) == Some(one)
    requires Indexed(language, one, d.tree, d.forced) == Some(two)
    ensures RunAll(language, store, [c, d]) == Some(two)
  {
    hide Indexed;
    assert [c, d][1..] == [d] && [d][1..] == [];
    assert RunAll(language, one, [d]) == RunAll(language, two, []);
  }

  lemma NoFacts(language: Language, second: Tree)
    requires second.Keys == {"s/a"}
    ensures FactsOf(language, second, "s/t") == {}
  {
    ScopesOfExamples();
    hide Directory;
  }

  lemma FirstOfTwo(language: Language, before: Tree, first: Tree) returns (one: Store)
    requires before == map["s/a" := File(1, 1), "s/t/b" := File(1, 2)]
    requires first == map["s/a" := File(2, 3), "s/t/b" := File(1, 2)]
    ensures Indexed(language, Rebuilt(language, before), first, {}) == Some(one)
    ensures one.manifest.Keys == {"s/a"} && one.manifest["s/a"].metadata == 2
    ensures Facts(one.partitions, "s/t") == language.facts("s/t", "s/t/b", 2)
  {
    hide *;
    var store := Rebuilt(language, before);
    FirstAffects(language, before, first);
    FirstKeeps(language, before, first);
    FirstFacts(language, before);
    one := IndexedFrom(language, store, first, "s", map["s/a" := EntryOf(language, first["s/a"])]);
    OtherFacts(language, store, first, one, "s", "s/t");
    EntryMetadata(language, first["s/a"]);
  }

  lemma IndexedFrom(language: Language, store: Store, tree: Tree, s: Scope, entries: map<Path, ManifestEntry>)
    returns (one: Store)
    requires Affected(store.manifest, tree, {}) == {s} && !Conflicts(store.manifest, tree, {s})
    requires Kept(store.manifest, {s}) == map[] && Entries(language, tree, {s}) == entries
    ensures Indexed(language, store, tree, {}) == Some(one)
    ensures one == Store(store.partitions + Partitions(language, tree, {s}), entries)
  {
    hide Affected, Conflicts, Kept, Entries, Partitions;
    one := Indexed(language, store, tree, {}).value;
    assert map[] + entries == entries;
  }

  lemma OtherFacts(language: Language, store: Store, tree: Tree, one: Store, s: Scope, other: Scope)
    requires one.partitions == store.partitions + Partitions(language, tree, {s}) && other != s
    ensures Facts(one.partitions, other) == Facts(store.partitions, other)
  {
    hide FactsOf;
  }

  lemma EntryMetadata(language: Language, file: File)
    ensures EntryOf(language, file).metadata == file.metadata
  {
  }

  lemma FirstAffects(language: Language, before: Tree, first: Tree)
    requires before == map["s/a" := File(1, 1), "s/t/b" := File(1, 2)]
    requires first == map["s/a" := File(2, 3), "s/t/b" := File(1, 2)]
    ensures Affected(Rebuilt(language, before).manifest, first, {}) == {"s"}
  {
    ScopesOfExamples();
    hide Directory;
    var manifest := Rebuilt(language, before).manifest;
    assert Changed(manifest, first) == {"s/a"};
    assert "s/a" in manifest && manifest.Keys - first.Keys == {};
    assert ScopeOf("s/a") == "s" && Scopes({"s/a"}) == {"s"};
  }

  lemma FirstKeeps(language: Language, before: Tree, first: Tree)
    requires before.Keys == first.Keys == {"s/a", "s/t/b"} && first["s/a"].metadata == 2
    ensures var manifest := Rebuilt(language, before).manifest;
            && !Conflicts(manifest, first, {"s"}) && Kept(manifest, {"s"}) == map[]
            && Entries(language, first, {"s"}) == map["s/a" := EntryOf(language, first["s/a"])]
  {
    hide Directory, Swept, Entries;
    var manifest := Rebuilt(language, before).manifest;
    FirstSweeps();
    FirstEnters(language, first);
    assert forall p :: p in manifest ==> p == "s/a" || p == "s/t/b";
  }

  lemma FirstSweeps()
    ensures Swept({"s"}, "s/a") && Swept({"s"}, "s/t/b")
  {
    assert Sweeps("s", "s/a") && Sweeps("s", "s/t/b");
  }

  lemma FirstEnters(language: Language, first: Tree)
    requires first.Keys == {"s/a", "s/t/b"}
    ensures Entries(language, first, {"s"}) == map["s/a" := EntryOf(language, first["s/a"])]
  {
    ScopesOfExamples();
    hide Directory;
    assert ScopeOf("s/a") == "s" && ScopeOf("s/t/b") == "s/t";
  }

  lemma FirstFacts(language: Language, before: Tree)
    requires before.Keys == {"s/a", "s/t/b"} && before["s/t/b"].content == 2
    ensures Facts(Rebuilt(language, before).partitions, "s/t") == language.facts("s/t", "s/t/b", 2)
  {
    ScopesOfExamples();
    hide Directory;
    assert ScopeOf("s/t/b") == "s/t" && "s/t" in Scopes(before.Keys);
    assert FactsOf(language, before, "s/t") == language.facts("s/t", "s/t/b", 2);
  }

  lemma SecondOfTwo(language: Language, one: Store, second: Tree) returns (two: Store)
    requires second == map["s/a" := File(2, 3)]
    requires one.manifest.Keys == {"s/a"} && one.manifest["s/a"].metadata == 2
    ensures Indexed(language, one, second, {}) == Some(two) && two.partitions == one.partitions
  {
    assert Changed(one.manifest, second) == {};
    assert one.manifest.Keys - second.Keys == {};
    assert "s/a" in one.manifest;
    assert Affected(one.manifest, second, {}) == {};
    two := Indexed(language, one, second, {}).value;
    assert Partitions(language, second, {}) == map[];
    assert one.partitions + map[] == one.partitions;
  }

  /** A run fails exactly when the scope called root is affected and a file in a
      directory called root, which no affected scope sweeps, keeps its manifest row. */
  lemma RunFailsWhen(language: Language, store: Store, tree: Tree, forced: set<Path>)
    ensures var affected := Affected(store.manifest, tree, forced);
            Indexed(language, store, tree, forced).None? <==>
            "root" in affected
            && exists p :: p in store.manifest && p in tree && Directory(p) == Some("root") && !Swept(affected, p)
  {
    hide Affected, Directory, Sweeps;
    var affected := Affected(store.manifest, tree, forced);
    forall p | p in store.manifest && p in tree && ScopeOf(p) in affected && !Swept(affected, p)
      ensures Directory(p) == Some("root") {
      ScopeSweepsItsOwn(p);
      assert !Sweeps(ScopeOf(p), p);
    }
  }

  /** The file changed in a directory called root makes the run fail; once it is
      deleted, the next run succeeds but its manifest row stays. */
  lemma RootDirectoryFails(language: Language, before: Tree)
    requires before == map["root/x" := File(1, 1)]
    ensures Indexed(language, Rebuilt(language, before), map["root/x" := File(2, 2)], {}).None?
    ensures var r := Indexed(language, Rebuilt(language, before), map[], {}); r.Some? && "root/x" in r.value.manifest
  {
    ChangedInRoot(language, before);
    DeletedInRoot(language, before);
  }

  lemma DeletedInRoot(language: Language, before: Tree)
    requires before == map["root/x" := File(1, 1)]
    ensures var r := Indexed(language, Rebuilt(language, before), map[], {}); r.Some? && "root/x" in r.value.manifest
  {
    ScopesOfExamples();
    hide Directory;
    var manifest := Rebuilt(language, before).manifest;
    var affected := Affected(manifest, map[], {});
    assert Changed(manifest, map[]) == {} && manifest.Keys - {} == {"root/x"};
    assert affected == {"root"} by { assert ScopeOf("root/x") == "root" && Scopes({"root/x"}) == {"root"}; }
    assert "root/x"[4] == '/';
    assert !Swept(affected, "root/x");
  }

  lemma ChangedInRoot(language: Language, root: Tree)
    requires root == map["root/x" := File(1, 1)]
    ensures Indexed(language, Rebuilt(language, root), map["root/x" := File(2, 2)], {}).None?
  {
    ScopesOfExamples();
    hide Directory;
    var after: Tree := map["root/x" := File(2, 2)];
    var manifest := Rebuilt(language, root).manifest;
    var affected := Affected(manifest, after, {});
    assert Changed(manifest, after) == {"root/x"};
    assert ScopeOf("root/x") in affected;
    assert manifest.Keys - after.Keys == {};
    assert affected == {"root"};
    assert "root/x"[4] == '/';
    assert !Swept(affected, "root/x");
  }
}
