/**
 What has to hold of a tree and of Git's answers for an undisturbed delivery to go
 through (crates/workflowd/src/candidate.rs:382-421, 574-618, 693-718, 1215-1245).
 */
module DeliveryConditions {
  import opened Wrappers
  import opened FileKinds
  import opened FileTree
  import opened RollbackSpec
  import opened DeliverySpec

  /** What Git and the random source answer during one attempt. */
  datatype Answers = Answers(
    tree: map<string, bool>,                    // files of the base revision and their executable bits
    preimage: (string, Digest) -> bool,         // does a digest match the base's blob at a path
    nonce: string,
    flaky: set<nat>)                            // entries a rollback cannot hash in its first loop

  predicate EntryPromoted(hash: Hash, m: Manifest, payload: Payload, files: Files, dirs: set<string>, i: nat)
    requires i < |m.files|
  {
    var f := m.files[i];
    if f.kind.Deleted? then
      if f.path in dirs then
        exists k :: 0 <= k < |m.files| && !m.files[k].kind.Deleted? && Under(f.path, m.files[k].path)
      else Tracked(f.path) !in files
    else
      && f.path !in dirs && Tracked(f.path) in files
      && f.digest == Some(hash(files[Tracked(f.path)].content))
      && f.path in payload && files[Tracked(f.path)].exec == payload[f.path].exec
  }

  /** Every proper prefix of `p` that exists is a directory or a file to be deleted. */
  predicate PrefixesUsable(m: Manifest, files: Files, dirs: set<string>, p: string)
    decreases |p|
  {
    var d := Parent(p);
    d == "" || p == ""
    || ((d !in dirs && Tracked(d) in files ==>
        exists k :: 0 <= k < |m.files| && m.files[k].path == d && m.files[k].kind.Deleted?)
            && PrefixesUsable(m, files, dirs, d))
  }

  predicate DeletedBelow(m: Manifest, p: string) {
    exists k :: 0 <= k < |m.files| && m.files[k].kind.Deleted? && Under(p, m.files[k].path)
  }

  predicate HasBase(kind: FileKind) {
    kind.Modified? || kind.Deleted?
  }

  /** The entry's destination is what its base revision says, or free. */
  predicate BaseHolds(hash: Hash, m: Manifest, git: Answers, files: Files, dirs: set<string>, i: nat)
    requires i < |m.files|
  {
    var f := m.files[i];
    if HasBase(f.kind) then
      && f.path in git.tree && f.path !in dirs && Tracked(f.path) in files
      && git.preimage(f.path, hash(files[Tracked(f.path)].content))
      && files[Tracked(f.path)].exec == git.tree[f.path]
    else if f.path in dirs then DeletedBelow(m, f.path)
    else Tracked(f.path) !in files
  }

  // ---- the conditions, on the tree before the delivery

  /** The tree agrees with Git on every entry of the manifest. */
  ghost predicate GitAgrees(hash: Hash, m: Manifest, git: Answers, files: Files, dirs: set<string>) {
    forall i :: 0 <= i < |m.files| ==> BaseHolds(hash, m, git, files, dirs, i)
  }

  /** No file stands where an entry needs a directory. */
  ghost predicate NoFileAbove(m: Manifest, files: Files, dirs: set<string>) {
    forall i :: 0 <= i < |m.files| ==> PrefixesUsable(m, files, dirs, m.files[i].path)
  }

  predicate Kept(m: Manifest, i: nat) {
    i < |m.files| && !m.files[i].kind.Deleted?
  }

  /** A directory of the tree, or one above a file that comes before entry `i`. */
  ghost predicate Stands(m: Manifest, dirs: set<string>, i: nat, n: string) {
    n in dirs || exists k: nat :: k < i && Kept(m, k) && Under(n, m.files[k].path)
  }

  /** Each directory above a file stands when its turn comes, or the one above it does:
      missing parents are created deepest first, and only below one that exists. */
  ghost predicate ParentsInOrder(m: Manifest, dirs: set<string>) {
    forall i: nat :: Kept(m, i) ==> InOrderOf(m, dirs, i)
  }

  ghost predicate InOrderOf(m: Manifest, dirs: set<string>, i: nat)
    requires i < |m.files|
  {
    forall n :: n != "" && Under(n, m.files[i].path) ==> ParentInOrder(m, dirs, i, n)
  }

  ghost predicate ParentInOrder(m: Manifest, dirs: set<string>, i: nat, n: string) {
    Stands(m, dirs, i, n) || Parent(n) == "" || Stands(m, dirs, i, Parent(n))
  }

  /** An undisturbed delivery from this tree goes through. */
  ghost predicate Deliverable(hash: Hash, m: Manifest, git: Answers, files: Files, dirs: set<string>) {
    GitAgrees(hash, m, git, files, dirs) && NoFileAbove(m, files, dirs) && ParentsInOrder(m, dirs)
  }

  /** The tree already is as the approval has it. */
  ghost predicate AllPromoted(hash: Hash, m: Manifest, payload: Payload, files: Files, dirs: set<string>) {
    forall i :: 0 <= i < |m.files| ==> EntryPromoted(hash, m, payload, files, dirs, i)
  }

  /** In a tree where every directory stands in one, it is enough that no file of the
      manifest lacks more than the last directory above it. */
  lemma OneLevelIsEnough(m: Manifest, dirs: set<string>)
    requires forall n :: n in dirs && Parent(n) != "" ==> Parent(n) in dirs
    requires forall i: nat :: Kept(m, i) ==>
               var d := Parent(m.files[i].path); d == "" || d in dirs || Parent(d) == "" || Parent(d) in dirs
    ensures ParentsInOrder(m, dirs)
  {
    forall i: nat, n | Kept(m, i) && n != "" && Under(n, m.files[i].path) ensures ParentInOrder(m, dirs, i, n) {
      var d := Parent(m.files[i].path);
      NearestAbove(n, m.files[i].path);
      if n != d {
        NearestAbove(n, d);
        if d in dirs { AboveStands(n, d, dirs); } else { AboveStands(n, Parent(d), dirs); }
      }
    }
  }

  /** `Parent` is the nearest directory above. */
  lemma {:induction false} NearestAbove(n: string, p: string)
    requires Under(n, p) && n != ""
    ensures Parent(p) != "" && (n == Parent(p) || Under(n, Parent(p)))
    decreases |p|
  {
    var init := p[..|p| - 1];
    if p[|p| - 1] == '/' {
      if n != init {
        assert |n| + 1 <= |init| || |n| == |init|;
      }
    } else {
      assert n + "/" <= init;
      NearestAbove(n, init);
    }
  }

  lemma {:induction false} AboveStands(n: string, p: string, dirs: set<string>)
    requires (n == p || Under(n, p)) && n != "" && p in dirs
    requires forall d :: d in dirs && Parent(d) != "" ==> Parent(d) in dirs
    ensures n in dirs
    decreases |p|
  {
    if n != p {
      NearestAbove(n, p);
      AboveStands(n, Parent(p), dirs);
    }
  }

  /** A file two levels below the directories there are cannot be delivered; with the
      upper of them it can. */
  lemma TwoLevelsAreTooMany(m: Manifest)
    requires |m.files| == 1 && m.files[0].path == "a/b/c" && !m.files[0].kind.Deleted?
    ensures !ParentsInOrder(m, {}) && ParentsInOrder(m, {"a"})
  {
    ParentsOfExample();
    assert Under("a/b", "a/b/c") by { assert "a/b" + "/" == "a/b/c"[..4]; }
    assert Kept(m, 0);
    assert !ParentInOrder(m, {}, 0, "a/b");
    assert !InOrderOf(m, {}, 0);
    forall i: nat, n | Kept(m, i) && n != "" && Under(n, m.files[i].path) ensures ParentInOrder(m, {"a"}, i, n) {
      NearestAbove(n, "a/b/c");
      if n != "a/b" {
        NearestAbove(n, "a/b");
        if n != "a" { NearestAbove(n, "a"); }
      }
    }
  }

  lemma ParentsOfExample()
    ensures Parent("a/b/c") == "a/b" && Parent("a/b") == "a" && Parent("a") == ""
  {
    assert "a/b/c"[..4] == "a/b/" && "a/b/"[..3] == "a/b";
    assert "a/b"[..2] == "a/" && "a/"[..1] == "a" && "a"[..0] == "";
    assert Parent("a/b/") == "a/b" && Parent("a/") == "a" && Parent("") == "";
  }

  // ---- the conditions stay

  /** No directory stands at an entry's path. */
  ghost predicate PathsFree(m: Manifest, dirs: set<string>) {
    forall i :: 0 <= i < |m.files| ==> m.files[i].path !in dirs
  }

  /** Directories may have been added, but none at an entry's path. */
  ghost predicate DirsGrew(m: Manifest, before: set<string>, after: set<string>) {
    before <= after && (after == before || PathsFree(m, after))
  }

  lemma SameDirs(m: Manifest, dirs: set<string>)
    ensures DirsGrew(m, dirs, dirs)
  {
  }

  /** More directories do no harm, except at the entries' own paths. */
  lemma StaysDeliverable(hash: Hash, m: Manifest, git: Answers, files: Files, dirs: set<string>, more: set<string>)
    requires Deliverable(hash, m, git, files, dirs) && DirsGrew(m, dirs, more)
    ensures Deliverable(hash, m, git, files, more)
  {
    if more == dirs { return; }
    forall i | 0 <= i < |m.files| ensures PrefixesUsable(m, files, more, m.files[i].path) {
      UsableWithMore(m, files, dirs, more, m.files[i].path);
    }
    forall i | 0 <= i < |m.files| ensures BaseHolds(hash, m, git, files, more, i) {
      assert BaseHolds(hash, m, git, files, dirs, i);
    }
    forall i: nat, n | Kept(m, i) && n != "" && Under(n, m.files[i].path) ensures ParentInOrder(m, more, i, n) {
      assert InOrderOf(m, dirs, i) && ParentInOrder(m, dirs, i, n);
    }
  }

  lemma {:induction false} UsableWithMore(m: Manifest, files: Files, dirs: set<string>, more: set<string>, p: string)
    requires PrefixesUsable(m, files, dirs, p) && dirs <= more
    ensures PrefixesUsable(m, files, more, p)
    decreases |p|
  {
    if p != "" && Parent(p) != "" { UsableWithMore(m, files, dirs, more, Parent(p)); }
  }

  /** A change at paths that are not above `p` keeps its prefixes usable. */
  lemma {:induction false} UsableElsewhere(m: Manifest, files: Files, after: Files, dirs: set<string>, p: string)
    requires forall n :: Under(n, p) && n != "" ==> At(files, Tracked(n)) == At(after, Tracked(n))
    ensures PrefixesUsable(m, files, dirs, p) == PrefixesUsable(m, after, dirs, p)
    decreases |p|
  {
    var d := Parent(p);
    if p != "" && d != "" {
      forall n | Under(n, d) && n != "" ensures At(files, Tracked(n)) == At(after, Tracked(n)) {
        UnderTransitive(n, d, p);
      }
      UsableElsewhere(m, files, after, dirs, d);
      assert At(files, Tracked(d)) == At(after, Tracked(d));
    }
  }

  /** Usable prefixes that are no manifest paths are no files. */
  lemma {:induction false} UsableIsFree(m: Manifest, files: Files, dirs: set<string>, p: string, n: string)
    requires PrefixesUsable(m, files, dirs, p) && Under(n, p) && n != ""
    requires forall k :: 0 <= k < |m.files| ==> m.files[k].path != n
    ensures n in dirs || Tracked(n) !in files
    decreases |p|
  {
    NearestAbove(n, p);
    if n != Parent(p) { UsableIsFree(m, files, dirs, Parent(p), n); }
  }
}
