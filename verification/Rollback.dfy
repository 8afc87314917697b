/**
 `rollback_payload` and its helpers (crates/workflowd/src/candidate.rs:772-873,
 1127-1200), call by call, proved against `RollbackSpec`.
 */
module Rollback {
  import opened Wrappers
  import opened FileTree
  import opened RollbackSpec

  /** `matches_snapshot_cap`: an error while hashing counts as "no match". */
  method SnapshotMatches(disk: Disk, p: Path, jf: JournalFile, unreadable: bool) returns (r: Step<bool>)
    modifies disk`script
    ensures r.Ok? ==> r.value == (!unreadable && p in disk.files && Original(disk.hash, jf, disk.files[p]))
    ensures old(disk.Reliable()) ==> disk.Reliable() && r.Ok?
  {
    if jf.original.None? || unreadable || p !in disk.files || disk.hash(disk.files[p].content) != jf.original.value {
      return Ok(false);
    }
    var _ :- disk.Call();
    r := Ok(disk.files[p].exec == jf.originalExec);
  }

  /** `matches_approved_cap`: an error while hashing is an error. */
  method ApprovedMatches(disk: Disk, p: Path, jf: JournalFile) returns (r: Step<bool>)
    modifies disk`script
    ensures r.Ok? ==> r.value == (p in disk.files && IsApproved(disk.hash, jf, disk.files[p]))
    ensures old(disk.Reliable()) ==> disk.Reliable() && r.Ok?
  {
    if jf.approved.None? { return Ok(false); }
    var _ :- disk.Call();
    if p !in disk.files { return Ok(false); }
    r := Ok(disk.hash(disk.files[p].content) == jf.approved.value && disk.files[p].exec == jf.approvedExec);
  }

  /** `preserve_concurrent`. */
  method PreserveConcurrent(disk: Disk, j: Journal, i: nat) returns (r: Step<()>)
    requires i < |j.files| && Dest(j, i) in disk.files && disk.Valid()
    modifies disk`files, disk`script
    ensures disk.Valid()
    ensures SameExcept(old(disk.files), disk.files, {Dest(j, i), Temp(j, Aside, i)})
    ensures var s, t := SlotOf(old(disk.files), j, i), SlotOf(disk.files, j, i);
            || t == s
            || (s.aside.None? && t == s.(aside := s.dest))
            || (s.aside.None? && t == s.(aside := s.dest, dest := None))
    ensures r.Ok? ==> var s, t := SlotOf(old(disk.files), j, i), SlotOf(disk.files, j, i);
                      s.aside.None? && t == s.(aside := s.dest, dest := None)
    ensures old(disk.Reliable()) ==> disk.Reliable() && !r.Crash? && (Temp(j, Aside, i) !in old(disk.files) ==> r.Ok?)
  {
    var _ :- disk.Link(Dest(j, i), Temp(j, Aside, i));
    r := disk.RemoveFile(Dest(j, i));
  }

  /** Whether an approved file lies below this entry's path. */
  predicate ApprovedDescendants(j: Journal, i: nat)
    requires i < |j.files|
  {
    exists k :: 0 <= k < |j.files| && j.files[k].approved.Some? && Under(j.files[i].path, j.files[k].path)
  }

  /** No directory stands at the entry's path, and no file where restoring its backup
      needs a directory. */
  ghost predicate Unobstructed(files: Files, dirs: set<string>, j: Journal, i: nat)
    requires i < |j.files|
  {
    && !j.files[i].originalDirectory
    && j.files[i].path !in dirs
    && (Temp(j, Backup, i) in files ==> forall n :: Under(n, j.files[i].path) ==> Tracked(n) !in files)
  }

  ghost predicate AllUnobstructed(files: Files, dirs: set<string>, j: Journal) {
    forall i :: 0 <= i < |j.files| ==> Unobstructed(files, dirs, j, i)
  }

  /** Restoring one entry obstructs no entry of a prefix-free journal. */
  lemma StaysUnobstructed(j: Journal, i: nat, k: nat, files: Files, dirs: set<string>, files': Files,
                          dirs': set<string>)
    requires PrefixFree(j) && Distinct(j) && i < |j.files| && k < |j.files|
    requires Unobstructed(files, dirs, j, i) && Unobstructed(files, dirs, j, k)
    requires SameExcept(files, files', {Dest(j, i), Temp(j, Backup, i)})
    requires forall n :: n in dirs' && n !in dirs ==> n == j.files[i].path || Under(n, j.files[i].path)
    requires j.files[i].path !in dirs' && (Temp(j, Backup, i) in files' ==> Temp(j, Backup, i) in files)
    ensures Unobstructed(files', dirs', j, k)
  {
    if k != i {
      assert j.files[k].path != j.files[i].path;
      assert At(files, Temp(j, Backup, k)) == At(files', Temp(j, Backup, k));
    }
    forall n | Temp(j, Backup, k) in files' && Under(n, j.files[k].path) ensures Tracked(n) !in files' {
      assert n != j.files[i].path;
      assert At(files, Tracked(n)) == At(files', Tracked(n));
    }
  }

  /** What the first loop does with a file at an entry's destination. */
  method ClearFile(disk: Disk, j: Journal, i: nat, unreadable: bool) returns (r: Step<()>)
    requires i < |j.files| && disk.Valid() && Dest(j, i) in disk.files
    modifies disk`files, disk`script
    ensures disk.Valid()
    ensures SameExcept(old(disk.files), disk.files, {Dest(j, i), Temp(j, Aside, i)})
    ensures DuringFirst(disk.hash, j.files[i], unreadable, SlotOf(old(disk.files), j, i), SlotOf(disk.files, j, i))
    ensures r.Ok? ==> var s := SlotOf(old(disk.files), j, i);
                      !AsideTaken(disk.hash, j.files[i], unreadable, s)
                      && SlotOf(disk.files, j, i)
                          == FirstPass(disk.hash, j.files[i], unreadable, s).(incoming := s.incoming)
    ensures old(disk.Reliable()) ==> disk.Reliable() && !r.Crash?
    ensures old(disk.Reliable()) ==>
              AsideTaken(disk.hash, j.files[i], unreadable, SlotOf(old(disk.files), j, i)) || r.Ok?
  {
    hide IsApproved, Original;
    var jf, dest := j.files[i], Dest(j, i);
    var original :- SnapshotMatches(disk, dest, jf, unreadable);
    if original { return Ok(()); }
    var approved :- ApprovedMatches(disk, dest, jf);
    if approved {
      r := disk.RemoveFile(dest);
    } else {
      r := PreserveConcurrent(disk, j, i);
    }
  }

  /** The body of the first loop. */
  method ClearDestination(disk: Disk, j: Journal, i: nat, unreadable: bool) returns (r: Step<()>)
    requires i < |j.files| && disk.Valid()
    modifies disk`files, disk`dirs, disk`script
    ensures disk.Valid() && disk.dirs <= old(disk.dirs)
    ensures SameExcept(old(disk.files), disk.files, {Dest(j, i), Temp(j, Incoming, i), Temp(j, Aside, i)})
    ensures DuringFirst(disk.hash, j.files[i], unreadable, SlotOf(old(disk.files), j, i), SlotOf(disk.files, j, i))
    ensures r.Ok? ==> var s := SlotOf(old(disk.files), j, i);
                      !AsideTaken(disk.hash, j.files[i], unreadable, s)
                      && SlotOf(disk.files, j, i) == FirstPass(disk.hash, j.files[i], unreadable, s)
    ensures old(disk.Reliable()) ==> disk.Reliable() && !r.Crash?
    ensures j.files[i].path !in old(disk.dirs) || j.files[i].originalDirectory ==> disk.dirs == old(disk.dirs)
    ensures old(disk.dirs) - {j.files[i].path} <= disk.dirs
    ensures r.Ok? && j.files[i].path in old(disk.dirs) ==> j.files[i].originalDirectory || ApprovedDescendants(j, i)
    ensures old(disk.Reliable()) && j.files[i].path !in old(disk.dirs) ==>
              AsideTaken(disk.hash, j.files[i], unreadable, SlotOf(old(disk.files), j, i)) || r.Ok?
  {
    hide IsApproved, Original;
    var jf := j.files[i];
    var meta :- disk.Metadata(Dest(j, i));
    match meta {
      case Some(Regular(_)) =>
        var _ :- ClearFile(disk, j, i, unreadable);
      case Some(Directory) =>
        if !jf.originalDirectory {
          if !ApprovedDescendants(j, i) { return Err; }
          var _ :- disk.RemoveDir(jf.path);
        }
      case None =>
    }
    r := disk.RemoveFileIfExists(Temp(j, Incoming, i));
  }

  /** Links the backup to its destination, below a parent created if need be. */
  method LinkBack(disk: Disk, j: Journal, i: nat) returns (r: Step<()>)
    requires i < |j.files| && disk.Valid()
    modifies disk`files, disk`dirs, disk`script
    ensures disk.Valid()
    ensures old(disk.dirs) <= disk.dirs
    ensures r.Ok? ==> Temp(j, Backup, i) in old(disk.files) && Dest(j, i) !in old(disk.files)
    ensures r.Err? ==> disk.files == old(disk.files)
    ensures disk.files == old(disk.files) ||
            (Temp(j, Backup, i) in old(disk.files) && Dest(j, i) !in old(disk.files)
             && disk.files == old(disk.files)[Dest(j, i) := old(disk.files)[Temp(j, Backup, i)]])
    ensures r.Ok? ==> disk.files != old(disk.files)
    ensures forall n :: n in disk.dirs && n !in old(disk.dirs) ==> Under(n, j.files[i].path)
    ensures old(disk.Reliable()) ==> disk.Reliable() && !r.Crash?
    ensures old(disk.Reliable() && Unobstructed(disk.files, disk.dirs, j, i)) ==>
              Dest(j, i) in old(disk.files) || Temp(j, Backup, i) !in old(disk.files) || r.Ok?
  {
    var parent := Parent(j.files[i].path);
    forall n | parent != "" && (n == parent || Under(n, parent)) ensures Under(n, j.files[i].path) {
      if n != parent { UnderTransitive(n, parent, j.files[i].path); }
    }
    var _ :- disk.CreateDirAll(parent);
    r := disk.Link(Temp(j, Backup, i), Dest(j, i));
  }

  /** The body of the last loop. */
  method RestoreBackup(disk: Disk, j: Journal, i: nat) returns (r: Step<()>)
    requires i < |j.files| && disk.Valid()
    modifies disk`files, disk`dirs, disk`script
    ensures disk.Valid()
    ensures old(disk.dirs) <= disk.dirs
    ensures SameExcept(old(disk.files), disk.files, {Dest(j, i), Temp(j, Backup, i)})
    ensures DuringThird(disk.hash, j.files[i], SlotOf(old(disk.files), j, i), SlotOf(disk.files, j, i))
    ensures r.Ok? ==> var s := SlotOf(old(disk.files), j, i);
                      Restorable(disk.hash, j.files[i], s) && SlotOf(disk.files, j, i) == ThirdPass(j.files[i], s)
    ensures old(disk.Reliable()) ==> disk.Reliable() && !r.Crash?
    ensures forall n :: n in disk.dirs && n !in old(disk.dirs) ==> n == j.files[i].path || Under(n, j.files[i].path)
    ensures j.files[i].path in disk.dirs && j.files[i].path !in old(disk.dirs) ==> j.files[i].originalDirectory
    ensures r.Ok? && j.files[i].originalDirectory ==>
              Dest(j, i) in disk.files || j.files[i].path in disk.dirs || j.files[i].path == ""
    ensures old(disk.Reliable()) && old(Unobstructed(disk.files, disk.dirs, j, i)) ==>
              !Restorable(disk.hash, j.files[i], SlotOf(old(disk.files), j, i)) || r.Ok?
  {
    var jf := j.files[i];
    if jf.originalDirectory {
      var meta :- disk.Metadata(Dest(j, i));
      if meta.None? {
        var _ :- disk.CreateDirAll(jf.path);
      }
      return Ok(());
    }
    r := RestoreFile(disk, j, i);
  }

  /** What the last loop does before it gives up on a backup that is not the original. */
  method RefuseBackup(disk: Disk, j: Journal, i: nat) returns (r: Step<()>)
    requires i < |j.files| && disk.Valid() && !j.files[i].originalDirectory && Temp(j, Backup, i) in disk.files
    modifies disk`files, disk`dirs, disk`script
    ensures disk.Valid() && !r.Ok?
    ensures old(disk.dirs) <= disk.dirs
    ensures SameExcept(old(disk.files), disk.files, {Dest(j, i), Temp(j, Backup, i)})
    ensures DuringThird(disk.hash, j.files[i], SlotOf(old(disk.files), j, i), SlotOf(disk.files, j, i))
    ensures old(disk.Reliable()) ==> disk.Reliable() && !r.Crash?
    ensures forall n :: n in disk.dirs && n !in old(disk.dirs) ==> Under(n, j.files[i].path)
  {
    hide Under, Unobstructed;
    var meta :- disk.Metadata(Dest(j, i));
    if meta.None? {
      var _ :- LinkBack(disk, j, i);
      var _ :- disk.Call();
    }
    r := Err;
  }

  /** Puts an intact backup back, or drops it beside an intact original. */
  method ReturnBackup(disk: Disk, j: Journal, i: nat) returns (r: Step<()>)
    requires i < |j.files| && disk.Valid() && !j.files[i].originalDirectory
    requires Temp(j, Backup, i) in disk.files && Original(disk.hash, j.files[i], disk.files[Temp(j, Backup, i)])
    modifies disk`files, disk`dirs, disk`script
    ensures disk.Valid()
    ensures old(disk.dirs) <= disk.dirs
    ensures SameExcept(old(disk.files), disk.files, {Dest(j, i), Temp(j, Backup, i)})
    ensures DuringThird(disk.hash, j.files[i], SlotOf(old(disk.files), j, i), SlotOf(disk.files, j, i))
    ensures r.Ok? ==> var s := SlotOf(old(disk.files), j, i);
                      Restorable(disk.hash, j.files[i], s) && SlotOf(disk.files, j, i) == ThirdPass(j.files[i], s)
    ensures old(disk.Reliable()) ==> disk.Reliable() && !r.Crash?
    ensures forall n :: n in disk.dirs && n !in old(disk.dirs) ==> Under(n, j.files[i].path)
    ensures old(disk.Reliable()) && old(Unobstructed(disk.files, disk.dirs, j, i)) ==>
              !Restorable(disk.hash, j.files[i], SlotOf(old(disk.files), j, i)) || r.Ok?
  {
    hide Under, Original;
    var jf, dest := j.files[i], Dest(j, i);
    var meta :- disk.Metadata(dest);
    if meta.None? {
      var _ :- LinkBack(disk, j, i);
    } else {
      var w := disk.Next();
      var same :- SnapshotMatches(disk, dest, jf, w == Fail);
      if !same { return Err; }
    }
    r := disk.RemoveFile(Temp(j, Backup, i));
  }

  /** The last loop body for an entry that was no directory. */
  method RestoreFile(disk: Disk, j: Journal, i: nat) returns (r: Step<()>)
    requires i < |j.files| && disk.Valid() && !j.files[i].originalDirectory
    modifies disk`files, disk`dirs, disk`script
    ensures disk.Valid()
    ensures old(disk.dirs) <= disk.dirs
    ensures SameExcept(old(disk.files), disk.files, {Dest(j, i), Temp(j, Backup, i)})
    ensures DuringThird(disk.hash, j.files[i], SlotOf(old(disk.files), j, i), SlotOf(disk.files, j, i))
    ensures r.Ok? ==> var s := SlotOf(old(disk.files), j, i);
                      Restorable(disk.hash, j.files[i], s) && SlotOf(disk.files, j, i) == ThirdPass(j.files[i], s)
    ensures old(disk.Reliable()) ==> disk.Reliable() && !r.Crash?
    ensures forall n :: n in disk.dirs && n !in old(disk.dirs) ==> Under(n, j.files[i].path)
    ensures old(disk.Reliable()) && old(Unobstructed(disk.files, disk.dirs, j, i)) ==>
              !Restorable(disk.hash, j.files[i], SlotOf(old(disk.files), j, i)) || r.Ok?
  {
    hide Under, Original;
    var jf, backup := j.files[i], Temp(j, Backup, i);
    var saved :- disk.Metadata(backup);
    if saved.None? { return Ok(()); }
    var v := disk.Next();
    var intact :- SnapshotMatches(disk, backup, jf, v == Fail);
    if !intact {
      r := RefuseBackup(disk, j, i);
      return;
    }
    r := ReturnBackup(disk, j, i);
  }

  // ---- orders of visiting the entries

  /** Every index below `n` exactly once. */
  ghost predicate Visits(n: nat, order: seq<nat>) {
    && |order| == n
    && (forall k :: 0 <= k < |order| ==> order[k] < n)
    && (forall i :: 0 <= i < n ==> i in order)
    && (forall a, b :: 0 <= a < b < |order| ==> order[a] != order[b])
  }

  ghost predicate DepthSorted(j: Journal, order: seq<nat>)
    requires forall k :: 0 <= k < |order| ==> order[k] < |j.files|
  {
    forall a, b :: 0 <= a < b < |order| ==> Depth(j.files[order[a]].path) <= Depth(j.files[order[b]].path)
  }

  function Insert(order: seq<nat>, at: nat, n: nat): seq<nat>
    requires at <= |order|
  {
    order[..at] + [n] + order[at..]
  }

  lemma InsertVisits(order: seq<nat>, at: nat, n: nat)
    requires Visits(n, order) && at <= n
    ensures Visits(n + 1, Insert(order, at, n))
  {
    var after := Insert(order, at, n);
    forall i | 0 <= i < n + 1 ensures i in after {
      if i == n {
        assert after[at] == n;
      } else {
        assert i in order;
        var k :| 0 <= k < |order| && order[k] == i;
        assert after[if k < at then k else k + 1] == i;
      }
    }
  }

  lemma InsertSorted(j: Journal, order: seq<nat>, at: nat, n: nat)
    requires n < |j.files| && at <= |order| && forall k :: 0 <= k < |order| ==> order[k] < |j.files|
    requires DepthSorted(j, order)
    requires at > 0 ==> Depth(j.files[order[at - 1]].path) <= Depth(j.files[n].path)
    requires at < |order| ==> Depth(j.files[n].path) <= Depth(j.files[order[at]].path)
    ensures forall k :: 0 <= k < |Insert(order, at, n)| ==> Insert(order, at, n)[k] < |j.files|
    ensures DepthSorted(j, Insert(order, at, n))
  {
    hide Depth;
    var after := Insert(order, at, n);
    assert forall k :: 0 <= k < |after| ==>
           after[k] == if k < at then order[k] else if k == at then n else order[k - 1];
    forall a, b | 0 <= a < b < |after| ensures Depth(j.files[after[a]].path) <= Depth(j.files[after[b]].path) {
      assert at > 0 && a < at ==> order[a] == order[at - 1] || a < at - 1;
      assert at < |order| && b > at ==> order[b - 1] == order[at] || at < b - 1;
    }
  }

  /** `sort_unstable_by_key` on the number of slashes; callers rely on no order among equals. */
  method ByDepth(j: Journal) returns (order: seq<nat>)
    ensures Visits(|j.files|, order) && DepthSorted(j, order)
  {
    order := [];
    for n := 0 to |j.files|
      invariant Visits(n, order) && DepthSorted(j, order)
    {
      var at := n;
      while at > 0 && Depth(j.files[order[at - 1]].path) > Depth(j.files[n].path)
        invariant 0 <= at <= n
        invariant at < n ==> Depth(j.files[order[at]].path) > Depth(j.files[n].path)
      {
        at := at - 1;
      }
      InsertVisits(order, at, n);
      InsertSorted(j, order, at, n);
      order := Insert(order, at, n);
    }
  }

  // ---- the whole rollback

  /** Every slot is somewhere between the two file maps of a rollback. */
  ghost predicate Underway(hash: Hash, j: Journal, flaky: set<nat>, before: Files, after: Files) {
    && Outside(j, before, after)
    && forall i :: 0 <= i < |j.files| ==>
         DuringRollback(hash, j.files[i], i in flaky, SlotOf(before, j, i), SlotOf(after, j, i))
  }

  /** Every slot has been rolled back. */
  ghost predicate RolledBack(hash: Hash, j: Journal, flaky: set<nat>, before: Files, after: Files) {
    && Outside(j, before, after)
    && forall i :: 0 <= i < |j.files| ==>
         SlotOf(after, j, i) == Rolled(hash, j.files[i], i in flaky, SlotOf(before, j, i))
  }

  ghost predicate AllComplete(hash: Hash, j: Journal, flaky: set<nat>, before: Files) {
    forall i :: 0 <= i < |j.files| ==> Completes(hash, j.files[i], i in flaky, SlotOf(before, j, i))
  }

  /** A change inside one slot leaves every other slot and everything outside alone. */
  lemma SlotFrame(j: Journal, i: nat, before: Files, after: Files)
    requires Distinct(j) && i < |j.files|
    requires SameExcept(before, after, {Dest(j, i), Temp(j, Backup, i), Temp(j, Incoming, i), Temp(j, Aside, i)})
    ensures Outside(j, before, after)
    ensures forall k :: 0 <= k < |j.files| && k != i ==> SlotOf(before, j, k) == SlotOf(after, j, k)
  {
  }

  /** Nothing stands in the way of this rollback. */
  ghost predicate Calm(disk: Disk, j: Journal, flaky: set<nat>)
    reads disk`files, disk`dirs, disk`script
  {
    && disk.Reliable() && PrefixFree(j) && AllComplete(disk.hash, j, flaky, disk.files)
    && AllUnobstructed(disk.files, disk.dirs, j)
  }

  ghost predicate AllRestorable(hash: Hash, j: Journal, files: Files) {
    forall i :: 0 <= i < |j.files| ==> Restorable(hash, j.files[i], SlotOf(files, j, i))
  }

  lemma CalmEntry(hash: Hash, j: Journal, flaky: set<nat>, done: seq<nat>, i: nat, before: Files, dirs: set<string>,
                  was: Files)
    requires AllComplete(hash, j, flaky, before) && AllUnobstructed(before, dirs, j)
    requires ClearedSoFar(hash, j, flaky, done, before, was) && i < |j.files| && i !in done
    ensures j.files[i].path !in dirs && !AsideTaken(hash, j.files[i], i in flaky, SlotOf(was, j, i))
  {
    hide SlotOf, AsideTaken, Restorable;
    assert Completes(hash, j.files[i], i in flaky, SlotOf(before, j, i)) && Unobstructed(before, dirs, j, i);
  }

  lemma RestoreCalmEntry(hash: Hash, j: Journal, done: seq<nat>, i: nat, before: Files, was: Files, dirs: set<string>)
    requires AllRestorable(hash, j, before) && AllUnobstructed(was, dirs, j)
    requires RestoredSoFar(hash, j, done, before, was) && i < |j.files| && i !in done
    ensures Unobstructed(was, dirs, j, i) && Restorable(hash, j.files[i], SlotOf(was, j, i))
  {
    hide SlotOf, Restorable, Unobstructed;
  }

  /** Restoring one entry leaves no directory at another. */
  lemma EntryDirsStay(j: Journal, i: nat, was: set<string>, now: set<string>)
    requires i < |j.files| && forall n :: n in now && n !in was ==> n == j.files[i].path || Under(n, j.files[i].path)
    requires j.files[i].path in now && j.files[i].path !in was ==> j.files[i].originalDirectory
    ensures PrefixFree(j) && NoEntryDirs(j, was) ==> NoEntryDirs(j, now)
  {
    hide Under;
  }

  lemma AllStayUnobstructed(hash: Hash, j: Journal, i: nat, was: Files, wasDirs: set<string>, now: Files,
                            dirs: set<string>)
    requires PrefixFree(j) && Distinct(j) && i < |j.files| && AllUnobstructed(was, wasDirs, j)
    requires SameExcept(was, now, {Dest(j, i), Temp(j, Backup, i)})
    requires forall n :: n in dirs && n !in wasDirs ==> n == j.files[i].path || Under(n, j.files[i].path)
    requires j.files[i].path in dirs && j.files[i].path !in wasDirs ==> j.files[i].originalDirectory
    requires SlotOf(now, j, i) == ThirdPass(j.files[i], SlotOf(was, j, i))
    ensures AllUnobstructed(now, dirs, j)
  {
    assert Unobstructed(was, wasDirs, j, i);
    assert At(now, Temp(j, Backup, i)) == SlotOf(now, j, i).backup;
    forall k | 0 <= k < |j.files| ensures Unobstructed(now, dirs, j, k) {
      assert Unobstructed(was, wasDirs, j, k);
      StaysUnobstructed(j, i, k, was, wasDirs, now, dirs);
    }
  }

  /** No directory stands, or is to be created, at an entry's path. */
  ghost predicate NoEntryDirs(j: Journal, dirs: set<string>) {
    forall i :: 0 <= i < |j.files| ==> !j.files[i].originalDirectory && j.files[i].path !in dirs
  }

  /** Every slot is somewhere in its first pass. */
  ghost predicate Clearing(hash: Hash, j: Journal, flaky: set<nat>, before: Files, after: Files) {
    forall i :: 0 <= i < |j.files| ==>
        DuringFirst(hash, j.files[i], i in flaky, SlotOf(before, j, i), SlotOf(after, j, i))
  }

  /** Every slot is through its first pass. */
  ghost predicate Cleared(hash: Hash, j: Journal, flaky: set<nat>, before: Files, after: Files) {
    forall i :: 0 <= i < |j.files| ==>
      && !AsideTaken(hash, j.files[i], i in flaky, SlotOf(before, j, i))
      && SlotOf(after, j, i) == FirstPass(hash, j.files[i], i in flaky, SlotOf(before, j, i))
  }

  /** Every slot is somewhere in its third pass. */
  ghost predicate Restoring(hash: Hash, j: Journal, before: Files, after: Files) {
    forall i :: 0 <= i < |j.files| ==> DuringThird(hash, j.files[i], SlotOf(before, j, i), SlotOf(after, j, i))
  }

  /** Every slot is through its third pass. */
  ghost predicate Restored(hash: Hash, j: Journal, before: Files, after: Files) {
    forall i :: 0 <= i < |j.files| ==>
      && Restorable(hash, j.files[i], SlotOf(before, j, i))
      && SlotOf(after, j, i) == ThirdPass(j.files[i], SlotOf(before, j, i))
  }

  /** The first pass is over for the entries in `done` and has not begun for the others. */
  ghost predicate ClearedSoFar(hash: Hash, j: Journal, flaky: set<nat>, done: seq<nat>, before: Files, after: Files) {
    && Outside(j, before, after)
    && forall i :: 0 <= i < |j.files| ==>
         if i in done then
           && !AsideTaken(hash, j.files[i], i in flaky, SlotOf(before, j, i))
           && SlotOf(after, j, i) == FirstPass(hash, j.files[i], i in flaky, SlotOf(before, j, i))
         else SlotOf(after, j, i) == SlotOf(before, j, i)
  }

  ghost predicate RestoredSoFar(hash: Hash, j: Journal, done: seq<nat>, before: Files, after: Files) {
    && Outside(j, before, after)
    && forall i :: 0 <= i < |j.files| ==>
         if i in done then
           && Restorable(hash, j.files[i], SlotOf(before, j, i))
           && SlotOf(after, j, i) == ThirdPass(j.files[i], SlotOf(before, j, i))
         else SlotOf(after, j, i) == SlotOf(before, j, i)
  }

  /** Entry `i` is visited after the entries in `done`, and only its paths change. */
  ghost predicate Visited(j: Journal, done: seq<nat>, i: nat, was: Files, now: Files) {
    && Distinct(j) && i < |j.files| && i !in done
    && SameExcept(was, now, {Dest(j, i), Temp(j, Backup, i), Temp(j, Incoming, i), Temp(j, Aside, i)})
  }

  lemma ClearStep(hash: Hash, j: Journal, flaky: set<nat>, done: seq<nat>, i: nat, before: Files, was: Files,
                  now: Files)
    requires ClearedSoFar(hash, j, flaky, done, before, was) && Visited(j, done, i, was, now)
    ensures !AsideTaken(hash, j.files[i], i in flaky, SlotOf(was, j, i))
            && SlotOf(now, j, i) == FirstPass(hash, j.files[i], i in flaky, SlotOf(was, j, i)) ==>
              ClearedSoFar(hash, j, flaky, done + [i], before, now)
    ensures DuringFirst(hash, j.files[i], i in flaky, SlotOf(was, j, i), SlotOf(now, j, i)) ==>
              Outside(j, before, now) && Clearing(hash, j, flaky, before, now)
  {
    SlotFrame(j, i, was, now);
    hide SlotOf, AsideTaken, FirstPass;
  }

  lemma RestoreStep(hash: Hash, j: Journal, done: seq<nat>, i: nat, before: Files, was: Files, now: Files)
    requires RestoredSoFar(hash, j, done, before, was) && Visited(j, done, i, was, now)
    ensures Restorable(hash, j.files[i], SlotOf(was, j, i))
              && SlotOf(now, j, i) == ThirdPass(j.files[i], SlotOf(was, j, i)) ==>
              RestoredSoFar(hash, j, done + [i], before, now)
    ensures DuringThird(hash, j.files[i], SlotOf(was, j, i), SlotOf(now, j, i)) ==>
              Outside(j, before, now) && Restoring(hash, j, before, now)
  {
    SlotFrame(j, i, was, now);
    hide SlotOf, Restorable, ThirdPass;
  }

  lemma AllVisited(hash: Hash, j: Journal, flaky: set<nat>, order: seq<nat>, before: Files, after: Files)
    requires Visits(|j.files|, order)
    ensures ClearedSoFar(hash, j, flaky, order, before, after) ==>
              Outside(j, before, after) && Cleared(hash, j, flaky, before, after)
              && Clearing(hash, j, flaky, before, after)
    ensures RestoredSoFar(hash, j, order, before, after) ==>
              Outside(j, before, after) && Restored(hash, j, before, after) && Restoring(hash, j, before, after)
  {
    hide SlotOf, AsideTaken, FirstPass, Restorable, ThirdPass;
  }

  lemma NoneVisited(hash: Hash, j: Journal, flaky: set<nat>, files: Files)
    ensures ClearedSoFar(hash, j, flaky, [], files, files) && RestoredSoFar(hash, j, [], files, files)
  {
  }

  /** The prefix of an order grows by one entry not seen before. */
  lemma NextVisit(n: nat, order: seq<nat>, k: nat)
    requires Visits(n, order) && k < |order|
    ensures order[k] < n && order[k] !in order[..k] && order[..k + 1] == order[..k] + [order[k]]
  {
  }

  lemma ClearingIsUnderway(hash: Hash, j: Journal, flaky: set<nat>, before: Files, after: Files)
    requires Outside(j, before, after) && Clearing(hash, j, flaky, before, after)
    ensures Underway(hash, j, flaky, before, after)
  {
    hide DuringFirst, SlotOf;
  }

  /** The passes one after the other make up the rollback of every slot. */
  lemma PassesCompose(hash: Hash, j: Journal, flaky: set<nat>, before: Files, between: Files, after: Files)
    requires Outside(j, before, between) && Cleared(hash, j, flaky, before, between)
    requires Outside(j, between, after) && Restoring(hash, j, between, after)
    ensures Underway(hash, j, flaky, before, after)
    ensures Restored(hash, j, between, after) ==>
              AllComplete(hash, j, flaky, before) && RolledBack(hash, j, flaky, before, after)
  {
    hide DuringFirst, FirstPass, AsideTaken, DuringThird, ThirdPass, Restorable, SlotOf;
  }

  /** The first loop. */
  method ClearAll(disk: Disk, j: Journal, flaky: set<nat>, order: seq<nat>) returns (r: Step<()>)
    requires Distinct(j) && disk.Valid() && Visits(|j.files|, order)
    modifies disk`files, disk`dirs, disk`script
    ensures disk.Valid() && Outside(j, old(disk.files), disk.files) && disk.dirs <= old(disk.dirs)
    ensures Clearing(disk.hash, j, flaky, old(disk.files), disk.files)
    ensures r.Ok? ==> Cleared(disk.hash, j, flaky, old(disk.files), disk.files)
    ensures NoEntryDirs(j, old(disk.dirs)) ==> disk.dirs == old(disk.dirs)
    ensures old(Calm(disk, j, flaky)) ==> disk.Reliable() && disk.dirs == old(disk.dirs) && r.Ok?
  {
    hide Visits, ClearedSoFar, Clearing, Cleared, Outside, DuringFirst, FirstPass, AsideTaken, SlotOf, AllComplete,
           AllUnobstructed;
    ghost var files0, dirs0, calm := disk.files, disk.dirs, Calm(disk, j, flaky);
    NoneVisited(disk.hash, j, flaky, files0);
    for k := 0 to |order|
      invariant disk.Valid() && disk.dirs <= dirs0 && (NoEntryDirs(j, dirs0) ==> disk.dirs == dirs0)
      invariant ClearedSoFar(disk.hash, j, flaky, order[..k], files0, disk.files)
      invariant calm ==> disk.Reliable() && disk.dirs == dirs0
    {
      NextVisit(|j.files|, order, k);
      var i := order[k];
      ghost var was := disk.files;
      if calm { CalmEntry(disk.hash, j, flaky, order[..k], i, files0, dirs0, was); }
      r := ClearDestination(disk, j, i, i in flaky);
      ClearStep(disk.hash, j, flaky, order[..k], i, files0, was, disk.files);
      if !r.Ok? { return; }
    }
    assert order[..|order|] == order;
    AllVisited(disk.hash, j, flaky, order, files0, disk.files);
    r := Ok(());
  }

  /** An entry with approved files below its path that was no directory before. */
  predicate MustGo(j: Journal, i: nat)
    requires i < |j.files|
  {
    !j.files[i].originalDirectory && ApprovedDescendants(j, i)
  }

  /** The middle loop, which only removes directories. */
  method RemoveDirectories(disk: Disk, j: Journal, order: seq<nat>) returns (r: Step<()>)
    requires disk.Valid() && Visits(|j.files|, order)
    modifies disk`dirs, disk`script
    ensures disk.Valid() && disk.dirs <= old(disk.dirs)
    ensures NoEntryDirs(j, old(disk.dirs)) ==> disk.dirs == old(disk.dirs)
    ensures r.Ok? ==> forall i :: 0 <= i < |j.files| && MustGo(j, i) ==> j.files[i].path !in disk.dirs
    ensures forall n :: n in old(disk.dirs) && n !in disk.dirs ==>
              exists i :: 0 <= i < |j.files| && MustGo(j, i) && j.files[i].path == n
    ensures old(disk.Reliable()) && (forall i :: 0 <= i < |j.files| ==> j.files[i].path !in old(disk.dirs)) ==>
              disk.Reliable() && disk.dirs == old(disk.dirs) && r.Ok?
  {
    ghost var dirs0, calm := disk.dirs, disk.Reliable()
        && forall i :: 0 <= i < |j.files| ==> j.files[i].path !in disk.dirs;
    for k := |order| downto 0
      invariant disk.Valid() && disk.dirs <= dirs0 && (NoEntryDirs(j, dirs0) ==> disk.dirs == dirs0)
      invariant forall n :: k <= n < |order| && MustGo(j, order[n]) ==> j.files[order[n]].path !in disk.dirs
      invariant forall n :: n in dirs0 && n !in disk.dirs ==>
                  exists i :: 0 <= i < |j.files| && MustGo(j, i) && j.files[i].path == n
      invariant calm ==> disk.Reliable() && disk.dirs == dirs0
    {
      var jf := j.files[order[k]];
      if MustGo(j, order[k]) {
        var meta :- disk.Metadata(Tracked(jf.path));
        if meta == Some(Directory) {
          var removed :- disk.RemoveDir(jf.path);
          if !removed { return Err; }
        }
      }
    }
    forall i | 0 <= i < |j.files| && MustGo(j, i) ensures j.files[i].path !in disk.dirs {
      assert i in order;
    }
    r := Ok(());
  }

  /** The last loop. */
  method RestoreAll(disk: Disk, j: Journal, order: seq<nat>) returns (r: Step<()>)
    requires Distinct(j) && disk.Valid() && Visits(|j.files|, order)
    modifies disk`files, disk`dirs, disk`script
    ensures disk.Valid() && Outside(j, old(disk.files), disk.files)
    ensures Restoring(disk.hash, j, old(disk.files), disk.files)
    ensures r.Ok? ==> Restored(disk.hash, j, old(disk.files), disk.files)
    ensures PrefixFree(j) && NoEntryDirs(j, old(disk.dirs)) ==> NoEntryDirs(j, disk.dirs)
    ensures old(disk.dirs) <= disk.dirs
    ensures old(RestoreCalm(disk, j)) ==> disk.Reliable() && r.Ok?
  {
    hide Visits, RestoredSoFar, Restoring, Restored, Outside, DuringThird, ThirdPass, Restorable, SlotOf;
    hide AllUnobstructed, AllRestorable, NoEntryDirs, PrefixFree, Under;
    ghost var files0, dirs0, calm := disk.files, disk.dirs, RestoreCalm(disk, j);
    NoneVisited(disk.hash, j, {}, files0);
    for k := 0 to |order|
      invariant disk.Valid() && RestoredSoFar(disk.hash, j, order[..k], files0, disk.files) && dirs0 <= disk.dirs
      invariant PrefixFree(j) && NoEntryDirs(j, dirs0) ==> NoEntryDirs(j, disk.dirs)
      invariant calm ==> disk.Reliable() && AllUnobstructed(disk.files, disk.dirs, j)
    {
      NextVisit(|j.files|, order, k);
      var i := order[k];
      ghost var was, wasDirs := disk.files, disk.dirs;
      if calm { RestoreCalmEntry(disk.hash, j, order[..k], i, files0, was, wasDirs); }
      r := RestoreBackup(disk, j, i);
      RestoreStep(disk.hash, j, order[..k], i, files0, was, disk.files);
      EntryDirsStay(j, i, wasDirs, disk.dirs);
      if !r.Ok? { return; }
      if calm { AllStayUnobstructed(disk.hash, j, i, was, wasDirs, disk.files, disk.dirs); }
    }
    assert order[..|order|] == order;
    AllVisited(disk.hash, j, {}, order, files0, disk.files);
    r := Ok(());
  }

  lemma ClearedUnobstructed(hash: Hash, j: Journal, flaky: set<nat>, files: Files, files': Files, dirs: set<string>,
                            i: nat)
    requires PrefixFree(j) && i < |j.files| && Outside(j, files, files')
    requires AllComplete(hash, j, flaky, files) && Unobstructed(files, dirs, j, i)
    requires SlotOf(files', j, i) == FirstPass(hash, j.files[i], i in flaky, SlotOf(files, j, i))
    ensures Unobstructed(files', dirs, j, i) && Restorable(hash, j.files[i], SlotOf(files', j, i))
  {
    assert Completes(hash, j.files[i], i in flaky, SlotOf(files, j, i));
    assert SlotOf(files', j, i).backup == SlotOf(files, j, i).backup;
    forall n | Temp(j, Backup, i) in files' && Under(n, j.files[i].path) ensures Tracked(n) !in files' {
      assert !Owned(j, Tracked(n));
      assert At(files, Tracked(n)) == At(files', Tracked(n));
    }
  }

  lemma ClearedIsCalm(hash: Hash, j: Journal, flaky: set<nat>, before: Files, after: Files, dirs: set<string>)
    requires PrefixFree(j) && Outside(j, before, after) && AllComplete(hash, j, flaky, before)
    requires AllUnobstructed(before, dirs, j) && Cleared(hash, j, flaky, before, after)
    ensures AllUnobstructed(after, dirs, j) && AllRestorable(hash, j, after)
    ensures forall i :: 0 <= i < |j.files| ==> j.files[i].path !in dirs
  {
    hide AllComplete, Outside, FirstPass, Restorable, SlotOf;
    forall i | 0 <= i < |j.files|
      ensures j.files[i].path !in dirs && Unobstructed(after, dirs, j, i)
      ensures Restorable(hash, j.files[i], SlotOf(after, j, i))
    {
      assert Unobstructed(before, dirs, j, i);
      ClearedUnobstructed(hash, j, flaky, before, after, dirs, i);
    }
  }

  ghost predicate RestoreCalm(disk: Disk, j: Journal)
    reads disk`files, disk`dirs, disk`script
  {
    && disk.Reliable() && PrefixFree(j) && AllUnobstructed(disk.files, disk.dirs, j)
    && AllRestorable(disk.hash, j, disk.files)
  }

  /** `rollback_payload`.  `flaky` lists the entries whose destination cannot be
      hashed when the first loop compares it with its original. */
  method RollbackPayload(disk: Disk, j: Journal, flaky: set<nat>) returns (r: Step<()>)
    requires Distinct(j) && disk.Valid()
    modifies disk`files, disk`dirs, disk`journal, disk`marker, disk`script
    ensures disk.Valid()
    ensures Underway(disk.hash, j, flaky, old(disk.files), disk.files)
    ensures disk.journal == old(disk.journal) ||
            (disk.journal == None && AllComplete(disk.hash, j, flaky, old(disk.files))
             && RolledBack(disk.hash, j, flaky, old(disk.files), disk.files))
    ensures disk.marker == old(disk.marker) || (disk.journal == None && !disk.marker)
    ensures r.Ok? ==> disk.journal == None && !disk.marker
                      && AllComplete(disk.hash, j, flaky, old(disk.files))
                      && RolledBack(disk.hash, j, flaky, old(disk.files), disk.files)
    ensures PrefixFree(j) && NoEntryDirs(j, old(disk.dirs)) ==> NoEntryDirs(j, disk.dirs)
    ensures NoEntryDirs(j, old(disk.dirs)) ==> old(disk.dirs) <= disk.dirs
    ensures old(Calm(disk, j, flaky)) ==> disk.Reliable() && r.Ok?
  {
    hide Underway, AllComplete, RolledBack, Outside, Clearing, Cleared, Restoring, Restored, AllUnobstructed,
           AllRestorable;
    hide PrefixFree, Distinct, Visits;
    ghost var files0 := disk.files;
    var order := ByDepth(j);
    ghost var dirs0, calm := disk.dirs, Calm(disk, j, flaky);
    r := ClearAll(disk, j, flaky, order);
    ClearingIsUnderway(disk.hash, j, flaky, files0, disk.files);
    if !r.Ok? { return; }
    ghost var files1 := disk.files;
    if calm { ClearedIsCalm(disk.hash, j, flaky, files0, disk.files, dirs0); }
    var _ :- RemoveDirectories(disk, j, order);
    r := RestoreAll(disk, j, order);
    PassesCompose(disk.hash, j, flaky, files0, files1, disk.files);
    if !r.Ok? { return; }
    var _ :- disk.Call();
    var _ :- disk.RemoveJournal();
    r := disk.RemoveMarker();
  }

  /** Whatever stood at an entry's destination, backup or aside path before a
      rollback, and is not that entry's approved file, still stands at one of them. */
  lemma ForeignContentSurvives(hash: Hash, j: Journal, flaky: set<nat>, before: Files, after: Files, i: nat, p: Path)
    requires Underway(hash, j, flaky, before, after) && i < |j.files|
    requires p in {Dest(j, i), Temp(j, Backup, i), Temp(j, Aside, i)}
    requires p in before && !IsApproved(hash, j.files[i], before[p])
    ensures exists q :: q in {Dest(j, i), Temp(j, Backup, i), Temp(j, Aside, i)} && q in after
              && SamePrint(hash, after[q], before[p])
  {
    RollbackKeepsForeignContent(hash, j.files[i], i in flaky, SlotOf(before, j, i), SlotOf(after, j, i), before[p]);
  }
}
