/**
 The delivery protocol (crates/workflowd/src/candidate.rs:382-421, 496-770,
 875-990, 1002-1109): capturing and publishing the journal, staging, backing up,
 installing, committing, cleaning up and recovering, call by call.
 */
module Staging {
  import opened Wrappers
  import opened FileKinds
  import opened FileTree
  import opened RollbackSpec
  import opened Rollback
  import opened DeliverySpec
  import opened DeliveryConditions

  // ---- reading

  /** `verify_promoted_fs`. */
  method VerifyPromoted(disk: Disk, m: Manifest, payload: Payload) returns (r: Step<bool>)
    modifies disk`script
    ensures r.Ok? ==>
              (r.value <==> AllPromoted(disk.hash, m, payload, disk.files, disk.dirs))
    ensures old(disk.Reliable()) ==> disk.Reliable() && !r.Crash?
    ensures old(disk.Reliable()) && PayloadMatches(disk.hash, m, payload) ==> r.Ok?
  {
    for i := 0 to |m.files|
      invariant forall k :: 0 <= k < i ==> EntryPromoted(disk.hash, m, payload, disk.files, disk.dirs, k)
      invariant old(disk.Reliable()) ==> disk.Reliable()
    {
      var f := m.files[i];
      var meta :- disk.Metadata(Tracked(f.path));
      if f.kind.Deleted? {
        if meta == Some(Directory)
          && exists k :: 0 <= k < |m.files| && !m.files[k].kind.Deleted? && Under(f.path, m.files[k].path)
        {
        } else if meta.Some? {
          assert !EntryPromoted(disk.hash, m, payload, disk.files, disk.dirs, i);
          return Ok(false);
        }
      } else {
        if meta.None? || meta.value.Directory? {
          assert !EntryPromoted(disk.hash, m, payload, disk.files, disk.dirs, i);
          return Ok(false);
        }
        var _ :- disk.Call();
        if f.digest != Some(disk.hash(meta.value.file.content)) {
          assert !EntryPromoted(disk.hash, m, payload, disk.files, disk.dirs, i);
          return Ok(false);
        }
        if f.path !in payload { return Err; }
        var _ :- disk.Call();
        if meta.value.file.exec != payload[f.path].exec {
          assert !EntryPromoted(disk.hash, m, payload, disk.files, disk.dirs, i);
          return Ok(false);
        }
      }
    }
    r := Ok(true);
  }

  /** `validate_destination`, without symbolic links. */
  method ValidateDestination(disk: Disk, m: Manifest, p: string) returns (r: Step<()>)
    modifies disk`script
    ensures r.Ok? ==> PrefixesUsable(m, disk.files, disk.dirs, p)
    ensures old(disk.Reliable()) ==>
              disk.Reliable() && !r.Crash? && (PrefixesUsable(m, disk.files, disk.dirs, p) ==> r.Ok?)
    decreases |p|
  {
    var d := Parent(p);
    if d == "" || p == "" { return Ok(()); }
    var _ :- ValidateDestination(disk, m, d);
    var meta :- disk.Metadata(Tracked(d));
    if meta.Some? && meta.value.Regular?
        && !(exists k :: 0 <= k < |m.files| && m.files[k].path == d && m.files[k].kind.Deleted?) {
      return Err;
    }
    r := Ok(());
  }

  /** `validate_preimage`. */
  method ValidatePreimage(disk: Disk, m: Manifest, git: Answers) returns (r: Step<()>)
    modifies disk`script
    ensures r.Ok? ==> GitAgrees(disk.hash, m, git, disk.files, disk.dirs)
    ensures old(disk.Reliable()) ==>
              disk.Reliable() && !r.Crash? && (GitAgrees(disk.hash, m, git, disk.files, disk.dirs) ==> r.Ok?)
  {
    for i := 0 to |m.files|
      invariant forall k :: 0 <= k < i ==> BaseHolds(disk.hash, m, git, disk.files, disk.dirs, k)
      invariant old(disk.Reliable()) ==> disk.Reliable()
    {
      var f := m.files[i];
      var meta :- disk.Metadata(Tracked(f.path));
      if HasBase(f.kind) {
        var _ :- disk.Call();
        if f.path !in git.tree || meta.None? || meta.value.Directory? {
          assert !BaseHolds(disk.hash, m, git, disk.files, disk.dirs, i);
          return Err;
        }
        if !git.preimage(f.path, disk.hash(meta.value.file.content)) || meta.value.file.exec != git.tree[f.path] {
          assert !BaseHolds(disk.hash, m, git, disk.files, disk.dirs, i);
          return Err;
        }
      } else if meta.Some? && !(meta.value.Directory? && DeletedBelow(m, f.path)) {
        assert !BaseHolds(disk.hash, m, git, disk.files, disk.dirs, i);
        return Err;
      }
    }
    r := Ok(());
  }

  /** One journal line as `capture_journal` writes it. */
  predicate Recorded(disk: Disk, m: Manifest, git: Answers, i: nat, jf: JournalFile)
    requires i < |m.files|
    reads disk`files
  {
    var f := m.files[i];
    && jf.path == f.path && jf.approved == f.digest && jf.approvedExec == f.executable
    && (if HasBase(f.kind) then
          && Tracked(f.path) in disk.files && f.path in git.tree && !jf.originalDirectory
          && jf.original == Some(disk.hash(disk.files[Tracked(f.path)].content)) && jf.originalExec == git.tree[f.path]
        else jf.original == None && jf.originalDirectory == DeletedBelow(m, f.path))
  }

  lemma AgreesAt(hash: Hash, m: Manifest, git: Answers, files: Files, dirs: set<string>, i: nat)
    requires i < |m.files| && HasBase(m.files[i].kind)
    ensures GitAgrees(hash, m, git, files, dirs) ==>
              var p := m.files[i].path;
              p in git.tree && Tracked(p) in files && git.preimage(p, hash(files[Tracked(p)].content))
  {
    assert GitAgrees(hash, m, git, files, dirs) ==> BaseHolds(hash, m, git, files, dirs, i);
  }

  /** `capture_journal`. */
  method CaptureJournal(disk: Disk, m: Manifest, git: Answers) returns (r: Step<Journal>)
    modifies disk`script
    ensures r.Ok? ==> r.value.candidate == m.candidate && r.value.nonce == git.nonce && |r.value.files| == |m.files|
                      && forall i :: 0 <= i < |m.files| ==> Recorded(disk, m, git, i, r.value.files[i])
    ensures r.Ok? ==> NoFileAbove(m, disk.files, disk.dirs)
    ensures old(disk.Reliable()) ==>
              && disk.Reliable() && !r.Crash?
              && (NoFileAbove(m, disk.files, disk.dirs) && GitAgrees(disk.hash, m, git, disk.files, disk.dirs) ==>
                  r.Ok?)
  {
    hide PrefixesUsable, DeletedBelow, BaseHolds, GitAgrees;
    var _ :- disk.Call();
    var lines: seq<JournalFile> := [];
    for i := 0 to |m.files|
      invariant |lines| == i
      invariant forall k :: 0 <= k < i ==> Recorded(disk, m, git, k, lines[k])
      invariant forall k :: 0 <= k < i ==> PrefixesUsable(m, disk.files, disk.dirs, m.files[k].path)
      invariant old(disk.Reliable()) ==> disk.Reliable()
    {
      var f := m.files[i];
      var _ :- ValidateDestination(disk, m, f.path);
      var original, executable := None, false;
      if HasBase(f.kind) {
        var _ :- disk.Call();
        AgreesAt(disk.hash, m, git, disk.files, disk.dirs, i);
        if f.path !in git.tree || Tracked(f.path) !in disk.files { return Err; }
        var digest := disk.hash(disk.files[Tracked(f.path)].content);
        if !git.preimage(f.path, digest) { return Err; }
        original, executable := Some(digest), git.tree[f.path];
      }
      var directory := original.None? && DeletedBelow(m, f.path);
      lines := lines + [JournalFile(f.path, f.digest, f.executable, original, executable, directory)];
    }
    r := Ok(Journal(m.candidate, git.nonce, lines));
  }

  /** A journal captured from a validated tree describes the delivery from that tree. */
  lemma CapturedFromTree(disk: Disk, m: Manifest, payload: Payload, git: Answers, j: Journal)
    requires PrefixFreeManifest(m) && ValidNonce(git.nonce) && j.candidate == m.candidate && j.nonce == git.nonce
    requires |j.files| == |m.files|
    requires GitAgrees(disk.hash, m, git, disk.files, disk.dirs)
    requires forall i :: 0 <= i < |m.files| ==> Recorded(disk, m, git, i, j.files[i])
    requires forall kind, i :: Adjacent(m.candidate, git.nonce, kind, i) !in disk.files
    ensures Captured(disk.hash, Delivery(disk.files, m, payload), j)
    ensures forall i :: 0 <= i < |m.files| ==> m.files[i].path !in disk.dirs
  {
    forall i | 0 <= i < |m.files|
      ensures !DeletedBelow(m, m.files[i].path) && BaseHolds(disk.hash, m, git, disk.files, disk.dirs, i)
    {
    }
  }

  // ---- the staged delivery

  /** The journal is published, nothing is committed, and the tree can be rolled back. */
  ghost predicate Live(disk: Disk, d: Delivery, j: Journal)
    reads disk`files, disk`dirs, disk`journal, disk`marker
  {
    && disk.Valid() && ValidDelivery(disk.hash, d) && Captured(disk.hash, d, j)
    && disk.journal == Some(j) && !disk.marker
    && Pending(d, j, disk.files)
    && forall i :: 0 <= i < |j.files| ==> j.files[i].path !in disk.dirs
  }

  ghost predicate EverySlot(d: Delivery, j: Journal, files: Files, want: (Option<File>, Option<File>) -> Slot)
    requires |j.files| == |d.manifest.files|
  {
    forall i :: 0 <= i < |j.files| ==> SlotOf(files, j, i) == want(Origin(d, i), Approved(d, i))
  }

  /** The stages a slot goes through, given its original and its approved file. */
  function Untouched(o: Option<File>, a: Option<File>): Slot { Slot(o, None, None, None) }
  function Staged(o: Option<File>, a: Option<File>): Slot { Slot(o, None, a, None) }
  function BackedUp(o: Option<File>, a: Option<File>): Slot { Slot(None, o, a, None) }
  function Installed(o: Option<File>, a: Option<File>): Slot { Slot(a, o, None, None) }

  /** A change inside one slot that keeps the slot pending keeps everything pending. */
  lemma PendingFrame(d: Delivery, j: Journal, i: nat, before: Files, after: Files)
    requires Distinct(j) && |j.files| == |d.manifest.files| && i < |j.files|
    requires Pending(d, j, before) && SlotPending(Origin(d, i), Approved(d, i), SlotOf(after, j, i))
    requires SameExcept(before, after, {Dest(j, i), Temp(j, Backup, i), Temp(j, Incoming, i), Temp(j, Aside, i)})
    ensures Pending(d, j, after)
  {
    SlotFrame(j, i, before, after);
  }

  lemma CapturedShape(hash: Hash, d: Delivery, j: Journal)
    requires ValidDelivery(hash, d) && Captured(hash, d, j)
    ensures Distinct(j) && |j.files| == |d.manifest.files|
    ensures forall i :: 0 <= i < |j.files| ==> j.files[i].path == d.manifest.files[i].path
    ensures forall i :: 0 <= i < |j.files| ==> (Approved(d, i).None? <==> d.manifest.files[i].kind.Deleted?)
    ensures forall i, k :: 0 <= i < |j.files| && 0 <= k < |j.files| ==> !Under(j.files[i].path, j.files[k].path)
  {
  }

  /** Writing an incoming file beside an untouched entry leaves it pending. */
  lemma IncomingOnly(d: Delivery, j: Journal, i: nat, before: Files, after: Files)
    requires Distinct(j) && |j.files| == |d.manifest.files| && i < |j.files| && Pending(d, j, before)
    requires SlotOf(before, j, i) == Untouched(Origin(d, i), Approved(d, i))
    requires SameExcept(before, after, {Temp(j, Incoming, i)})
    ensures Pending(d, j, after)
    ensures At(after, Temp(j, Incoming, i)) == Approved(d, i) ==>
              SlotOf(after, j, i) == Staged(Origin(d, i), Approved(d, i))
  {
    assert SlotOf(after, j, i) == SlotOf(before, j, i).(incoming := At(after, Temp(j, Incoming, i)));
    PendingFrame(d, j, i, before, after);
  }

  lemma NothingTouched(files: Files)
    ensures forall touched :: SameExcept(files, files, touched)
  {
  }

  /** One write to an incoming file; `before` are the files from before the entry was staged. */
  method WriteIncoming(disk: Disk, j: Journal, i: nat, file: File, create: bool, ghost d: Delivery, ghost before: Files)
    returns (r: Step<()>)
    requires Live(disk, d, j) && i < |j.files| && Pending(d, j, before)
    requires SlotOf(before, j, i) == Untouched(Origin(d, i), Approved(d, i))
    requires SameExcept(before, disk.files, {Temp(j, Incoming, i)})
    modifies disk`files, disk`script
    ensures Live(disk, d, j) && SameExcept(before, disk.files, {Temp(j, Incoming, i)})
    ensures r.Ok? ==> At(disk.files, Temp(j, Incoming, i)) == Some(file)
    ensures old(disk.Reliable()) ==>
              disk.Reliable() && !r.Crash? && (create == old(Temp(j, Incoming, i) !in disk.files) ==> r.Ok?)
  {
    hide Captured, ValidDelivery, Pending, SlotOf, Approved;
    CapturedShape(disk.hash, d, j);
    r := disk.Write(Temp(j, Incoming, i), file, create);
    IncomingOnly(d, j, i, before, disk.files);
  }

  lemma IncomingFree(d: Delivery, j: Journal, i: nat, files: Files)
    requires |j.files| == |d.manifest.files| && i < |j.files|
    requires SlotOf(files, j, i) == Untouched(Origin(d, i), Approved(d, i))
    ensures Temp(j, Incoming, i) !in files
  {
    assert SlotOf(files, j, i).incoming == At(files, Temp(j, Incoming, i));
  }

  /** The body of the staging loop for an entry with a payload. */
  method StageOne(disk: Disk, j: Journal, i: nat, file: File, ghost d: Delivery) returns (r: Step<()>)
    requires Live(disk, d, j) && i < |j.files| && Approved(d, i) == Some(file)
    requires SlotOf(disk.files, j, i) == Untouched(Origin(d, i), Approved(d, i))
    modifies disk`files, disk`script
    ensures Live(disk, d, j)
    ensures SameExcept(old(disk.files), disk.files, {Temp(j, Incoming, i)})
    ensures r.Ok? ==> SlotOf(disk.files, j, i) == Staged(Origin(d, i), Approved(d, i))
    ensures old(disk.Reliable()) ==> disk.Reliable() && r.Ok?
  {
    hide Captured, ValidDelivery, Pending, SlotOf, Approved, SameExcept;
    ghost var files0 := disk.files;
    NothingTouched(files0);
    CapturedShape(disk.hash, d, j);
    IncomingFree(d, j, i, files0);
    var _ :- WriteIncoming(disk, j, i, File([], false), true, d, files0);
    var _ :- WriteIncoming(disk, j, i, File(file.content, false), false, d, files0);
    var _ :- disk.Call();
    var _ :- WriteIncoming(disk, j, i, file, false, d, files0);
    IncomingOnly(d, j, i, files0, disk.files);
    r := disk.Call();
  }

  /** What stands above an entry is not touched by a delivery. */
  lemma PrefixesStay(hash: Hash, d: Delivery, j: Journal, files: Files, dirs: set<string>, i: nat)
    requires ValidDelivery(hash, d) && Captured(hash, d, j) && Pending(d, j, files) && i < |j.files|
    ensures PrefixesUsable(d.manifest, files, dirs, d.manifest.files[i].path)
            == PrefixesUsable(d.manifest, d.origin, dirs, d.manifest.files[i].path)
  {
    AboveIsOutside(hash, d, j, files, i);
    UsableElsewhere(d.manifest, d.origin, files, dirs, d.manifest.files[i].path);
  }

  lemma AboveIsOutside(hash: Hash, d: Delivery, j: Journal, files: Files, i: nat)
    requires ValidDelivery(hash, d) && Captured(hash, d, j) && Pending(d, j, files) && i < |j.files|
    ensures forall n :: Under(n, d.manifest.files[i].path) ==>
              At(d.origin, Tracked(n)) == At(files, Tracked(n))
              && forall k :: 0 <= k < |d.manifest.files| ==> d.manifest.files[k].path != n
  {
    CapturedShape(hash, d, j);
    hide Captured, PayloadMatches, NoCollision, TreeShaped, Under;
    forall n | Under(n, d.manifest.files[i].path)
      ensures At(d.origin, Tracked(n)) == At(files, Tracked(n))
                && forall k :: 0 <= k < |d.manifest.files| ==> d.manifest.files[k].path != n {
      assert !Owned(j, Tracked(n));
    }
  }

  /** The staging loop, whose errors leave the journal for the next recovery. */
  method StageAll(disk: Disk, m: Manifest, payload: Payload, j: Journal, ghost d: Delivery) returns (r: Step<()>)
    requires Live(disk, d, j) && d.manifest == m && d.payload == payload
    requires EverySlot(d, j, disk.files, Untouched)
    modifies disk`files, disk`script
    ensures Live(disk, d, j)
    ensures r.Ok? ==> EverySlot(d, j, disk.files, Staged) && NoFileAbove(m, d.origin, disk.dirs)
    ensures old(disk.Reliable()) ==> disk.Reliable() && !r.Crash? && (NoFileAbove(m, d.origin, disk.dirs) ==> r.Ok?)
  {
    hide Pending, PrefixesUsable, ValidDelivery, Captured;
    CapturedShape(disk.hash, d, j);
    for i := 0 to |m.files|
      invariant Live(disk, d, j)
      invariant forall k :: 0 <= k < |m.files| ==>
        SlotOf(disk.files, j, k) == if k < i then Staged(Origin(d, k), Approved(d, k))
            else Untouched(Origin(d, k), Approved(d, k))
      invariant forall k :: 0 <= k < i ==> PrefixesUsable(m, d.origin, disk.dirs, m.files[k].path)
      invariant old(disk.Reliable()) ==> disk.Reliable()
    {
      var f := m.files[i];
      PrefixesStay(disk.hash, d, j, disk.files, disk.dirs, i);
      var _ :- ValidateDestination(disk, m, f.path);
      if f.path in payload {
        ghost var was := disk.files;
        r := StageOne(disk, j, i, payload[f.path], d);
        SlotFrame(j, i, was, disk.files);
        if !r.Ok? { return; }
      }
    }
    r := Ok(());
  }

  /** A file, if any, is the original and its backup name is free. */
  predicate BackupGoes(hash: Hash, jf: JournalFile, s: Slot) {
    s.dest.Some? ==> s.backup.None? && Original(hash, jf, s.dest.value)
  }

  /** Renames a file to its backup, and back if it turns out not to be the original. */
  method MoveToBackup(disk: Disk, j: Journal, i: nat) returns (r: Step<()>)
    requires disk.Valid() && i < |j.files| && Dest(j, i) in disk.files
    modifies disk`files, disk`script
    ensures disk.Valid()
    ensures SameExcept(old(disk.files), disk.files, {Dest(j, i), Temp(j, Backup, i)})
    ensures var s, t := SlotOf(old(disk.files), j, i), SlotOf(disk.files, j, i);
            t == s || (s.backup.None? && t == s.(dest := None, backup := s.dest))
    ensures r.Ok? ==> var s, t := SlotOf(old(disk.files), j, i), SlotOf(disk.files, j, i);
                      t == s.(dest := None, backup := s.dest)
    ensures r.Ok? ==> Original(disk.hash, j.files[i], old(disk.files)[Dest(j, i)])
    ensures old(disk.Reliable()) ==>
              disk.Reliable() && !r.Crash?
              && (BackupGoes(disk.hash, j.files[i], SlotOf(old(disk.files), j, i)) ==> r.Ok?)
  {
    hide Original;
    var dest, backup := Dest(j, i), Temp(j, Backup, i);
    var taken :- disk.Metadata(backup);
    if taken.Some? { return Err; }
    var _ :- disk.Rename(dest, backup);
    var v := disk.Next();
    var intact :- SnapshotMatches(disk, backup, j.files[i], v == Fail);
    if !intact {
      var again :- disk.Metadata(dest);
      if again.None? {
        var _ :- disk.Rename(backup, dest);
      }
      return Err;
    }
    r := disk.Call();
  }

  /** The body of the backup loop. */
  method BackUpOne(disk: Disk, j: Journal, i: nat) returns (r: Step<()>)
    requires disk.Valid() && i < |j.files|
    modifies disk`files, disk`dirs, disk`script
    ensures disk.Valid() && disk.dirs <= old(disk.dirs)
    ensures SameExcept(old(disk.files), disk.files, {Dest(j, i), Temp(j, Backup, i)})
    ensures var s, t := SlotOf(old(disk.files), j, i), SlotOf(disk.files, j, i);
            t == s || (s.backup.None? && t == s.(dest := None, backup := s.dest))
    ensures r.Ok? ==> var s, t := SlotOf(old(disk.files), j, i), SlotOf(disk.files, j, i);
                      t == if s.dest.Some? then s.(dest := None, backup := s.dest) else s
    ensures j.files[i].path !in old(disk.dirs) ==> disk.dirs == old(disk.dirs)
    ensures r.Ok? ==> j.files[i].path !in disk.dirs
    ensures r.Ok? && SlotOf(old(disk.files), j, i).dest.Some? && j.files[i].path !in old(disk.dirs) ==>
              Original(disk.hash, j.files[i], SlotOf(old(disk.files), j, i).dest.value)
    ensures old(disk.Reliable()) ==> disk.Reliable() && !r.Crash?
    ensures old(disk.Reliable()) && j.files[i].path !in old(disk.dirs) ==>
              BackupGoes(disk.hash, j.files[i], SlotOf(old(disk.files), j, i)) ==> r.Ok?
  {
    hide Original;
    var jf := j.files[i];
    var meta :- disk.Metadata(Dest(j, i));
    match meta {
      case Some(Regular(_)) =>
        r := MoveToBackup(disk, j, i);
      case Some(Directory) =>
        if !jf.originalDirectory { return Err; }
        var removed :- disk.RemoveDir(jf.path);
        if !removed { return Err; }
        r := disk.Call();
      case None =>
        r := Ok(());
    }
  }

  /** The entries in `done` are backed up, the others still staged. */
  ghost predicate BackedUpSoFar(d: Delivery, j: Journal, done: seq<nat>, files: Files)
    requires |j.files| == |d.manifest.files|
  {
    forall i :: 0 <= i < |j.files| ==>
      SlotOf(files, j, i) == if i in done then BackedUp(Origin(d, i), Approved(d, i))
          else Staged(Origin(d, i), Approved(d, i))
  }

  lemma NoneBackedUp(d: Delivery, j: Journal, files: Files)
    requires |j.files| == |d.manifest.files| && EverySlot(d, j, files, Staged)
    ensures forall order: seq<nat> :: BackedUpSoFar(d, j, order[|order|..], files)
  {
    hide SlotOf;
  }

  lemma BackUpStep(d: Delivery, j: Journal, done: seq<nat>, i: nat, was: Files, now: Files)
    requires Distinct(j) && |j.files| == |d.manifest.files| && i < |j.files| && i !in done
    requires Pending(d, j, was) && BackedUpSoFar(d, j, done, was)
    requires SameExcept(was, now, {Dest(j, i), Temp(j, Backup, i)})
    requires var s, t := SlotOf(was, j, i), SlotOf(now, j, i);
              t == s || (s.backup.None? && t == s.(dest := None, backup := s.dest))
    ensures Pending(d, j, now)
    ensures (var s, t := SlotOf(was, j, i), SlotOf(now, j, i);
              t == if s.dest.Some? then s.(dest := None, backup := s.dest) else s) ==>
              BackedUpSoFar(d, j, [i] + done, now)
  {
    hide SlotOf, Pending;
    assert SlotOf(was, j, i) == Staged(Origin(d, i), Approved(d, i));
    PendingFrame(d, j, i, was, now);
    SlotFrame(j, i, was, now);
  }

  lemma AllBackedUp(d: Delivery, j: Journal, order: seq<nat>, files: Files)
    requires |j.files| == |d.manifest.files| && Visits(|j.files|, order) && BackedUpSoFar(d, j, order[0..], files)
    ensures EverySlot(d, j, files, BackedUp)
  {
    hide SlotOf;
    assert order[0..] == order;
  }

  /** The suffix of an order grows by one entry not seen before. */
  lemma LastVisit(n: nat, order: seq<nat>, k: nat)
    requires Visits(n, order) && k < |order|
    ensures order[k] < n && order[k] !in order[k + 1..] && order[k..] == [order[k]] + order[k + 1..]
  {
  }

  /** What a staged entry has at its destination is the original its journal line records. */
  lemma OriginalGoes(hash: Hash, d: Delivery, j: Journal, done: seq<nat>, i: nat, files: Files)
    requires Captured(hash, d, j) && BackedUpSoFar(d, j, done, files) && i < |j.files| && i !in done
    ensures BackupGoes(hash, j.files[i], SlotOf(files, j, i))
  {
    hide SlotOf;
  }

  /** The backup loop, deepest paths first. */
  method BackUpAll(disk: Disk, m: Manifest, j: Journal, ghost d: Delivery) returns (r: Step<()>)
    requires Live(disk, d, j) && d.manifest == m
    requires EverySlot(d, j, disk.files, Staged)
    modifies disk`files, disk`dirs, disk`script
    ensures Live(disk, d, j) && disk.dirs == old(disk.dirs)
    ensures r.Ok? ==> EverySlot(d, j, disk.files, BackedUp)
    ensures old(disk.Reliable()) ==> disk.Reliable() && !r.Crash? && (NoFileAbove(m, d.origin, disk.dirs) ==> r.Ok?)
  {
    hide Pending, ValidDelivery, Captured, PrefixesUsable, Visits, BackedUpSoFar, SlotOf;
    CapturedShape(disk.hash, d, j);
    var order := ByDepth(j);
    NoneBackedUp(d, j, disk.files);
    for k := |order| downto 0
      invariant Live(disk, d, j) && BackedUpSoFar(d, j, order[k..], disk.files) && disk.dirs == old(disk.dirs)
      invariant old(disk.Reliable()) ==> disk.Reliable()
    {
      LastVisit(|j.files|, order, k);
      var i := order[k];
      PrefixesStay(disk.hash, d, j, disk.files, disk.dirs, i);
      OriginalGoes(disk.hash, d, j, order[k + 1..], i, disk.files);
      var _ :- ValidateDestination(disk, m, m.files[i].path);
      ghost var was := disk.files;
      r := BackUpOne(disk, j, i);
      BackUpStep(d, j, order[k + 1..], i, was, disk.files);
      if !r.Ok? { return; }
    }
    AllBackedUp(d, j, order, disk.files);
    r := Ok(());
  }

  /** The directories on disk once the parents of the files before entry `i` are there. */
  ghost predicate ParentsStand(m: Manifest, before: set<string>, now: set<string>, i: nat) {
    forall n :: n != "" ==> (n in now <==> Stands(m, before, i, n))
  }

  /** And, of those above entry `i`, the ones that are not at or above `at`. */
  ghost predicate PartlyStand(m: Manifest, before: set<string>, now: set<string>, i: nat, at: string)
    requires i < |m.files|
  {
    forall n :: n != "" ==> (n in now <==> Stands(m, before, i, n) || Passed(m.files[i].path, at, n))
  }

  /** `n` is above `p`, but neither at nor above `at`. */
  predicate Passed(p: string, at: string, n: string) {
    Under(n, p) && n != at && !Under(n, at)
  }

  ghost predicate InOrderSoFar(m: Manifest, before: set<string>, i: nat, at: string)
    requires i < |m.files|
  {
    forall n :: n != "" && Passed(m.files[i].path, at, n) ==> ParentInOrder(m, before, i, n)
  }

  ghost predicate AllParents(m: Manifest, dirs: set<string>) {
    forall i: nat :: Kept(m, i) ==> Parent(m.files[i].path) == "" || Parent(m.files[i].path) in dirs
  }

  lemma PassedNone(p: string, n: string)
    requires n != ""
    ensures !Passed(p, Parent(p), n) && (Passed(p, "", n) <==> Under(n, p))
  {
    if Under(n, p) { NearestAbove(n, p); }
  }

  lemma PassedNext(p: string, at: string, n: string)
    requires at != "" && n != "" && Under(at, p)
    ensures Passed(p, Parent(at), n) <==> Passed(p, at, n) || n == at
  {
    if Under(n, at) { NearestAbove(n, at); }
    if Under(n, Parent(at)) && Parent(at) != "" { UnderTransitive(n, Parent(at), at); }
  }

  lemma ParentsBegin(m: Manifest, before: set<string>, now: set<string>, i: nat)
    requires Kept(m, i) && ParentsStand(m, before, now, i)
    ensures PartlyStand(m, before, now, i, Parent(m.files[i].path))
    ensures InOrderSoFar(m, before, i, Parent(m.files[i].path))
  {
    hide Stands, Under, Passed, ParentInOrder;
    forall n | n != "" ensures !Passed(m.files[i].path, Parent(m.files[i].path), n) {
      PassedNone(m.files[i].path, n);
    }
  }

  lemma ParentsEnd(m: Manifest, before: set<string>, now: set<string>, i: nat)
    requires Kept(m, i) && PartlyStand(m, before, now, i, "") && InOrderSoFar(m, before, i, "")
    ensures ParentsStand(m, before, now, i + 1) && InOrderOf(m, before, i)
    ensures Parent(m.files[i].path) == "" || Parent(m.files[i].path) in now
  {
    hide Under, Passed, ParentInOrder;
    forall n | n != "" ensures Passed(m.files[i].path, "", n) <==> Under(n, m.files[i].path) {
      PassedNone(m.files[i].path, n);
    }
  }

  /** The turn of `at`: it stands or its parent does exactly when it can be there afterwards. */
  lemma ParentTurn(m: Manifest, before: set<string>, now: set<string>, i: nat, at: string)
    requires i < |m.files| && PartlyStand(m, before, now, i, at) && at != "" && Under(at, m.files[i].path)
    ensures ParentInOrder(m, before, i, at) <==> at in now || Parent(at) == "" || Parent(at) in now
    ensures PartlyStand(m, before, now + {at}, i, Parent(at))
    ensures InOrderSoFar(m, before, i, at) && ParentInOrder(m, before, i, at) ==> InOrderSoFar(m, before, i, Parent(at))
  {
    var p := m.files[i].path;
    assert !Passed(p, at, at);
    if Parent(at) != "" { assert Under(Parent(at), at) && !Passed(p, at, Parent(at)); }
    hide Stands, Under, Passed, PrefixesUsable;
    forall n | n != "" ensures Passed(p, Parent(at), n) <==> Passed(p, at, n) || n == at {
      PassedNext(p, at, n);
    }
  }

  lemma DeletedNeedsNone(m: Manifest, before: set<string>, now: set<string>, i: nat)
    requires i < |m.files| && m.files[i].kind.Deleted? && ParentsStand(m, before, now, i)
    ensures ParentsStand(m, before, now, i + 1)
  {
    hide Under;
    forall n ensures Stands(m, before, i + 1, n) == Stands(m, before, i, n) {
    }
  }

  /** No file stands above an entry of a live delivery, and no entry does. */
  lemma AboveIsFree(hash: Hash, d: Delivery, j: Journal, files: Files, dirs: set<string>, i: nat, n: string)
    requires ValidDelivery(hash, d) && Captured(hash, d, j) && Pending(d, j, files) && i < |j.files|
    requires NoFileAbove(d.manifest, d.origin, dirs) && Under(n, d.manifest.files[i].path) && n != ""
    requires forall name :: name in dirs ==> Tracked(name) !in d.origin
    ensures Tracked(n) !in files && forall k :: 0 <= k < |d.manifest.files| ==> d.manifest.files[k].path != n
  {
    AboveIsOutside(hash, d, j, files, i);
    hide ValidDelivery, Captured, Pending, PrefixesUsable, Under;
    UsableIsFree(d.manifest, d.origin, dirs, d.manifest.files[i].path, n);
    assert At(d.origin, Tracked(n)) == At(files, Tracked(n));
  }

  /** The parents of one file. `before` are the directories from before the loop. */
  method CreateParentsOf(disk: Disk, m: Manifest, j: Journal, i: nat, ghost before: set<string>, ghost d: Delivery)
    returns (r: Step<()>)
    requires Live(disk, d, j) && d.manifest == m && Kept(m, i)
    requires Clear(d, before) ==> ParentsStand(m, before, disk.dirs, i)
    modifies disk`dirs, disk`script
    ensures Live(disk, d, j) && old(disk.dirs) <= disk.dirs
    ensures Clear(d, before) && r.Ok? ==>
              && ParentsStand(m, before, disk.dirs, i + 1) && InOrderOf(m, before, i)
              && (Parent(m.files[i].path) == "" || Parent(m.files[i].path) in disk.dirs)
    ensures old(disk.Reliable()) ==>
              disk.Reliable() && !r.Crash? && (Clear(d, before) && InOrderOf(m, before, i) ==> r.Ok?)
  {
    hide Pending, ValidDelivery, Captured, NoFileAbove, Clear, ParentsStand, PartlyStand, InOrderSoFar, ParentInOrder,
           Under;
    ghost var clear := Clear(d, before);
    var directory := Parent(m.files[i].path);
    if clear { ParentsBegin(m, before, disk.dirs, i); }
    CapturedShape(disk.hash, d, j);
    while directory != ""
      invariant directory != "" ==> Under(directory, m.files[i].path)
      invariant Live(disk, d, j) && old(disk.dirs) <= disk.dirs && (old(disk.Reliable()) ==> disk.Reliable())
      invariant clear ==> PartlyStand(m, before, disk.dirs, i, directory) && InOrderSoFar(m, before, i, directory)
      decreases |directory|
    {
      if clear {
        ClearMeans(d, before);
        AboveIsFree(disk.hash, d, j, disk.files, before, i, directory);
        ParentTurn(m, before, disk.dirs, i, directory);
      }
      if !exists k :: 0 <= k < |m.files| && m.files[k].kind.Deleted? && m.files[k].path == directory {
        var meta :- disk.Metadata(Tracked(directory));
        if meta.None? {
          ghost var was := disk.dirs;
          r := disk.CreateDir(directory);
          ParentsAreNotEntries(d, j, i, was, disk.dirs);
          if !r.Ok? { return; }
        } else if clear {
          assert disk.dirs + {directory} == disk.dirs;
        }
      }
      if Parent(directory) != "" { UnderTransitive(Parent(directory), directory, m.files[i].path); }
      directory := Parent(directory);
    }
    if clear { ParentsEnd(m, before, disk.dirs, i); }
    r := Ok(());
  }

  /** No file stands above an entry, and no directory at a file's path. */
  ghost predicate Clear(d: Delivery, dirs: set<string>) {
    NoFileAbove(d.manifest, d.origin, dirs) && forall name :: name in dirs ==> Tracked(name) !in d.origin
  }

  lemma ClearMeans(d: Delivery, dirs: set<string>)
    requires Clear(d, dirs)
    ensures NoFileAbove(d.manifest, d.origin, dirs) && forall name :: name in dirs ==> Tracked(name) !in d.origin
  {
  }

  /** The directories of a live delivery are at no path of the original files. */
  lemma LiveIsClear(disk: Disk, d: Delivery, j: Journal)
    requires Live(disk, d, j)
    ensures NoFileAbove(d.manifest, d.origin, disk.dirs) ==> Clear(d, disk.dirs)
  {
    hide ValidDelivery;
    forall name | name in disk.dirs ensures Tracked(name) !in d.origin {
      assert !Owned(j, Tracked(name));
      assert At(d.origin, Tracked(name)) == At(disk.files, Tracked(name));
    }
  }

  /** The parent-directory loop: each missing parent, the deepest first. */
  method CreateParents(disk: Disk, m: Manifest, j: Journal, ghost d: Delivery) returns (r: Step<()>)
    requires Live(disk, d, j) && d.manifest == m
    modifies disk`dirs, disk`script
    ensures Live(disk, d, j) && old(disk.dirs) <= disk.dirs
    ensures NoFileAbove(m, d.origin, old(disk.dirs)) && r.Ok? ==>
              ParentsInOrder(m, old(disk.dirs)) && AllParents(m, disk.dirs)
    ensures old(disk.Reliable()) ==>
              && disk.Reliable() && !r.Crash?
              && (NoFileAbove(m, d.origin, old(disk.dirs)) && ParentsInOrder(m, old(disk.dirs)) ==> r.Ok?)
  {
    hide Pending, ValidDelivery, Captured, NoFileAbove, Clear, ParentsStand, InOrderOf, PrefixesUsable;
    ghost var dirs0, clear := disk.dirs, Clear(d, disk.dirs);
    LiveIsClear(disk, d, j);
    NoneYet(m, dirs0);
    for i := 0 to |m.files|
      invariant Live(disk, d, j) && dirs0 <= disk.dirs && (old(disk.Reliable()) ==> disk.Reliable())
      invariant clear ==> ParentsStand(m, dirs0, disk.dirs, i)
      invariant clear ==> forall k: nat :: k < i && Kept(m, k) ==>
                  InOrderOf(m, dirs0, k) && (Parent(m.files[k].path) == "" || Parent(m.files[k].path) in disk.dirs)
    {
      if !m.files[i].kind.Deleted? {
        r := CreateParentsOf(disk, m, j, i, dirs0, d);
        if !r.Ok? { return; }
      } else if clear {
        DeletedNeedsNone(m, dirs0, disk.dirs, i);
      }
    }
    r := Ok(());
  }

  lemma NoneYet(m: Manifest, dirs: set<string>)
    ensures ParentsStand(m, dirs, dirs, 0)
  {
  }

  /** Directories above one manifest path are at no manifest path. */
  lemma ParentsAreNotEntries(d: Delivery, j: Journal, i: nat, before: set<string>, after: set<string>)
    requires PrefixFreeManifest(d.manifest) && |j.files| == |d.manifest.files| && i < |j.files|
    requires forall k :: 0 <= k < |j.files| ==>
              j.files[k].path == d.manifest.files[k].path && j.files[k].path !in before
    requires forall n :: n in after && n !in before ==> Under(n, j.files[i].path)
    ensures forall k :: 0 <= k < |j.files| ==> j.files[k].path !in after
  {
  }

  /** The directory is there, nothing stands above or at the destination, and the file is staged. */
  predicate InstallGoes(m: Manifest, j: Journal, i: nat, files: Files, dirs: set<string>)
    requires i < |j.files|
  {
    var p := j.files[i].path;
    && (Parent(p) == "" || Parent(p) in dirs) && PrefixesUsable(m, files, dirs, p) && p !in dirs
    && SlotOf(files, j, i).dest.None? && SlotOf(files, j, i).incoming.Some?
  }

  /** The body of the install loop. */
  method InstallOne(disk: Disk, m: Manifest, j: Journal, i: nat) returns (r: Step<()>)
    requires disk.Valid() && i < |j.files| && i < |m.files|
    modifies disk`files, disk`dirs, disk`script
    ensures disk.Valid()
    ensures forall n :: n in disk.dirs && n !in old(disk.dirs) ==> Under(n, j.files[i].path)
    ensures SameExcept(old(disk.files), disk.files, {Dest(j, i), Temp(j, Incoming, i)})
    ensures var s, t := SlotOf(old(disk.files), j, i), SlotOf(disk.files, j, i);
            t == s
            || (s.dest.None? && s.incoming.Some?
                && (t == s.(dest := s.incoming) || t == s.(dest := s.incoming, incoming := None)))
    ensures r.Ok? ==> var s, t := SlotOf(old(disk.files), j, i), SlotOf(disk.files, j, i);
                      t == s.(dest := s.incoming, incoming := None)
    ensures old(disk.dirs) <= disk.dirs
    ensures Parent(j.files[i].path) == "" || Parent(j.files[i].path) in old(disk.dirs) ==>
              disk.dirs == old(disk.dirs)
    ensures old(disk.Reliable()) ==> disk.Reliable() && !r.Crash?
    ensures old(disk.Reliable()) && InstallGoes(m, j, i, old(disk.files), old(disk.dirs)) ==> r.Ok?
  {
    var parent := Parent(j.files[i].path);
    forall n | parent != "" && (n == parent || Under(n, parent)) ensures Under(n, j.files[i].path) {
      if n != parent { UnderTransitive(n, parent, j.files[i].path); }
    }
    var _ :- disk.CreateDirAll(parent);
    var _ :- ValidateDestination(disk, m, j.files[i].path);
    var _ :- disk.Link(Temp(j, Incoming, i), Dest(j, i));
    var _ :- disk.RemoveFile(Temp(j, Incoming, i));
    r := disk.Call();
  }

  /** What one installation leaves behind is pending, and the other slots are as before. */
  lemma InstallStep(d: Delivery, j: Journal, i: nat, before: Files, after: Files)
    requires Distinct(j) && |j.files| == |d.manifest.files| && i < |j.files|
    requires Pending(d, j, before) && SlotOf(before, j, i) == BackedUp(Origin(d, i), Approved(d, i))
    requires SameExcept(before, after, {Dest(j, i), Temp(j, Incoming, i)})
    requires SlotOf(after, j, i) in {SlotOf(before, j, i), Installed(Origin(d, i), Approved(d, i)),
                                     Slot(Approved(d, i), Origin(d, i), Approved(d, i), None)}
    ensures Pending(d, j, after)
    ensures forall k :: 0 <= k < |j.files| && k != i ==> SlotOf(before, j, k) == SlotOf(after, j, k)
  {
    PendingFrame(d, j, i, before, after);
    SlotFrame(j, i, before, after);
  }

  lemma BackedUpInstalls(disk: Disk, m: Manifest, d: Delivery, j: Journal, i: nat)
    requires Live(disk, d, j) && d.manifest == m && Kept(m, i) && NoFileAbove(m, d.origin, disk.dirs)
    requires AllParents(m, disk.dirs)
    requires SlotOf(disk.files, j, i) == BackedUp(Origin(d, i), Approved(d, i))
    ensures InstallGoes(m, j, i, disk.files, disk.dirs)
    ensures Parent(j.files[i].path) == "" || Parent(j.files[i].path) in disk.dirs
  {
    CapturedShape(disk.hash, d, j);
    PrefixesStay(disk.hash, d, j, disk.files, disk.dirs, i);
    hide ValidDelivery, Captured, Pending, PrefixesUsable, SlotOf;
  }

  /** The install loop. */
  method InstallAll(disk: Disk, m: Manifest, j: Journal, ghost d: Delivery) returns (r: Step<()>)
    requires Live(disk, d, j) && d.manifest == m
    requires EverySlot(d, j, disk.files, BackedUp)
    modifies disk`files, disk`dirs, disk`script
    ensures Live(disk, d, j) && old(disk.dirs) <= disk.dirs
    ensures r.Ok? ==> EverySlot(d, j, disk.files, Installed)
    ensures old(disk.Reliable()) ==> disk.Reliable() && !r.Crash?
    ensures old(disk.Reliable()) && NoFileAbove(m, d.origin, old(disk.dirs)) && AllParents(m, old(disk.dirs)) ==> r.Ok?
  {
    hide NoFileAbove, AllParents, InstallGoes, SlotOf;
    hide Pending, ValidDelivery, Captured, PrefixesUsable;
    CapturedShape(disk.hash, d, j);
    ghost var dirs0 := disk.dirs;
    ghost var calm := disk.Reliable() && NoFileAbove(m, d.origin, dirs0) && AllParents(m, dirs0);
    for i := 0 to |m.files|
      invariant Live(disk, d, j) && dirs0 <= disk.dirs && (calm ==> disk.dirs == dirs0)
      invariant old(disk.Reliable()) ==> disk.Reliable()
      invariant forall k :: 0 <= k < |m.files| ==>
        SlotOf(disk.files, j, k) == if k < i then Installed(Origin(d, k), Approved(d, k))
            else BackedUp(Origin(d, k), Approved(d, k))
    {
      if !m.files[i].kind.Deleted? {
        ghost var was, wasDirs := disk.files, disk.dirs;
        if calm { BackedUpInstalls(disk, m, d, j, i); }
        r := InstallOne(disk, m, j, i);
        ParentsAreNotEntries(d, j, i, wasDirs, disk.dirs);
        InstallStep(d, j, i, was, disk.files);
        if !r.Ok? { return; }
      }
    }
    r := Ok(());
  }

  lemma StaysClear(m: Manifest, files: Files, dirs: set<string>, more: set<string>)
    requires NoFileAbove(m, files, dirs) && dirs <= more
    ensures NoFileAbove(m, files, more)
  {
    hide PrefixesUsable;
    forall i | 0 <= i < |m.files| ensures PrefixesUsable(m, files, more, m.files[i].path) {
      UsableWithMore(m, files, dirs, more, m.files[i].path);
    }
  }

  /** A delivery whose entries are all installed verifies. */
  lemma InstalledVerifies(disk: Disk, d: Delivery, j: Journal)
    requires Live(disk, d, j) && EverySlot(d, j, disk.files, Installed)
    ensures AllPromoted(disk.hash, d.manifest, d.payload, disk.files, disk.dirs)
  {
    forall i | 0 <= i < |d.manifest.files|
      ensures EntryPromoted(disk.hash, d.manifest, d.payload, disk.files, disk.dirs, i) {
      assert SlotOf(disk.files, j, i).dest == At(disk.files, Tracked(d.manifest.files[i].path));
    }
  }

  lemma LivePayload(disk: Disk, d: Delivery, j: Journal)
    requires Live(disk, d, j)
    ensures PayloadMatches(disk.hash, d.manifest, d.payload)
  {
  }

  /** The part of `apply_payload_staged` whose errors are followed by a rollback. */
  method Install(disk: Disk, m: Manifest, payload: Payload, j: Journal, ghost d: Delivery) returns (r: Step<()>)
    requires Live(disk, d, j) && d.manifest == m && d.payload == payload
    requires EverySlot(d, j, disk.files, Staged)
    modifies disk`files, disk`dirs, disk`script
    ensures Live(disk, d, j) && old(disk.dirs) <= disk.dirs
    ensures r.Ok? ==> EverySlot(d, j, disk.files, Installed)
    ensures NoFileAbove(m, d.origin, old(disk.dirs)) && r.Ok? ==> ParentsInOrder(m, old(disk.dirs))
    ensures old(disk.Reliable()) ==> disk.Reliable() && !r.Crash?
    ensures old(disk.Reliable()) && NoFileAbove(m, d.origin, old(disk.dirs)) && ParentsInOrder(m, old(disk.dirs)) ==>
              r.Ok?
  {
    hide Pending, ValidDelivery, Captured, PrefixesUsable, NoFileAbove, ParentsInOrder, AllParents, EverySlot;
    ghost var dirs0 := disk.dirs;
    var _ :- BackUpAll(disk, m, j, d);
    var _ :- CreateParents(disk, m, j, d);
    if NoFileAbove(m, d.origin, dirs0) { StaysClear(m, d.origin, dirs0, disk.dirs); }
    var _ :- InstallAll(disk, m, j, d);
    InstalledVerifies(disk, d, j);
    LivePayload(disk, d, j);
    var promoted :- VerifyPromoted(disk, m, payload);
    r := if promoted then Ok(()) else Err;
  }
}
