/**
 Recovery and the commit point (crates/workflowd/src/candidate.rs:564-571,
 1002-1039, 1093-1109): from every state a crash can leave behind, recovery ends
 in the original file map or, once the commit marker was written, in the approved one.
 */
module Recovery {
  import opened Wrappers
  import opened FileTree
  import opened RollbackSpec
  import opened Rollback
  import opened RelativePath
  import opened DeliverySpec
  import opened DeliveryConditions
  import opened Staging

  /**
   Every state of the disk between the calls of a delivery and of its recoveries.
   `committed` records whether the commit marker has ever been written.
   */
  ghost predicate Consistent(disk: Disk, d: Delivery, committed: bool)
    reads disk`files, disk`dirs, disk`journal, disk`marker
  {
    && disk.Valid() && ValidDelivery(disk.hash, d)
    && (disk.journal.Some? || committed ==>
        forall i :: 0 <= i < |d.manifest.files| ==> d.manifest.files[i].path !in disk.dirs)
    && match disk.journal
       case Some(j) =>
         && Captured(disk.hash, d, j) && disk.marker == committed
         && (if committed then Committed(d, j, disk.files) else Pending(d, j, disk.files))
       case None =>
         && (disk.marker ==> committed)
         && disk.files == if committed then ApprovedFiles(d) else d.origin
  }

  /** Nothing is left to recover. */
  ghost predicate Settled(disk: Disk)
    reads disk`journal, disk`marker
  {
    disk.journal == None && !disk.marker
  }

  // ---- rolling a pending delivery back

  /** What rolling one pending slot back does, with a readable destination. */
  lemma PendingSlotRollsBack(hash: Hash, d: Delivery, j: Journal, i: nat, s: Slot, t: Slot)
    requires ValidDelivery(hash, d) && Captured(hash, d, j) && i < |j.files|
    requires SlotPending(Origin(d, i), Approved(d, i), s)
    ensures Completes(hash, j.files[i], false, s)
    ensures DuringRollback(hash, j.files[i], false, s, t) ==> SlotPending(Origin(d, i), Approved(d, i), t)
    ensures Rolled(hash, j.files[i], false, s) == Slot(Origin(d, i), None, None, None)
  {
    FirstPassOnPending(hash, d, j, i, false, s);
  }

  /** At any point of a rollback the delivery is still pending, and at its end the
      file map is the original one. */
  lemma PendingRollsBack(hash: Hash, d: Delivery, j: Journal, before: Files, after: Files)
    requires ValidDelivery(hash, d) && Captured(hash, d, j) && Pending(d, j, before)
    requires Underway(hash, j, {}, before, after)
    ensures AllComplete(hash, j, {}, before) && Pending(d, j, after)
    ensures RolledBack(hash, j, {}, before, after) ==> after == d.origin
  {
    forall i | 0 <= i < |j.files|
      ensures Completes(hash, j.files[i], i in {}, SlotOf(before, j, i))
      ensures SlotPending(Origin(d, i), Approved(d, i), SlotOf(after, j, i))
      ensures Rolled(hash, j.files[i], i in {}, SlotOf(before, j, i)) == Slot(Origin(d, i), None, None, None)
    {
      PendingSlotRollsBack(hash, d, j, i, SlotOf(before, j, i), SlotOf(after, j, i));
    }
    if RolledBack(hash, j, {}, before, after) {
      RestoredFiles(hash, d, j, after);
    }
  }

  /** Nothing of a pending delivery stands in the way of rolling it back. */
  lemma PendingIsUnobstructed(hash: Hash, d: Delivery, j: Journal, files: Files, dirs: set<string>)
    requires ValidDelivery(hash, d) && Captured(hash, d, j) && Pending(d, j, files)
    requires forall i :: 0 <= i < |j.files| ==> j.files[i].path !in dirs
    ensures PrefixFree(j) && Distinct(j)
    ensures AllUnobstructed(files, dirs, j)
  {
    assert forall i :: 0 <= i < |j.files| ==> j.files[i].path == d.manifest.files[i].path;
    forall i, n | 0 <= i < |j.files| && Temp(j, Backup, i) in files && Under(n, j.files[i].path)
      ensures Tracked(n) !in files
    {
      assert SlotPending(Origin(d, i), Approved(d, i), SlotOf(files, j, i));
      assert Tracked(j.files[i].path) in d.origin;
      assert !Owned(j, Tracked(n));
      assert At(files, Tracked(n)) == At(d.origin, Tracked(n));
    }
  }

  // ---- cleaning a committed delivery up

  /** The body of the cleanup loop. */
  method CleanOne(disk: Disk, j: Journal, i: nat, ghost d: Delivery) returns (r: Step<()>)
    requires disk.Valid() && Distinct(j) && |j.files| == |d.manifest.files| && i < |j.files|
    requires Committed(d, j, disk.files)
    modifies disk`files, disk`script
    ensures disk.Valid() && Committed(d, j, disk.files)
    ensures forall k :: 0 <= k < |j.files| && k != i ==> SlotOf(disk.files, j, k) == SlotOf(old(disk.files), j, k)
    ensures r.Ok? ==> SlotOf(disk.files, j, i) == Slot(Approved(d, i), None, None, None)
    ensures old(disk.Reliable()) ==> disk.Reliable() && r.Ok?
  {
    ghost var was := disk.files;
    assert SlotCommitted(Origin(d, i), Approved(d, i), SlotOf(was, j, i));
    r := disk.RemoveFileIfExists(Temp(j, Backup, i));
    SlotFrame(j, i, was, disk.files);
    if !r.Ok? { return; }
    r := disk.RemoveFileIfExists(Temp(j, Incoming, i));
    SlotFrame(j, i, was, disk.files);
  }

  /** The cleanup loop and the removal of journal and marker. */
  method CleanupDelivery(disk: Disk, j: Journal, ghost d: Delivery) returns (r: Step<()>)
    requires Consistent(disk, d, true) && disk.journal == Some(j)
    modifies disk`files, disk`journal, disk`marker, disk`script
    ensures Consistent(disk, d, true)
    ensures disk.journal in {old(disk.journal), None} && (disk.marker ==> old(disk.marker))
    ensures r.Ok? ==> Settled(disk)
    ensures old(disk.Reliable()) ==> disk.Reliable() && r.Ok?
  {
    hide ValidDelivery, Captured, ApprovedFiles;
    CapturedShape(disk.hash, d, j);
    for i := 0 to |j.files|
      invariant Consistent(disk, d, true) && disk.journal == Some(j)
      invariant forall k :: 0 <= k < i ==> SlotOf(disk.files, j, k) == Slot(Approved(d, k), None, None, None)
      invariant old(disk.Reliable()) ==> disk.Reliable()
    {
      r := CleanOne(disk, j, i, d);
      if !r.Ok? { return; }
    }
    ApprovedFilesInPlace(disk.hash, d, j, disk.files);
    var _ :- disk.RemoveJournal();
    var _ :- disk.Call();
    var _ :- disk.RemoveMarker();
    r := disk.Call();
  }

  /** A committed delivery verifies as promoted. */
  lemma CommittedVerifies(disk: Disk, d: Delivery)
    requires Consistent(disk, d, true)
    ensures forall i :: 0 <= i < |d.manifest.files| ==>
              EntryPromoted(disk.hash, d.manifest, d.payload, disk.files, disk.dirs, i)
  {
    forall i | 0 <= i < |d.manifest.files|
      ensures EntryPromoted(disk.hash, d.manifest, d.payload, disk.files, disk.dirs, i)
    {
      var name := d.manifest.files[i].path;
      if disk.journal.Some? {
        var j := disk.journal.value;
        assert SlotOf(disk.files, j, i).dest == At(disk.files, Tracked(name));
      }
      assert At(disk.files, Tracked(name)) == Approved(d, i);
    }
  }

  // ---- recovery

  /** `journal_matches_manifest`. */
  predicate JournalMatches(j: Journal, m: Manifest) {
    && j.candidate == m.candidate && ValidNonce(j.nonce) && |j.files| == |m.files|
    && forall i :: 0 <= i < |j.files| ==>
         && IsSafeRelative(j.files[i].path) && j.files[i].path == m.files[i].path
         && j.files[i].approved == m.files[i].digest && j.files[i].approvedExec == m.files[i].executable
  }

  /** The digest the caller expects is the one of the journal on disk. */
  ghost predicate Expected(disk: Disk, expected: Option<Digest>)
    reads disk`journal
  {
    disk.journal.Some? ==> expected == Some(disk.journalHash(disk.journal.value))
  }

  lemma CapturedMatches(hash: Hash, d: Delivery, j: Journal)
    requires Captured(hash, d, j) && SafePaths(d.manifest)
    ensures JournalMatches(j, d.manifest) && forall i :: 0 <= i < |j.files| ==> !j.files[i].originalDirectory
  {
  }

  lemma NotYetUnderway(hash: Hash, j: Journal, flaky: set<nat>, files: Files)
    ensures Underway(hash, j, flaky, files, files)
  {
  }

  /** `recover_delivery_bound`. */
  method Recover(disk: Disk, m: Manifest, payload: Payload, expected: Option<Digest>, flaky: set<nat>,
                 ghost d: Delivery, ghost committed: bool)
    returns (r: Step<()>)
    requires Consistent(disk, d, committed) && d.manifest == m && d.payload == payload && SafePaths(m)
    modifies disk`files, disk`dirs, disk`journal, disk`marker, disk`script
    ensures flaky == {} ==> Consistent(disk, d, committed)
    ensures disk.journal in {old(disk.journal), None} && (disk.marker ==> old(disk.marker))
    ensures flaky == {} && r.Ok? ==> Settled(disk)
    ensures !old(Expected(disk, expected)) ==>
              r.Err? && disk.files == old(disk.files) && disk.journal == old(disk.journal)
    ensures flaky == {} && old(disk.Reliable() && Expected(disk, expected)) ==> r.Ok? && disk.Reliable()
    ensures flaky == {} ==> DirsGrew(m, old(disk.dirs), disk.dirs)
    ensures old(Settled(disk)) ==> disk.dirs == old(disk.dirs)
  {
    hide Captured, Pending, Committed, ApprovedFiles, Underway, AllComplete, RolledBack, AllUnobstructed, EntryPromoted,
           JournalMatches;
    if disk.journal.None? {
      if disk.marker {
        CommittedVerifies(disk, d);
        var promoted :- VerifyPromoted(disk, m, payload);
        if !promoted { return Err; }
        var _ :- disk.RemoveMarker();
      }
      return Ok(());
    }
    var j := disk.journal.value;
    if expected != Some(disk.journalHash(j)) { return Err; }
    CapturedMatches(disk.hash, d, j);
    if !JournalMatches(j, m) { return Err; }
    if disk.marker {
      CommittedVerifies(disk, d);
      var promoted :- VerifyPromoted(disk, m, payload);
      if !promoted { return Err; }
      r := CleanupDelivery(disk, j, d);
    } else {
      CapturedShape(disk.hash, d, j);
      PendingIsUnobstructed(disk.hash, d, j, disk.files, disk.dirs);
      ghost var files0 := disk.files;
      NotYetUnderway(disk.hash, j, {}, files0);
      PendingRollsBack(disk.hash, d, j, files0, files0);
      r := RollbackPayload(disk, j, flaky);
      if flaky == {} {
        PendingRollsBack(disk.hash, d, j, files0, disk.files);
      }
    }
  }

  // ---- one delivery

  /** `apply_payload_staged`: an error while staging leaves the journal to the next
      recovery; a later error is followed by a rollback and stays an error. */
  method ApplyStaged(disk: Disk, m: Manifest, payload: Payload, j: Journal, flaky: set<nat>, ghost d: Delivery)
    returns (r: Step<()>)
    requires Live(disk, d, j) && d.manifest == m && d.payload == payload && flaky == {}
    requires EverySlot(d, j, disk.files, Untouched)
    modifies disk`files, disk`dirs, disk`journal, disk`marker, disk`script
    ensures Consistent(disk, d, false) && disk.journal in {Some(j), None}
    ensures DirsGrew(d.manifest, old(disk.dirs), disk.dirs)
    ensures r.Ok? ==> Live(disk, d, j) && EverySlot(d, j, disk.files, Installed)
    ensures r.Ok? ==> NoFileAbove(m, d.origin, old(disk.dirs)) && ParentsInOrder(m, old(disk.dirs))
    ensures old(disk.Reliable()) ==> disk.Reliable() && !r.Crash?
    ensures old(disk.Reliable()) && NoFileAbove(m, d.origin, old(disk.dirs)) ==>
              if ParentsInOrder(m, old(disk.dirs)) then r.Ok? else Settled(disk)
  {
    hide NoFileAbove, ParentsInOrder;
    var _ :- StageAll(disk, m, payload, j, d);
    r := Install(disk, m, payload, j, d);
    if r.Err? {
      var _ :- RollBackPending(disk, j, flaky, d);
    }
  }

  /** A rollback started from a pending delivery. */
  method RollBackPending(disk: Disk, j: Journal, flaky: set<nat>, ghost d: Delivery) returns (r: Step<()>)
    requires Live(disk, d, j) && flaky == {}
    modifies disk`files, disk`dirs, disk`journal, disk`marker, disk`script
    ensures Consistent(disk, d, false) && disk.journal in {Some(j), None}
    ensures DirsGrew(d.manifest, old(disk.dirs), disk.dirs)
    ensures r.Ok? ==> Settled(disk)
    ensures old(disk.Reliable()) ==> disk.Reliable() && r.Ok?
  {
    PendingIsUnobstructed(disk.hash, d, j, disk.files, disk.dirs);
    ghost var files0 := disk.files;
    r := RollbackPayload(disk, j, flaky);
    PendingRollsBack(disk.hash, d, j, files0, disk.files);
  }

  /** `write_journal`: the journal appears by one hard link; an error may follow it. */
  method PublishJournal(disk: Disk, j: Journal) returns (r: Step<()>)
    modifies disk`journal, disk`script
    ensures disk.journal in {old(disk.journal), Some(j)}
    ensures r.Ok? ==> disk.journal == Some(j)
    ensures disk.journal != old(disk.journal) ==> old(disk.journal) == None
    ensures old(disk.Reliable()) ==> disk.Reliable() && !r.Crash? && (old(disk.journal) == None ==> r.Ok?)
  {
    var _ :- disk.Call();
    var _ :- disk.LinkJournal(j);
    var _ :- disk.Call();
    var _ :- disk.Call();
    r := disk.Call();
  }

  /** Writing the commit marker and cleaning up; a marker that cannot be written is
      followed by a rollback. */
  method Commit(disk: Disk, j: Journal, flaky: set<nat>, ghost d: Delivery) returns (r: Step<()>, ghost committed: bool)
    requires Live(disk, d, j) && EverySlot(d, j, disk.files, Installed) && flaky == {}
    modifies disk`files, disk`dirs, disk`journal, disk`marker, disk`script
    ensures Consistent(disk, d, committed) && disk.journal in {Some(j), None}
    ensures DirsGrew(d.manifest, old(disk.dirs), disk.dirs)
    ensures r.Ok? ==> committed && Settled(disk)
    ensures old(disk.Reliable()) ==> disk.Reliable() && r.Ok?
  {
    r := disk.CreateMarker();
    committed := !r.Err?;
    assert committed ==> Committed(d, j, disk.files);
    if r.Crash? { return; }
    if r.Err? {
      r := RollBackPending(disk, j, flaky, d);
      if r.Ok? { r := Err; }
      return;
    }
    r := CleanupDelivery(disk, j, d);
  }

  /** A tree that already verifies as promoted is the approved tree. */
  lemma PromotedIsApproved(disk: Disk, d: Delivery, committed: bool)
    requires Consistent(disk, d, committed) && Settled(disk)
    requires forall i :: 0 <= i < |d.manifest.files| ==>
              EntryPromoted(disk.hash, d.manifest, d.payload, disk.files, disk.dirs, i)
    ensures disk.files == ApprovedFiles(d)
  {
    if !committed {
      var approved := ApprovedFiles(d);
      forall p ensures At(disk.files, p) == At(approved, p) {
        if p.Tracked? && exists i :: 0 <= i < |d.manifest.files| && d.manifest.files[i].path == p.name {
          var i :| 0 <= i < |d.manifest.files| && d.manifest.files[i].path == p.name;
          assert EntryPromoted(disk.hash, d.manifest, d.payload, disk.files, disk.dirs, i);
          assert d.manifest.files[i].kind.Deleted? <==> p.name !in d.payload;
          if p.name in disk.dirs { assert p !in disk.files; }
        }
      }
      SameFiles(disk.files, approved);
    }
  }

  // ---- the one fault that breaks atomicity

  /** The first loop of a rollback meets the original of entry `i` in its place, and
      moving it away cannot be undone by a backup. */
  predicate Stray(hash: Hash, d: Delivery, j: Journal, files: Files, i: nat)
    requires i < |j.files| && |j.files| == |d.manifest.files|
  {
    && Origin(d, i).Some? && At(files, Dest(j, i)) == Origin(d, i)
    && !(IsApproved(hash, j.files[i], Origin(d, i).value) && At(files, Temp(j, Backup, i)) == Origin(d, i))
  }

  /** A completed rollback restores the original file map exactly when the failed
      hashes of its first loop hit no entry whose original is in its place. */
  lemma RollbackRestoresExactlyWhenReadable(hash: Hash, d: Delivery, j: Journal, flaky: set<nat>, before: Files,
                                            after: Files)
    requires ValidDelivery(hash, d) && Captured(hash, d, j) && Pending(d, j, before)
    requires RolledBack(hash, j, flaky, before, after)
    ensures AllComplete(hash, j, flaky, before)
    ensures after == d.origin <==> forall i :: i in flaky && 0 <= i < |j.files| ==> !Stray(hash, d, j, before, i)
  {
    forall i | 0 <= i < |j.files|
      ensures Completes(hash, j.files[i], i in flaky, SlotOf(before, j, i))
      ensures SlotOf(after, j, i) == Slot(Origin(d, i), None, None, None) <==>
                !(i in flaky && Stray(hash, d, j, before, i))
    {
      RollbackOfOneSlot(hash, d, j, i, i in flaky, before);
    }
    if forall i :: i in flaky && 0 <= i < |j.files| ==> !Stray(hash, d, j, before, i) {
      RestoredFiles(hash, d, j, after);
    } else {
      var i :| i in flaky && 0 <= i < |j.files| && Stray(hash, d, j, before, i);
      assert SlotOf(d.origin, j, i) == Slot(Origin(d, i), None, None, None);
    }
  }

  lemma RollbackOfOneSlot(hash: Hash, d: Delivery, j: Journal, i: nat, unreadable: bool, before: Files)
    requires ValidDelivery(hash, d) && Captured(hash, d, j) && Pending(d, j, before) && i < |j.files|
    ensures var s := SlotOf(before, j, i);
            && Completes(hash, j.files[i], unreadable, s)
            && (Rolled(hash, j.files[i], unreadable, s) == Slot(Origin(d, i), None, None, None)
                <==> !(unreadable && Stray(hash, d, j, before, i)))
  {
    FirstPassOnPending(hash, d, j, i, unreadable, SlotOf(before, j, i));
  }

  /** The smallest such run: one file to be replaced, nothing moved yet, one failed
      hash.  The rollback completes and the file has left its path. */
  lemma OneFailedHashLosesThePath(hash: Hash, original: Bytes, approved: Bytes)
    requires hash(original) != hash(approved)
    ensures var jf := JournalFile("a", Some(hash(approved)), false, Some(hash(original)), false, false);
            var s := Slot(Some(File(original, false)), None, None, None);
            && Completes(hash, jf, true, s)
            && Rolled(hash, jf, true, s) == Slot(None, None, None, Some(File(original, false)))
            && Rolled(hash, jf, false, s) == s
  {
  }
}
