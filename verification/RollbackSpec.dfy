/**
 What a rollback may do to the four paths one journal entry owns, as functions
 and relations on values: the specification `Rollback` is proved against, and the
 facts about it that hold whatever the tree looked like before.
 */
module RollbackSpec {
  import opened Wrappers
  import opened FileTree

  type Hash = Bytes -> Digest

  /** The files at the four paths of one journal entry. */
  datatype Slot = Slot(dest: Option<File>, backup: Option<File>, incoming: Option<File>, aside: Option<File>)

  function Dest(j: Journal, i: nat): Path
    requires i < |j.files|
  {
    Tracked(j.files[i].path)
  }

  function Temp(j: Journal, kind: TempKind, i: nat): Path {
    Adjacent(j.candidate, j.nonce, kind, i)
  }

  function SlotOf(files: Files, j: Journal, i: nat): Slot
    requires i < |j.files|
  {
    Slot(At(files, Dest(j, i)), At(files, Temp(j, Backup, i)), At(files, Temp(j, Incoming, i)),
        At(files, Temp(j, Aside, i)))
  }

  ghost predicate Owned(j: Journal, p: Path) {
    match p
    case Tracked(name) => exists i :: 0 <= i < |j.files| && j.files[i].path == name
    case Adjacent(candidate, nonce, kind, i) => candidate == j.candidate && nonce == j.nonce && i < |j.files|
  }

  /** No path outside the journal's slots has changed. */
  ghost predicate Outside(j: Journal, before: Files, after: Files) {
    forall p :: !Owned(j, p) ==> At(before, p) == At(after, p)
  }

  ghost predicate Distinct(j: Journal) {
    forall i, k :: 0 <= i < k < |j.files| ==> j.files[i].path != j.files[k].path
  }

  /** No journal path is a directory prefix of another. */
  ghost predicate PrefixFree(j: Journal) {
    forall i, k :: 0 <= i < |j.files| && 0 <= k < |j.files| ==> !Under(j.files[i].path, j.files[k].path)
  }

  predicate Original(hash: Hash, jf: JournalFile, f: File) {
    jf.original == Some(hash(f.content)) && f.exec == jf.originalExec
  }

  predicate IsApproved(hash: Hash, jf: JournalFile, f: File) {
    jf.approved == Some(hash(f.content)) && f.exec == jf.approvedExec
  }

  // ---- the three passes on one slot

  /** The first pass: an original stays, an approved file goes, anything else is
      moved aside.  `unreadable` says that hashing the destination fails at the
      moment the first pass compares it with the original. */
  function FirstPass(hash: Hash, jf: JournalFile, unreadable: bool, s: Slot): Slot {
    match s.dest
    case None => s.(incoming := None)
    case Some(f) =>
      if !unreadable && Original(hash, jf, f) then s.(incoming := None)
      else if IsApproved(hash, jf, f) then s.(dest := None, incoming := None)
      else s.(dest := None, incoming := None, aside := Some(f))
  }

  /** The first pass has to move a file aside and the aside name is taken. */
  predicate AsideTaken(hash: Hash, jf: JournalFile, unreadable: bool, s: Slot) {
    s.aside.Some? && s.dest.Some? && !(!unreadable && Original(hash, jf, s.dest.value))
    && !IsApproved(hash, jf, s.dest.value)
  }

  /** Every state of the slot while the first pass works on it. */
  predicate DuringFirst(hash: Hash, jf: JournalFile, unreadable: bool, s: Slot, t: Slot) {
    var done := FirstPass(hash, jf, unreadable, s);
    || t == s
    || (!AsideTaken(hash, jf, unreadable, s)
        && (t == s.(aside := done.aside) || t == done.(incoming := s.incoming) || t == done))
  }

  /** The third pass: a backup goes back to an empty destination. */
  function ThirdPass(jf: JournalFile, s: Slot): Slot {
    if jf.originalDirectory || s.backup.None? then s
    else s.(dest := if s.dest.None? then s.backup else s.dest, backup := None)
  }

  /** The third pass gets past this slot: backup and destination are originals. */
  predicate Restorable(hash: Hash, jf: JournalFile, s: Slot) {
    || jf.originalDirectory
    || s.backup.None?
    || (Original(hash, jf, s.backup.value) && (s.dest.Some? ==> Original(hash, jf, s.dest.value)))
  }

  predicate DuringThird(hash: Hash, jf: JournalFile, s: Slot, t: Slot) {
    var done := ThirdPass(jf, s);
    t == s || t == done.(backup := s.backup) || (Restorable(hash, jf, s) && t == done)
  }

  /** The slot after all passes. */
  function Rolled(hash: Hash, jf: JournalFile, unreadable: bool, s: Slot): Slot {
    ThirdPass(jf, FirstPass(hash, jf, unreadable, s))
  }

  /** Every state of the slot at any point of a rollback. */
  predicate DuringRollback(hash: Hash, jf: JournalFile, unreadable: bool, s: Slot, t: Slot) {
    || DuringFirst(hash, jf, unreadable, s, t)
    || (!AsideTaken(hash, jf, unreadable, s) && DuringThird(hash, jf, FirstPass(hash, jf, unreadable, s), t))
  }

  predicate Completes(hash: Hash, jf: JournalFile, unreadable: bool, s: Slot) {
    !AsideTaken(hash, jf, unreadable, s) && Restorable(hash, jf, FirstPass(hash, jf, unreadable, s))
  }

  // ---- foreign content is never lost

  /** `f`, up to its digest and mode, is at the destination, the backup or the aside path. */
  predicate Holds(hash: Hash, s: Slot, f: File) {
    || (s.dest.Some? && SamePrint(hash, s.dest.value, f))
    || (s.backup.Some? && SamePrint(hash, s.backup.value, f))
    || (s.aside.Some? && SamePrint(hash, s.aside.value, f))
  }

  predicate SamePrint(hash: Hash, f: File, g: File) {
    hash(f.content) == hash(g.content) && f.exec == g.exec
  }

  lemma PrintsAgree(hash: Hash, jf: JournalFile, f: File, g: File)
    ensures SamePrint(hash, g, f) ==> IsApproved(hash, jf, g) == IsApproved(hash, jf, f)
  {
  }

  lemma OriginalsAgree(hash: Hash, jf: JournalFile, f: File, g: File, h: File)
    ensures Original(hash, jf, f) && Original(hash, jf, g) ==> SamePrint(hash, f, h) == SamePrint(hash, g, h)
  {
  }

  /** At any point of a rollback of any slot, every file that is not the entry's
      approved file still has a copy, also under faults and after errors. */
  lemma RollbackKeepsForeignContent(hash: Hash, jf: JournalFile, unreadable: bool, s: Slot, t: Slot, f: File)
    requires DuringRollback(hash, jf, unreadable, s, t)
    requires Holds(hash, s, f) && !IsApproved(hash, jf, f)
    ensures Holds(hash, t, f)
  {
    hide IsApproved, Original, SamePrint;
    if s.dest.Some? { PrintsAgree(hash, jf, f, s.dest.value); }
    if s.backup.Some? { PrintsAgree(hash, jf, f, s.backup.value); }
    if s.dest.Some? && s.backup.Some? { OriginalsAgree(hash, jf, s.dest.value, s.backup.value, f); }
  }
}
