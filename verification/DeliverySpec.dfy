/**
 A delivery: the tree it started from, the approved files, and which disk states
 between the two a crash may leave behind.
 */
module DeliverySpec {
  import opened Wrappers
  import opened FileKinds
  import opened FileTree
  import opened RollbackSpec
  import opened RelativePath

  datatype ManifestFile = ManifestFile(path: string, kind: FileKind, digest: Option<Digest>, executable: bool)

  datatype Manifest = Manifest(candidate: CandidateId, files: seq<ManifestFile>, payloadDigest: Option<Digest>)

  /** The approved contents, by path. */
  type Payload = map<string, File>

  /** `origin` is the file map before the delivery. */
  datatype Delivery = Delivery(origin: Files, manifest: Manifest, payload: Payload)

  /** `validate_payload`: contents, digests and modes agree and cover exactly the undeleted files. */
  predicate PayloadMatches(hash: Hash, m: Manifest, payload: Payload) {
    && (forall i :: 0 <= i < |m.files| ==>
          var f := m.files[i];
          if f.kind.Deleted? then f.path !in payload
          else
            && f.path in payload && f.digest == Some(hash(payload[f.path].content))
            && f.executable == payload[f.path].exec)
    && (forall name :: name in payload ==>
          exists i :: 0 <= i < |m.files| && m.files[i].path == name && !m.files[i].kind.Deleted?)
  }

  /** What `CandidateManifest::new` and `CandidateFile::new` guarantee. */
  ghost predicate ValidManifest(m: Manifest) {
    && (forall i, k :: 0 <= i < k < |m.files| ==> m.files[i].path != m.files[k].path)
    && (forall i :: 0 <= i < |m.files| ==> (m.files[i].kind.Deleted? <==> m.files[i].digest.None?))
  }

  predicate SafePaths(m: Manifest) {
    forall i :: 0 <= i < |m.files| ==> IsSafeRelative(m.files[i].path)
  }

  ghost predicate PrefixFreeManifest(m: Manifest) {
    forall i, k :: 0 <= i < |m.files| && 0 <= k < |m.files| ==> !Under(m.files[i].path, m.files[k].path)
  }

  /** Approved and original contents of one path do not collide. */
  ghost predicate NoCollision(hash: Hash, d: Delivery) {
    forall name :: name in d.payload && Tracked(name) in d.origin ==>
      var approved, original := d.payload[name].content, d.origin[Tracked(name)].content;
      hash(approved) == hash(original) ==> approved == original
  }

  /** No file of the origin stands where another one needs a directory. */
  ghost predicate TreeShaped(files: Files) {
    forall n, name :: Tracked(name) in files && Under(n, name) ==> Tracked(n) !in files
  }

  ghost predicate ValidDelivery(hash: Hash, d: Delivery) {
    && ValidManifest(d.manifest) && PrefixFreeManifest(d.manifest)
    && PayloadMatches(hash, d.manifest, d.payload)
    && NoCollision(hash, d) && TreeShaped(d.origin)
  }

  function Origin(d: Delivery, i: nat): Option<File>
    requires i < |d.manifest.files|
  {
    At(d.origin, Tracked(d.manifest.files[i].path))
  }

  function Approved(d: Delivery, i: nat): Option<File>
    requires i < |d.manifest.files|
  {
    var name := d.manifest.files[i].path;
    if name in d.payload then Some(d.payload[name]) else None
  }

  /** The file map the approval stands for. */
  function ApprovedFiles(d: Delivery): Files {
    (d.origin - (set i | 0 <= i < |d.manifest.files| :: Tracked(d.manifest.files[i].path)))
    + (map name | name in d.payload :: Tracked(name) := d.payload[name])
  }

  /** Sixteen random bytes in lower-case hexadecimal. */
  predicate ValidNonce(nonce: string) {
    |nonce| == 32 && forall i :: 0 <= i < |nonce| ==> '0' <= nonce[i] <= '9' || 'a' <= nonce[i] <= 'f'
  }

  /** `j` is a journal `capture_journal` can write for this delivery. */
  ghost predicate Captured(hash: Hash, d: Delivery, j: Journal) {
    && j.candidate == d.manifest.candidate && ValidNonce(j.nonce) && |j.files| == |d.manifest.files|
    && (forall i :: 0 <= i < |j.files| ==>
          var f, jf := d.manifest.files[i], j.files[i];
          && jf.path == f.path && jf.approved == f.digest && jf.approvedExec == f.executable && !jf.originalDirectory
          && (match Origin(d, i)
              case Some(o) => jf.original == Some(hash(o.content)) && jf.originalExec == o.exec
              case None => jf.original == None))
    && (forall kind, i :: Temp(j, kind, i) !in d.origin)
  }

  // ---- what a crash may leave, slot by slot

  /** Before the commit marker: the original is in place, or safe in its backup
      while the destination is empty, approved or restored. */
  predicate SlotPending(o: Option<File>, a: Option<File>, s: Slot) {
    && s.aside.None?
    && (s.dest == o || s.dest == a || s.dest.None?)
    && (s.backup == o || (s.backup.None? && s.dest == o))
  }

  /** After the commit marker: the approved file is in place. */
  predicate SlotCommitted(o: Option<File>, a: Option<File>, s: Slot) {
    s.aside.None? && s.dest == a && (s.backup == o || s.backup.None?)
  }

  ghost predicate Pending(d: Delivery, j: Journal, files: Files)
    requires |j.files| == |d.manifest.files|
  {
    && Outside(j, d.origin, files)
    && forall i :: 0 <= i < |j.files| ==> SlotPending(Origin(d, i), Approved(d, i), SlotOf(files, j, i))
  }

  ghost predicate Committed(d: Delivery, j: Journal, files: Files)
    requires |j.files| == |d.manifest.files|
  {
    && Outside(j, d.origin, files)
    && forall i :: 0 <= i < |j.files| ==> SlotCommitted(Origin(d, i), Approved(d, i), SlotOf(files, j, i))
  }

  // ---- slots after a rollback

  lemma FirstPassOnPending(hash: Hash, d: Delivery, j: Journal, i: nat, unreadable: bool, s: Slot)
    requires ValidDelivery(hash, d) && Captured(hash, d, j) && i < |j.files|
    requires SlotPending(Origin(d, i), Approved(d, i), s)
    ensures !AsideTaken(hash, j.files[i], unreadable, s)
    ensures !unreadable || s.dest != Origin(d, i) || s.dest.None? ==>
              var t := FirstPass(hash, j.files[i], unreadable, s);
              && t.aside.None? && t.incoming.None? && t.backup == s.backup
              && (t.dest == Origin(d, i) || t.dest.None?)
              && Restorable(hash, j.files[i], t) && ThirdPass(j.files[i], t) == Slot(Origin(d, i), None, None, None)
  {
    var name := d.manifest.files[i].path;
    if s.dest.Some? && s.dest == Approved(d, i) {
      assert name in d.payload;
      assert !d.manifest.files[i].kind.Deleted?;
    }
  }

  // ---- whole file maps

  /** All slots are back to the original and nothing else changed: the original file map. */
  lemma RestoredFiles(hash: Hash, d: Delivery, j: Journal, files: Files)
    requires Captured(hash, d, j) && Outside(j, d.origin, files)
    requires forall i :: 0 <= i < |j.files| ==> SlotOf(files, j, i) == Slot(Origin(d, i), None, None, None)
    ensures files == d.origin
  {
    forall p ensures At(files, p) == At(d.origin, p) {
      if Owned(j, p) {
        match p {
          case Tracked(name) =>
            var i :| 0 <= i < |j.files| && j.files[i].path == name;
            assert SlotOf(files, j, i).dest == At(files, p);
          case Adjacent(_, _, kind, i) =>
            var s := SlotOf(files, j, i);
            assert s == Slot(Origin(d, i), None, None, None);
            assert At(files, p) == match kind case Backup => s.backup case Incoming => s.incoming case Aside => s.aside;
            assert Temp(j, kind, i) !in d.origin;
        }
      }
    }
    SameFiles(files, d.origin);
  }

  /** What the approval says about one path. */
  lemma ApprovedAt(d: Delivery, p: Path)
    ensures At(ApprovedFiles(d), p) ==
            if p.Tracked? && p.name in d.payload then Some(d.payload[p.name])
            else if p.Tracked?
                && exists i :: 0 <= i < |d.manifest.files| && d.manifest.files[i].path == p.name then None
            else At(d.origin, p)
  {
  }

  lemma TrackedInPlace(hash: Hash, d: Delivery, j: Journal, files: Files, name: string)
    requires ValidDelivery(hash, d) && Captured(hash, d, j) && Outside(j, d.origin, files)
    requires forall i :: 0 <= i < |j.files| ==> SlotOf(files, j, i).dest == Approved(d, i)
    ensures At(files, Tracked(name)) == At(ApprovedFiles(d), Tracked(name))
  {
    hide SafePaths, TreeShaped, PrefixFreeManifest, NoCollision, ApprovedFiles;
    ApprovedAt(d, Tracked(name));
    if exists i :: 0 <= i < |d.manifest.files| && d.manifest.files[i].path == name {
      var i :| 0 <= i < |d.manifest.files| && d.manifest.files[i].path == name;
      assert j.files[i].path == name && SlotOf(files, j, i).dest == At(files, Tracked(name));
    } else {
      assert !Owned(j, Tracked(name));
    }
  }

  lemma AdjacentGone(hash: Hash, d: Delivery, j: Journal, files: Files, p: Path)
    requires Captured(hash, d, j) && Outside(j, d.origin, files) && p.Adjacent?
    requires forall i :: 0 <= i < |j.files| ==> SlotOf(files, j, i) == Slot(Approved(d, i), None, None, None)
    ensures At(files, p) == At(ApprovedFiles(d), p)
  {
    hide ApprovedFiles, Approved;
    ApprovedAt(d, p);
    if Owned(j, p) {
      var s := SlotOf(files, j, p.index);
      assert At(files, p) == match p.kind case Backup => s.backup case Incoming => s.incoming case Aside => s.aside;
      assert Temp(j, p.kind, p.index) !in d.origin;
    }
  }

  /** All slots hold the approved file and nothing else: the approved file map. */
  lemma ApprovedFilesInPlace(hash: Hash, d: Delivery, j: Journal, files: Files)
    requires ValidDelivery(hash, d) && Captured(hash, d, j) && Outside(j, d.origin, files)
    requires forall i :: 0 <= i < |j.files| ==> SlotOf(files, j, i) == Slot(Approved(d, i), None, None, None)
    ensures files == ApprovedFiles(d)
  {
    hide ValidDelivery, Captured;
    forall p ensures At(files, p) == At(ApprovedFiles(d), p) {
      if p.Tracked? {
        TrackedInPlace(hash, d, j, files, p.name);
      } else {
        AdjacentGone(hash, d, j, files, p);
      }
    }
    SameFiles(files, ApprovedFiles(d));
  }

  lemma SameFiles(f: Files, g: Files)
    requires forall p :: At(f, p) == At(g, p)
    ensures f == g
  {
    assert forall p :: p in f ==> At(g, p) == At(f, p);
    assert forall p :: p in g ==> At(f, p) == At(g, p);
  }
}
