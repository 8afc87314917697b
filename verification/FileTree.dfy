/**
 The working tree and the journal directory the delivery protocol writes to
 (crates/workflowd/src/candidate.rs).  Every filesystem call is one method of
 `Disk` and consumes one verdict of a script chosen by the environment: the call
 passes, fails without effect, or takes effect and is the last thing that
 happens before the machine stops.
 */
module FileTree {
  import opened Wrappers

  type Bytes = seq<bv8>
  type Digest = seq<bv8>
  type CandidateId = nat

  datatype File = File(content: Bytes, exec: bool)

  datatype Node = Regular(file: File) | Directory

  datatype TempKind = Backup | Incoming | Aside

  /** A path of the repository, or one of the adjacent files of one delivery
      (`.opencode-cycle-<candidate>-<nonce>-<kind>-<index>` in the repository root). */
  datatype Path =
    | Tracked(name: string)
    | Adjacent(candidate: CandidateId, nonce: string, kind: TempKind, index: nat)

  type Files = map<Path, File>

  function At(files: Files, p: Path): Option<File> {
    if p in files then Some(files[p]) else None
  }

  /** The two file maps agree outside `touched`. */
  ghost predicate SameExcept(before: Files, after: Files, touched: set<Path>) {
    forall p :: p !in touched ==> At(before, p) == At(after, p)
  }

  // ---- directory prefixes of path names

  /** `p` names something below directory `d`. */
  predicate Under(d: string, p: string) {
    d + "/" <= p
  }

  function Parent(p: string): (d: string)
    ensures p == "" || |d| < |p|
    ensures d != "" ==> Under(d, p)
  {
    if p == "" then ""
    else if p[|p| - 1] == '/' then p[..|p| - 1]
    else
      var d := Parent(p[..|p| - 1]);
      assert p[..|p| - 1] <= p;
      d
  }

  lemma UnderTransitive(a: string, b: string, c: string)
    requires Under(a, b) && Under(b, c)
    ensures Under(a, c)
  {
    assert a + "/" <= b <= b + "/" <= c;
  }

  function Depth(p: string): nat {
    if p == "" then 0 else (if p[0] == '/' then 1 else 0) + Depth(p[1..])
  }

  // ---- the delivery journal

  datatype Snapshot = Snapshot(digest: Digest, exec: bool)

  datatype JournalFile = JournalFile(
    path: string,
    approved: Option<Digest>,
    approvedExec: bool,
    original: Option<Digest>,
    originalExec: bool,
    originalDirectory: bool)

  datatype Journal = Journal(candidate: CandidateId, nonce: string, files: seq<JournalFile>)

  // ---- outcomes

  datatype Verdict = Pass | Fail | Stop

  /** `Err` is an error the program sees; `Crash` ends the run on the spot. */
  datatype Step<+T> = Ok(value: T) | Err | Crash {
    predicate IsFailure() { !Ok? }

    function PropagateFailure<U>(): Step<U>
      requires !Ok?
    {
      if Err? then Step<U>.Err else Step<U>.Crash
    }

    function Extract(): T
      requires Ok?
    {
      value
    }
  }

  class Disk {
    const hash: Bytes -> Digest
    const journalHash: Journal -> Digest
    var files: Files
    var dirs: set<string>
    var journal: Option<Journal>
    var marker: bool
    var script: seq<Verdict>

    constructor (hash: Bytes -> Digest, journalHash: Journal -> Digest, files: Files, dirs: set<string>)
      ensures (forall name :: name in dirs ==> Tracked(name) !in files) ==> Valid()
      ensures this.hash == hash && this.journalHash == journalHash
      ensures this.files == files && this.dirs == dirs && journal == None && !marker && script == []
    {
      this.hash, this.journalHash := hash, journalHash;
      this.files, this.dirs, journal, marker, script := files, dirs, None, false, [];
    }

    /** No name is both a file and a directory. */
    ghost predicate Valid()
      reads this`files, this`dirs
    {
      forall name :: name in dirs ==> Tracked(name) !in files
    }

    /** No call will fail or be interrupted from here on. */
    ghost predicate Reliable()
      reads this`script
    {
      forall i :: 0 <= i < |script| ==> script[i] == Pass
    }

    function NodeAt(p: Path): Option<Node>
      reads this`files, this`dirs
    {
      if p.Tracked? && p.name in dirs then Some(Directory)
      else if p in files then Some(Regular(files[p]))
      else None
    }

    predicate ParentExists(p: Path)
      reads this`dirs
    {
      p.Tracked? && Parent(p.name) != "" ==> Parent(p.name) in dirs
    }

    /** The environment's verdict on the next call; an exhausted script passes. */
    method Next() returns (v: Verdict)
      modifies this`script
      ensures v == if old(script) == [] then Pass else old(script)[0]
      ensures script == if old(script) == [] then [] else old(script)[1..]
      ensures old(Reliable()) ==> Reliable() && v == Pass
    {
      if script == [] {
        v := Pass;
      } else {
        v, script := script[0], script[1..];
      }
    }

    /** A call that changes nothing this model tracks (a sync, a read, Git). */
    method Call() returns (r: Step<()>)
      modifies this`script
      ensures old(Reliable()) ==> Reliable() && r.Ok?
    {
      var v := Next();
      r := match v case Pass => Ok(()) case Fail => Err case Stop => Crash;
    }

    method Metadata(p: Path) returns (r: Step<Option<Node>>)
      modifies this`script
      ensures r.Ok? ==> r.value == NodeAt(p)
      ensures old(Reliable()) ==> Reliable() && r.Ok?
    {
      var _ :- Call();
      r := Ok(NodeAt(p));
    }

    // ---- working-tree calls

    /** `remove_file`. */
    method RemoveFile(p: Path) returns (r: Step<()>)
      requires Valid()
      modifies this`files, this`script
      ensures Valid()
      ensures r.Err? ==> files == old(files)
      ensures !r.Err? ==> p in old(files) && files == old(files) - {p}
      ensures old(Reliable()) ==> Reliable() && !r.Crash? && (old(p in files) ==> r.Ok?)
    {
      var v := Next();
      if v.Fail? || p !in files { return Err; }
      files := files - {p};
      r := if v.Stop? then Crash else Ok(());
    }

    /** `remove_file`, treating a missing file as success. */
    method RemoveFileIfExists(p: Path) returns (r: Step<()>)
      requires Valid()
      modifies this`files, this`script
      ensures Valid()
      ensures r.Err? ==> files == old(files)
      ensures !r.Err? ==> files == old(files) - {p}
      ensures old(Reliable()) ==> Reliable() && !r.Crash? && (old(NodeAt(p)) != Some(Directory) ==> r.Ok?)
    {
      var v := Next();
      if v.Fail? || NodeAt(p) == Some(Directory) { return Err; }
      files := files - {p};
      r := if v.Stop? then Crash else Ok(());
    }

    /** `rename`: replaces a file already at the destination. */
    method Rename(source: Path, target: Path) returns (r: Step<()>)
      requires Valid()
      requires source != target
      modifies this`files, this`script
      ensures Valid()
      ensures r.Err? ==> files == old(files)
      ensures !r.Err? ==> source in old(files) && files == (old(files) - {source})[target := old(files)[source]]
      ensures old(Reliable()) ==>
                Reliable() && !r.Crash?
                && (old(source in files && NodeAt(target) != Some(Directory) && ParentExists(target)) ==> r.Ok?)
    {
      var v := Next();
      if v.Fail? || source !in files || NodeAt(target) == Some(Directory) || !ParentExists(target) { return Err; }
      files := (files - {source})[target := files[source]];
      r := if v.Stop? then Crash else Ok(());
    }

    /** `hard_link`: never replaces anything.  No file is written after it is
        linked, so the two names are modelled as two equal files. */
    method Link(source: Path, target: Path) returns (r: Step<()>)
      requires Valid()
      modifies this`files, this`script
      ensures Valid()
      ensures r.Err? ==> files == old(files)
      ensures !r.Err? ==>
                source in old(files) && old(NodeAt(target)).None? && files == old(files)[target := old(files)[source]]
      ensures old(Reliable()) ==>
                Reliable() && !r.Crash?
                && (old(source in files && NodeAt(target).None? && ParentExists(target)) ==> r.Ok?)
    {
      var v := Next();
      if v.Fail? || source !in files || NodeAt(target).Some? || !ParentExists(target) { return Err; }
      files := files[target := files[source]];
      r := if v.Stop? then Crash else Ok(());
    }

    /** One write to the file at `p`: creation (`create_new`), content or mode. */
    method Write(p: Path, file: File, create: bool) returns (r: Step<()>)
      requires Valid()
      modifies this`files, this`script
      ensures Valid()
      ensures r.Err? ==> files == old(files)
      ensures !r.Err? ==> files == old(files)[p := file]
      ensures create && !r.Err? ==> old(NodeAt(p)).None?
      ensures old(Reliable()) ==>
                Reliable() && !r.Crash?
                && (old(if create then NodeAt(p).None? && ParentExists(p) else p in files) ==> r.Ok?)
    {
      var v := Next();
      if v.Fail? || (if create then NodeAt(p).Some? || !ParentExists(p) else p !in files) { return Err; }
      files := files[p := file];
      r := if v.Stop? then Crash else Ok(());
    }

    /** `create_dir`. */
    method CreateDir(name: string) returns (r: Step<()>)
      requires Valid()
      modifies this`dirs, this`script
      ensures Valid()
      ensures r.Err? ==> dirs == old(dirs)
      ensures !r.Err? ==> dirs == old(dirs) + {name} && old(NodeAt(Tracked(name)).None? && ParentExists(Tracked(name)))
      ensures old(Reliable()) ==>
                Reliable() && !r.Crash? && (old(NodeAt(Tracked(name)).None? && ParentExists(Tracked(name))) ==> r.Ok?)
    {
      var v := Next();
      if v.Fail? || NodeAt(Tracked(name)).Some? || !ParentExists(Tracked(name)) { return Err; }
      dirs := dirs + {name};
      r := if v.Stop? then Crash else Ok(());
    }

    /** `create_dir_all`: creates the missing directories from the root down. */
    method CreateDirAll(name: string) returns (r: Step<()>)
      requires Valid()
      modifies this`dirs, this`script
      decreases |name|
      ensures Valid()
      ensures old(dirs) <= dirs && (name == "" ==> dirs == old(dirs))
      ensures forall n :: n in dirs && n !in old(dirs) ==> n == name || Under(n, name)
      ensures r.Ok? ==> name == "" || name in dirs
      ensures name == "" || name in old(dirs) ==> r.Ok? && dirs == old(dirs)
      ensures old(Reliable()) ==> Reliable() && !r.Crash?
      ensures old(Reliable()) && (name == "" || forall n :: Tracked(n) in files ==> n != name && !Under(n, name)) ==>
                r.Ok?
    {
      if name == "" || name in dirs { return Ok(()); }
      var parent := Parent(name);
      forall n | parent != "" && (n == parent || Under(n, parent)) ensures Under(n, name) {
        if n != parent { UnderTransitive(n, parent, name); }
      }
      r := CreateDirAll(parent);
      if !r.Ok? { return; }
      if name in dirs { return; }
      r := CreateDir(name);
    }

    /** Nothing stands below the directory. */
    predicate Empty(name: string)
      reads this`files, this`dirs
    {
      && (forall p :: p in files && p.Tracked? ==> !Under(name, p.name))
      && (forall d :: d in dirs ==> !Under(name, d))
    }

    /** `remove_dir`: the outcome tells an occupied directory apart. */
    method RemoveDir(name: string) returns (r: Step<bool>)
      requires Valid()
      modifies this`dirs, this`script
      ensures Valid()
      ensures dirs <= old(dirs)
      ensures r.Err? ==> dirs == old(dirs)
      ensures r.Ok? ==>
                name in old(dirs) && (r.value <==> Empty(name)) && dirs == if r.value then old(dirs) - {name}
                    else old(dirs)
      ensures old(dirs) - {name} <= dirs
      ensures old(Reliable()) ==> Reliable() && !r.Crash? && (name in old(dirs) ==> r.Ok?)
    {
      var v := Next();
      if v.Fail? || name !in dirs { return Err; }
      if !Empty(name) {
        return if v.Stop? then Crash else Ok(false);
      }
      dirs := dirs - {name};
      r := if v.Stop? then Crash else Ok(true);
    }

    // ---- journal directory calls

    /** Publishes a journal by hard-linking its finished temporary file. */
    method LinkJournal(j: Journal) returns (r: Step<()>)
      modifies this`journal, this`script
      ensures r.Err? ==> journal == old(journal)
      ensures !r.Err? ==> old(journal).None? && journal == Some(j)
      ensures old(Reliable()) ==> Reliable() && !r.Crash? && (old(journal).None? ==> r.Ok?)
    {
      var v := Next();
      if v.Fail? || journal.Some? { return Err; }
      journal := Some(j);
      r := if v.Stop? then Crash else Ok(());
    }

    method RemoveJournal() returns (r: Step<()>)
      modifies this`journal, this`script
      ensures r.Err? ==> journal == old(journal)
      ensures !r.Err? ==> journal == None
      ensures old(Reliable()) ==> Reliable() && r.Ok?
    {
      var v := Next();
      if v.Fail? { return Err; }
      journal := None;
      r := if v.Stop? then Crash else Ok(());
    }

    /** `create_new` of the commit marker. */
    method CreateMarker() returns (r: Step<()>)
      modifies this`marker, this`script
      ensures r.Err? ==> marker == old(marker)
      ensures !r.Err? ==> !old(marker) && marker
      ensures old(Reliable()) ==> Reliable() && !r.Crash? && (!old(marker) ==> r.Ok?)
    {
      var v := Next();
      if v.Fail? || marker { return Err; }
      marker := true;
      r := if v.Stop? then Crash else Ok(());
    }

    method RemoveMarker() returns (r: Step<()>)
      modifies this`marker, this`script
      ensures r.Err? ==> marker == old(marker)
      ensures !r.Err? ==> !marker
      ensures old(Reliable()) ==> Reliable() && r.Ok?
    {
      var v := Next();
      if v.Fail? { return Err; }
      marker := false;
      r := if v.Stop? then Crash else Ok(());
    }
  }
}
