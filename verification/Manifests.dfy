/**
 `CandidateManifest::new` (crates/workflow-core/src/candidate.rs:158-189): the order
 of its inputs does not matter.
 */
module Manifests {
  import opened Bytes
  import opened Canonical
  import opened Records
  import opened Sorting
  import opened Wrappers

  function PathOf(f: CandidateFile): seq<Byte> { f.path }

  /** What `new` makes of files and evidence ids: both in ascending order, or the least
      path, then the least evidence id, that occurs twice. */
  ghost predicate Arranged(files: seq<CandidateFile>, evidence: seq<Uuid>,
                           r: Result<(seq<CandidateFile>, seq<Uuid>), CandidateError>) {
    match r
    case Success(parts) =>
      && multiset(parts.0) == multiset(files) && Sorting.Ascending(Keys(parts.0, PathOf))
      && Distinct(Keys(parts.0, PathOf))
      && multiset(parts.1) == multiset(evidence) && Sorting.Ascending(Keys(parts.1, Itself))
      && Distinct(Keys(parts.1, Itself))
    case Failure(DuplicatePath(path)) => LeastTwice(Keys(files, PathOf), path)
    case Failure(DuplicateEvidence(id)) => Distinct(Keys(files, PathOf)) && LeastTwice(Keys(evidence, Itself), id)
  }

  method Arrange(files: seq<CandidateFile>, evidence: seq<Uuid>)
    returns (r: Result<(seq<CandidateFile>, seq<Uuid>), CandidateError>)
    ensures Arranged(files, evidence, r)
  {
    hide Keys, Sorting.Ascending, Sorted, Distinct, LeastTwice;
    var sorted := Sorted(files, PathOf);
    SortedIs(files, PathOf);
    KeysPermute(sorted, files, PathOf);
    var path := AdjacentRepeat(sorted);
    SameRepeats(Keys(sorted, PathOf), Keys(files, PathOf));
    if path.Some? { return Failure(DuplicatePath(path.value)); }
    var ids := Sorted(evidence, Itself);
    SortedIs(evidence, Itself);
    KeysPermute(ids, evidence, Itself);
    var id := SeenBefore(ids);
    SameRepeats(Keys(ids, Itself), Keys(evidence, Itself));
    if id.Some? { return Failure(DuplicateEvidence(id.value)); }
    return Success((sorted, ids));
  }

  lemma SameRepeats(ks: seq<seq<Byte>>, ls: seq<seq<Byte>>)
    requires multiset(ks) == multiset(ls)
    ensures Distinct(ks) <==> Distinct(ls)
    ensures forall k :: LeastTwice(ks, k) <==> LeastTwice(ls, k)
  {
    DistinctMeansOnce(ks);
    DistinctMeansOnce(ls);
  }

  /** The loop over neighbouring files. */
  method AdjacentRepeat(files: seq<CandidateFile>) returns (r: Option<Text>)
    requires Sorting.Ascending(Keys(files, PathOf))
    ensures match r
            case Some(path) => LeastTwice(Keys(files, PathOf), path)
            case None => Distinct(Keys(files, PathOf))
  {
    ghost var ks := Keys(files, PathOf);
    if files != [] {
      for i := 0 to |files| - 1
        invariant forall a, b :: 0 <= a < b <= i ==> ks[a] != ks[b]
      {
        if files[i].path == files[i + 1].path {
          assert ks[i + 1] in ks[..i + 1] by { assert ks[..i + 1][i] == ks[i + 1]; }
          FirstRepeatIsLeast(ks, i + 1);
          return Some(files[i].path);
        }
        forall a | 0 <= a <= i ensures ks[a] != ks[i + 1] {
          if ks[a] == ks[i + 1] && a < i { AtMostIsAntisymmetric(ks[a], ks[i]); }
        }
      }
    }
    return None;
  }

  /** The loop that remembers the evidence ids seen. */
  method SeenBefore(ids: seq<Uuid>) returns (r: Option<Uuid>)
    requires Sorting.Ascending(Keys(ids, Itself))
    ensures match r
            case Some(id) => LeastTwice(Keys(ids, Itself), id)
            case None => Distinct(Keys(ids, Itself))
  {
    ghost var ks := Keys(ids, Itself);
    var seen: set<Uuid> := {};
    for i := 0 to |ids|
      invariant forall a, b :: 0 <= a < b < i ==> ks[a] != ks[b]
      invariant forall x :: x in seen <==> x in ks[..i]
    {
      if ids[i] in seen {
        FirstRepeatIsLeast(ks, i);
        return Some(ids[i]);
      }
      assert ks[..i + 1] == ks[..i] + [ids[i]];
      forall a | 0 <= a < i ensures ks[a] != ks[i] {
        assert ks[..i][a] == ks[a];
      }
      seen := seen + {ids[i]};
    }
    return None;
  }

  /** The order in which files and evidence ids are handed in changes neither the
      manifest, and so its digest, nor the error. */
  lemma OrderDoesNotMatter(
      files: seq<CandidateFile>, evidence: seq<Uuid>, r: Result<(seq<CandidateFile>, seq<Uuid>), CandidateError>,
      files': seq<CandidateFile>, evidence': seq<Uuid>, r': Result<(seq<CandidateFile>, seq<Uuid>), CandidateError>)
    requires multiset(files) == multiset(files') && multiset(evidence) == multiset(evidence')
    requires Arranged(files, evidence, r) && Arranged(files', evidence', r')
    ensures r == r'
  {
    KeysPermute(files, files', PathOf);
    KeysPermute(evidence, evidence', Itself);
    SameRepeats(Keys(files, PathOf), Keys(files', PathOf));
    SameRepeats(Keys(evidence, Itself), Keys(evidence', Itself));
    Exclusive(files, evidence, r);
    Exclusive(files', evidence', r');
    hide Keys, Sorting.Ascending;
    match r {
      case Success(parts) =>
        DistinctDetermine(parts.0, PathOf);
        DistinctDetermine(parts.1, Itself);
        OneArrangement(parts.0, r'.value.0, PathOf);
        OneArrangement(parts.1, r'.value.1, Itself);
      case Failure(DuplicatePath(path)) => LeastTwiceIsOne(Keys(files, PathOf), path, r'.error.path);
      case Failure(DuplicateEvidence(id)) => LeastTwiceIsOne(Keys(evidence, Itself), id, r'.error.evidence);
    }
  }

  lemma DistinctDetermine<T>(s: seq<T>, key: T -> seq<Byte>)
    requires Distinct(Keys(s, key))
    ensures forall x, y :: x in s && y in s && key(x) == key(y) ==> x == y
  {
    forall x, y | x in s && y in s && key(x) == key(y) ensures x == y {
      var i :| 0 <= i < |s| && s[i] == x;
      var j :| 0 <= j < |s| && s[j] == y;
      assert Keys(s, key)[i] == Keys(s, key)[j];
    }
  }

  /** Which of the three outcomes it is depends on the keys alone. */
  lemma Exclusive(files: seq<CandidateFile>, evidence: seq<Uuid>,
                  r: Result<(seq<CandidateFile>, seq<Uuid>), CandidateError>)
    requires Arranged(files, evidence, r)
    ensures (r.Failure? && r.error.DuplicatePath?) <==> !Distinct(Keys(files, PathOf))
    ensures (r.Failure? && r.error.DuplicateEvidence?) <==>
              Distinct(Keys(files, PathOf)) && !Distinct(Keys(evidence, Itself))
  {
    hide Keys, Sorting.Ascending;
    DistinctMeansOnce(Keys(files, PathOf));
    DistinctMeansOnce(Keys(evidence, Itself));
    if r.Success? {
      KeysPermute(r.value.0, files, PathOf);
      KeysPermute(r.value.1, evidence, Itself);
      SameRepeats(Keys(r.value.0, PathOf), Keys(files, PathOf));
      SameRepeats(Keys(r.value.1, Itself), Keys(evidence, Itself));
    }
  }
}
