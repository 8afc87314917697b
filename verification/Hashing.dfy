/**
 The loops that hash the records (crates/workflow-core/src/candidate.rs:197-232,
 receipt.rs:32-56, request.rs:140-161).
 */
module Hashing {
  import opened Wrappers
  import opened Bytes
  import opened Canonical
  import opened Records
  import opened Sorting

  lemma {:induction false} FilesAppend(files: seq<CandidateFile>, f: CandidateFile)
    ensures FilesStream(files + [f]) == FilesStream(files) + FileStream(f)
  {
    hide FileStream;
    if files != [] {
      FilesAppend(files[1..], f);
      assert (files + [f])[1..] == files[1..] + [f];
    } else {
      assert [f][1..] == [];
    }
  }

  method WriteFiles(hasher: CanonicalHasher, files: seq<CandidateFile>)
    modifies hasher
    ensures hasher.written == old(hasher.written) + FilesStream(files)
  {
    hide Field, Optional, Flag, KindName;
    ghost var before := hasher.written;
    for i := 0 to |files|
      invariant hasher.written == before + FilesStream(files[..i])
    {
      var f := files[i];
      FilesAppend(files[..i], f);
      assert files[..i + 1] == files[..i] + [f];
      ghost var at := hasher.written;
      hasher.WriteBytes(f.path);
      hasher.WriteOptional(f.digest);
      hasher.WriteBytes(KindName(f.kind));
      assert hasher.written == at + FileStream(f);
    }
    assert files[..|files|] == files;
  }

  method WritePayload(hasher: CanonicalHasher, payload: Option<Digest>)
    modifies hasher
    ensures hasher.written == old(hasher.written) + PayloadStream(payload)
  {
    hide Field, Flag;
    match payload {
      case Some(digest) =>
        hasher.WriteBool(true);
        hasher.WriteBytes(digest);
      case None =>
    }
  }

  lemma Joined(a: seq<Byte>, b: seq<Byte>, c: seq<Byte>)
    ensures (a + b) + c == a + (b + c)
  {
  }

  /** `CandidateManifest::digest`. */
  method CandidateDigest(c: Candidate, sha: seq<Byte> -> Digest) returns (d: Digest)
    requires Countable(c.files) && Countable(c.evidence)
    ensures d == sha(CandidateStream(c))
  {
    hide Field, Fields, Number, Optional, Flag, FilesStream, CandidateDomain, PayloadStream;
    var hasher := new CanonicalHasher(CandidateDomain());
    var digests := [c.digests.diff, c.digests.dependencyState, c.digests.configuration, c.digests.environment];
    // What is still to be written, from the last part backwards.
    ghost var rest6 := PayloadStream(c.payload);
    ghost var rest5 := Fields(c.evidence) + rest6;
    ghost var rest4 := Number(|c.evidence|) + rest5;
    ghost var rest3 := Fields(digests) + rest4;
    ghost var rest2 := FilesStream(c.files) + rest3;
    ghost var rest1 := Number(|c.files|) + rest2;
    Joined(hasher.written, Optional(c.base), rest1);
    hasher.WriteOptional(c.base);
    Joined(hasher.written, Number(|c.files|), rest2);
    hasher.WriteU64(|c.files|);
    Joined(hasher.written, FilesStream(c.files), rest3);
    WriteFiles(hasher, c.files);
    Joined(hasher.written, Fields(digests), rest4);
    hasher.WriteEach(digests);
    Joined(hasher.written, Number(|c.evidence|), rest5);
    hasher.WriteU64(|c.evidence|);
    Joined(hasher.written, Fields(c.evidence), rest6);
    hasher.WriteEach(c.evidence);
    WritePayload(hasher, c.payload);
    d := sha(hasher.written);
  }

  /** `ArbitrationReceipt::digest`. */
  method ReceiptDigest(r: Receipt, sha: seq<Byte> -> Digest) returns (d: Digest)
    requires Countable(r.evidence)
    ensures d == sha(ReceiptStream(r))
  {
    hide Field, Fields, Number, Optional, Flag, ReceiptDomain;
    var hasher := new CanonicalHasher(ReceiptDomain());
    hasher.WriteEach([r.id, r.workflow, r.candidateId, r.request, r.candidate]);
    hasher.WriteOptional(r.functional);
    hasher.WriteOptional(r.security);
    hasher.WriteEach([r.verdict, r.finalizedAt]);
    hasher.WriteU64(|r.evidence|);
    hasher.WriteEach(r.evidence);
    assert hasher.written == ReceiptStream(r);
    d := sha(hasher.written);
  }

  lemma {:induction false} AmendmentsAppend(amendments: seq<Amendment>, a: Amendment)
    ensures AmendmentsStream(amendments + [a]) == AmendmentsStream(amendments) + AmendmentStream(a)
  {
    hide AmendmentStream;
    if amendments != [] {
      AmendmentsAppend(amendments[1..], a);
      assert (amendments + [a])[1..] == amendments[1..] + [a];
    } else {
      assert [a][1..] == [];
    }
  }

  method WriteAmendments(hasher: CanonicalHasher, amendments: seq<Amendment>)
    modifies hasher
    ensures hasher.written == old(hasher.written) + AmendmentsStream(amendments)
  {
    hide Fields, Number;
    ghost var before := hasher.written;
    for i := 0 to |amendments|
      invariant hasher.written == before + AmendmentsStream(amendments[..i])
    {
      var a := amendments[i];
      AmendmentsAppend(amendments[..i], a);
      assert amendments[..i + 1] == amendments[..i] + [a];
      ghost var at := hasher.written;
      hasher.WriteU64(a.sequence);
      hasher.WriteEach([a.text, a.receivedAt]);
      assert hasher.written == at + AmendmentStream(a);
    }
    assert amendments[..|amendments|] == amendments;
  }

  /** `RequestRecord::digest`. */
  method RequestDigest(r: Request, sha: seq<Byte> -> Digest) returns (d: Digest)
    requires Countable(r.attachments) && Countable(r.amendments)
    ensures d == sha(RequestStream(r))
  {
    hide Field, Fields, Number, RequestDomain, AmendmentsStream, Sorted, Keys, Sorting.Ascending;
    var hasher := new CanonicalHasher(RequestDomain());
    hasher.WriteBytes(r.original);
    var attachments := Sorted(r.attachments, Itself);
    SortedIs(r.attachments, Itself);
    SameLength(attachments, r.attachments);
    hasher.WriteU64(|attachments|);
    hasher.WriteEach(attachments);
    hasher.WriteU64(|r.amendments|);
    WriteAmendments(hasher, r.amendments);
    assert hasher.written == RequestStream(r);
    d := sha(hasher.written);
  }
}
