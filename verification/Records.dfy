/**
 The three records whose digests are signed and stored, with the loops that hash
 them: candidates (crates/workflow-core/src/candidate.rs:158-232), arbitration
 receipts (receipt.rs:32-56) and requests (request.rs:44-160). A digest binds
 exactly the fields it should; the order in which a candidate's parts are handed
 in does not matter.
 */
module Records {
  import opened Bytes
  import opened Canonical
  import opened FileKinds
  import opened Sorting
  import opened Wrappers

  datatype CandidateFile = CandidateFile(executable: bool, path: Text, digest: Option<Digest>, kind: FileKind)

  datatype Digests = Digests(diff: Digest, dependencyState: Digest, configuration: Digest, environment: Digest)

  datatype Candidate = Candidate(
    id: Uuid, base: Option<Text>, files: seq<CandidateFile>, digests: Digests, payload: Option<Digest>,
        evidence: seq<Uuid>)

  datatype CandidateError = DuplicatePath(path: Text) | DuplicateEvidence(evidence: Uuid)

  /** `evidence` lists the set in the order of iteration. */
  datatype Receipt = Receipt(
    id: Uuid, workflow: Uuid, candidateId: Uuid, request: Digest, candidate: Digest, functional: Option<Digest>,
    security: Option<Digest>, verdict: Digest, finalizedAt: Text, evidence: seq<Uuid>)

  datatype Amendment = Amendment(sequence: U64, text: Text, receivedAt: Text)

  datatype Request = Request(original: Text, attachments: seq<Digest>, amendments: seq<Amendment>)

  predicate Countable<T>(s: seq<T>) {
    |s| < 0x1_0000_0000_0000_0000
  }

  function CandidateDomain(): Text { Ascii("opencode-workflow/candidate/v1") }

  function ReceiptDomain(): Text { Ascii("opencode-workflow/arbitration-receipt/v1") }

  function AmendmentDomain(): Text { Ascii("opencode-workflow/request-amendment/v1") }

  function RequestDomain(): Text { Ascii("opencode-workflow/request/v1") }

  function KindName(kind: FileKind): Text {
    match kind
    case Added => Ascii("added")
    case Deleted => Ascii("deleted")
    case Generated => Ascii("generated")
    case Modified => Ascii("modified")
  }

  lemma KindNamesDiffer(a: FileKind, b: FileKind)
    requires KindName(a) == KindName(b)
    ensures a == b
  {
    hide Ascii;
    assert |KindName(a)| == |KindName(b)|;
  }

  // ---- what is hashed

  function FileStream(f: CandidateFile): seq<Byte> {
    Field(f.path) + Optional(f.digest) + Field(KindName(f.kind))
  }

  function FilesStream(files: seq<CandidateFile>): seq<Byte> {
    if files == [] then [] else FileStream(files[0]) + FilesStream(files[1..])
  }

  function CandidateStream(c: Candidate): seq<Byte>
    requires Countable(c.files) && Countable(c.evidence)
  {
    Field(CandidateDomain()) + CandidateBody(c)
  }

  function CandidateBody(c: Candidate): seq<Byte>
    requires Countable(c.files) && Countable(c.evidence)
  {
    Optional(c.base) + (Number(|c.files|) + (FilesStream(c.files)
      + (Fields([c.digests.diff, c.digests.dependencyState, c.digests.configuration, c.digests.environment])
      + (Number(|c.evidence|) + (Fields(c.evidence) + PayloadStream(c.payload))))))
  }

  function PayloadStream(payload: Option<Digest>): seq<Byte> {
    match payload
    case None => []
    case Some(d) => Flag(true) + Field(d)
  }

  function ReceiptStream(r: Receipt): seq<Byte>
    requires Countable(r.evidence)
  {
    Field(ReceiptDomain()) + ReceiptBody(r)
  }

  function ReceiptBody(r: Receipt): seq<Byte>
    requires Countable(r.evidence)
  {
    Fields([r.id, r.workflow, r.candidateId, r.request, r.candidate])
      + (Optional(r.functional) + (Optional(r.security) + (Fields([r.verdict, r.finalizedAt])
      + (Number(|r.evidence|) + (Fields(r.evidence) + [])))))
  }

  function AmendmentStream(a: Amendment): seq<Byte> {
    Number(a.sequence) + Fields([a.text, a.receivedAt])
  }

  function AmendmentsStream(amendments: seq<Amendment>): seq<Byte> {
    if amendments == [] then [] else AmendmentStream(amendments[0]) + AmendmentsStream(amendments[1..])
  }

  function Itself(d: Digest): seq<Byte> { d }

  function RequestStream(r: Request): seq<Byte>
    requires Countable(r.attachments) && Countable(r.amendments)
  {
    Field(RequestDomain()) + RequestBody(r, Sorted(r.attachments, Itself))
  }

  function RequestBody(r: Request, attachments: seq<Digest>): seq<Byte>
    requires Countable(r.attachments) && Countable(r.amendments)
  {
    Field(r.original) + (Number(|r.attachments|) + (Fields(attachments)
      + (Number(|r.amendments|) + (AmendmentsStream(r.amendments) + []))))
  }

  // ---- what a digest binds

  /** Everything but the candidate's id and the executable flags. */
  ghost predicate SameContent(c: Candidate, d: Candidate) {
    && c.base == d.base && c.digests == d.digests && c.payload == d.payload && c.evidence == d.evidence
    && SameFiles(c.files, d.files)
  }

  ghost predicate SameFiles(s: seq<CandidateFile>, t: seq<CandidateFile>) {
    |s| == |t| && forall i :: 0 <= i < |s| ==> SameFile(s[i], t[i])
  }

  ghost predicate SameFile(f: CandidateFile, g: CandidateFile) {
    f.path == g.path && f.digest == g.digest && f.kind == g.kind
  }

  lemma FileEnds(f: CandidateFile, g: CandidateFile, s: seq<Byte>, t: seq<Byte>)
    requires FileStream(f) + s == FileStream(g) + t
    ensures SameFile(f, g) && s == t
  {
    hide Field, Optional, KindName;
    var s2, t2 := Field(KindName(f.kind)) + s, Field(KindName(g.kind)) + t;
    assert FileStream(f) + s == Field(f.path) + (Optional(f.digest) + s2);
    assert FileStream(g) + t == Field(g.path) + (Optional(g.digest) + t2);
    FieldEnds(f.path, g.path, Optional(f.digest) + s2, Optional(g.digest) + t2);
    OptionalEnds(f.digest, g.digest, s2, t2);
    FieldEnds(KindName(f.kind), KindName(g.kind), s, t);
    KindNamesDiffer(f.kind, g.kind);
  }

  lemma {:induction false} FilesEnd(fs: seq<CandidateFile>, gs: seq<CandidateFile>, s: seq<Byte>, t: seq<Byte>)
    requires |fs| == |gs| && FilesStream(fs) + s == FilesStream(gs) + t
    ensures SameFiles(fs, gs) && s == t
  {
    hide FileStream;
    if fs != [] {
      var s2, t2 := FilesStream(fs[1..]) + s, FilesStream(gs[1..]) + t;
      assert FilesStream(fs) + s == FileStream(fs[0]) + s2;
      assert FilesStream(gs) + t == FileStream(gs[0]) + t2;
      FileEnds(fs[0], gs[0], s2, t2);
      FilesEnd(fs[1..], gs[1..], s, t);
      forall i | 0 <= i < |fs| ensures SameFile(fs[i], gs[i]) {
        if i > 0 { assert fs[i] == fs[1..][i - 1] && gs[i] == gs[1..][i - 1]; }
      }
    } else {
      assert [] + s == s && [] + t == t;
    }
  }

  lemma {:induction false} SameFilesStream(fs: seq<CandidateFile>, gs: seq<CandidateFile>)
    requires SameFiles(fs, gs)
    ensures FilesStream(fs) == FilesStream(gs)
  {
    if fs != [] {
      assert forall i :: 0 <= i < |fs| - 1 ==> fs[1..][i] == fs[i + 1] && gs[1..][i] == gs[i + 1];
      SameFilesStream(fs[1..], gs[1..]);
    }
  }

  lemma PayloadEnds(p: Option<Digest>, q: Option<Digest>)
    requires PayloadStream(p) == PayloadStream(q)
    ensures p == q
  {
    if p.Some? && q.Some? {
      FlagEnds(true, true, Field(p.value), Field(q.value));
      assert Field(p.value) + [] == Field(p.value) && Field(q.value) + [] == Field(q.value);
      FieldEnds(p.value, q.value, [], []);
    }
  }

  /** Two candidates are hashed alike exactly when they agree in everything but id and executable flags. */
  lemma CandidateDigestBinds(c: Candidate, d: Candidate)
    requires Countable(c.files) && Countable(c.evidence) && Countable(d.files) && Countable(d.evidence)
    ensures CandidateStream(c) == CandidateStream(d) <==> SameContent(c, d)
  {
    hide Field, Fields, Number, Optional, FilesStream, PayloadStream, SameFiles, CandidateDomain;
    if CandidateStream(c) == CandidateStream(d) {
      var cs := Fields(c.evidence) + PayloadStream(c.payload);
      var ds := Fields(d.evidence) + PayloadStream(d.payload);
      var ct, dt := Number(|c.evidence|) + cs, Number(|d.evidence|) + ds;
      var cd := [c.digests.diff, c.digests.dependencyState, c.digests.configuration, c.digests.environment];
      var dd := [d.digests.diff, d.digests.dependencyState, d.digests.configuration, d.digests.environment];
      var cu, du := FilesStream(c.files) + (Fields(cd) + ct), FilesStream(d.files) + (Fields(dd) + dt);
      var cv, dv := Number(|c.files|) + cu, Number(|d.files|) + du;
      FieldEnds(CandidateDomain(), CandidateDomain(), Optional(c.base) + cv, Optional(d.base) + dv);
      OptionalEnds(c.base, d.base, cv, dv);
      NumberEnds(|c.files|, |d.files|, cu, du);
      FilesEnd(c.files, d.files, Fields(cd) + ct, Fields(dd) + dt);
      FieldsEnd(cd, dd, ct, dt);
      assert cd[0] == dd[0] && cd[1] == dd[1] && cd[2] == dd[2] && cd[3] == dd[3];
      NumberEnds(|c.evidence|, |d.evidence|, cs, ds);
      FieldsEnd(c.evidence, d.evidence, PayloadStream(c.payload), PayloadStream(d.payload));
      PayloadEnds(c.payload, d.payload);
    }
    if SameContent(c, d) {
      SameFilesStream(c.files, d.files);
      SameCount(c.files, d.files);
    }
  }

  lemma SameCount(s: seq<CandidateFile>, t: seq<CandidateFile>)
    requires SameFiles(s, t)
    ensures |s| == |t|
  {
  }

  /** A receipt's digest binds every field. */
  lemma ReceiptDigestBinds(r: Receipt, q: Receipt)
    requires Countable(r.evidence) && Countable(q.evidence)
    ensures ReceiptStream(r) == ReceiptStream(q) <==> r == q
  {
    hide Field, Fields, Number, Optional, ReceiptDomain;
    if ReceiptStream(r) == ReceiptStream(q) {
      var r1, q1 := Fields(r.evidence) + [], Fields(q.evidence) + [];
      var r2, q2 := Number(|r.evidence|) + r1, Number(|q.evidence|) + q1;
      var rv, qv := [r.verdict, r.finalizedAt], [q.verdict, q.finalizedAt];
      var r3, q3 := Fields(rv) + r2, Fields(qv) + q2;
      var r4, q4 := Optional(r.security) + r3, Optional(q.security) + q3;
      var r5, q5 := Optional(r.functional) + r4, Optional(q.functional) + q4;
      var ri := [r.id, r.workflow, r.candidateId, r.request, r.candidate];
      var qi := [q.id, q.workflow, q.candidateId, q.request, q.candidate];
      FieldEnds(ReceiptDomain(), ReceiptDomain(), Fields(ri) + r5, Fields(qi) + q5);
      FieldsEnd(ri, qi, r5, q5);
      assert ri[0] == qi[0] && ri[1] == qi[1] && ri[2] == qi[2] && ri[3] == qi[3] && ri[4] == qi[4];
      OptionalEnds(r.functional, q.functional, r4, q4);
      OptionalEnds(r.security, q.security, r3, q3);
      FieldsEnd(rv, qv, r2, q2);
      assert rv[0] == qv[0] && rv[1] == qv[1];
      NumberEnds(|r.evidence|, |q.evidence|, r1, q1);
      FieldsEnd(r.evidence, q.evidence, [], []);
    }
  }

  lemma {:induction false} AmendmentsEnd(xs: seq<Amendment>, ys: seq<Amendment>, s: seq<Byte>, t: seq<Byte>)
    requires |xs| == |ys| && AmendmentsStream(xs) + s == AmendmentsStream(ys) + t
    ensures xs == ys && s == t
  {
    hide AmendmentStream;
    if xs != [] {
      var s2, t2 := AmendmentsStream(xs[1..]) + s, AmendmentsStream(ys[1..]) + t;
      assert AmendmentsStream(xs) + s == AmendmentStream(xs[0]) + s2;
      assert AmendmentsStream(ys) + t == AmendmentStream(ys[0]) + t2;
      AmendmentEnds(xs[0], ys[0], s2, t2);
      AmendmentsEnd(xs[1..], ys[1..], s, t);
      assert xs == [xs[0]] + xs[1..] && ys == [ys[0]] + ys[1..];
    } else {
      assert [] + s == s && [] + t == t;
    }
  }

  lemma AmendmentEnds(a: Amendment, b: Amendment, s: seq<Byte>, t: seq<Byte>)
    requires AmendmentStream(a) + s == AmendmentStream(b) + t
    ensures a == b && s == t
  {
    hide Fields, Number;
    var x, y := [a.text, a.receivedAt], [b.text, b.receivedAt];
    assert AmendmentStream(a) + s == Number(a.sequence) + (Fields(x) + s);
    assert AmendmentStream(b) + t == Number(b.sequence) + (Fields(y) + t);
    NumberEnds(a.sequence, b.sequence, Fields(x) + s, Fields(y) + t);
    FieldsEnd(x, y, s, t);
    assert x[0] == y[0] && x[1] == y[1];
  }

  lemma RequestBodyEnds(r: Request, q: Request, rs: seq<Digest>, qs: seq<Digest>)
    requires Countable(r.attachments) && Countable(r.amendments) && Countable(q.attachments) && Countable(q.amendments)
    requires |rs| == |r.attachments| && |qs| == |q.attachments|
    requires RequestBody(r, rs) == RequestBody(q, qs)
    ensures r.original == q.original && rs == qs && r.amendments == q.amendments
  {
    hide Field, Fields, Number, AmendmentsStream;
    var r1, q1 := AmendmentsStream(r.amendments) + [], AmendmentsStream(q.amendments) + [];
    var r2, q2 := Number(|r.amendments|) + r1, Number(|q.amendments|) + q1;
    var r3, q3 := Fields(rs) + r2, Fields(qs) + q2;
    FieldEnds(r.original, q.original, Number(|r.attachments|) + r3, Number(|q.attachments|) + q3);
    NumberEnds(|r.attachments|, |q.attachments|, r3, q3);
    FieldsEnd(rs, qs, r2, q2);
    NumberEnds(|r.amendments|, |q.amendments|, r1, q1);
    AmendmentsEnd(r.amendments, q.amendments, [], []);
  }

  /** A request's digest binds its text, its amendments, and its attachments up to order. */
  lemma RequestDigestBinds(r: Request, q: Request)
    requires Countable(r.attachments) && Countable(r.amendments) && Countable(q.attachments) && Countable(q.amendments)
    ensures RequestStream(r) == RequestStream(q) <==>
            r.original == q.original && multiset(r.attachments) == multiset(q.attachments)
            && r.amendments == q.amendments
  {
    hide Field, Fields, Number, RequestDomain, AmendmentsStream, Sorted, RequestBody, Keys, Sorting.Ascending;
    SortedIs(r.attachments, Itself);
    SortedIs(q.attachments, Itself);
    var rs, qs := Sorted(r.attachments, Itself), Sorted(q.attachments, Itself);
    SameLength(rs, r.attachments);
    SameLength(qs, q.attachments);
    if RequestStream(r) == RequestStream(q) {
      FieldEnds(RequestDomain(), RequestDomain(), RequestBody(r, rs), RequestBody(q, qs));
      RequestBodyEnds(r, q, rs, qs);
    } else if multiset(r.attachments) == multiset(q.attachments) {
      OneOrder(rs, qs);
      SameLength(r.attachments, q.attachments);
      assert r.original == q.original && r.amendments == q.amendments ==> RequestBody(r, rs) == RequestBody(q, qs) by {
        SameBody(r, q, rs);
      }
    }
  }

  lemma OneOrder(s: seq<Digest>, t: seq<Digest>)
    requires multiset(s) == multiset(t) && Sorting.Ascending(Keys(s, Itself)) && Sorting.Ascending(Keys(t, Itself))
    ensures s == t
  {
    OneArrangement(s, t, Itself);
  }

  lemma SameBody(r: Request, q: Request, s: seq<Digest>)
    requires Countable(r.attachments) && Countable(r.amendments) && Countable(q.attachments) && Countable(q.amendments)
    requires |r.attachments| == |q.attachments|
    ensures r.original == q.original && r.amendments == q.amendments ==> RequestBody(r, s) == RequestBody(q, s)
  {
  }

  /** Records of different kinds are never hashed alike. */
  lemma DomainsSeparate(c: Candidate, r: Receipt, q: Request, a: Amendment)
    requires Countable(c.files) && Countable(c.evidence) && Countable(r.evidence) && Countable(q.attachments)
    requires Countable(q.amendments)
    ensures CandidateStream(c) != ReceiptStream(r) && CandidateStream(c) != RequestStream(q)
    ensures ReceiptStream(r) != RequestStream(q)
    ensures Field(AmendmentDomain()) + AmendmentStream(a) !in {CandidateStream(c), ReceiptStream(r), RequestStream(q)}
  {
    hide *;
    Lengths();
    var cs, rs, qs := CandidateBody(c), ReceiptBody(r), RequestBody(q, Sorted(q.attachments, Itself));
    Begins(c, r, q);
    if Field(CandidateDomain()) + cs == Field(ReceiptDomain()) + rs {
      FieldEnds(CandidateDomain(), ReceiptDomain(), cs, rs);
    }
    if Field(CandidateDomain()) + cs == Field(RequestDomain()) + qs {
      FieldEnds(CandidateDomain(), RequestDomain(), cs, qs);
    }
    if Field(ReceiptDomain()) + rs == Field(RequestDomain()) + qs {
      FieldEnds(ReceiptDomain(), RequestDomain(), rs, qs);
    }
    var x, d := AmendmentStream(a), AmendmentDomain();
    if Field(d) + x == Field(CandidateDomain()) + cs { FieldEnds(d, CandidateDomain(), x, cs); }
    if Field(d) + x == Field(ReceiptDomain()) + rs { FieldEnds(d, ReceiptDomain(), x, rs); }
    if Field(d) + x == Field(RequestDomain()) + qs { FieldEnds(d, RequestDomain(), x, qs); }
  }

  lemma Begins(c: Candidate, r: Receipt, q: Request)
    requires Countable(c.files) && Countable(c.evidence) && Countable(r.evidence) && Countable(q.attachments)
    requires Countable(q.amendments)
    ensures CandidateStream(c) == Field(CandidateDomain()) + CandidateBody(c)
    ensures ReceiptStream(r) == Field(ReceiptDomain()) + ReceiptBody(r)
    ensures RequestStream(q) == Field(RequestDomain()) + RequestBody(q, Sorted(q.attachments, Itself))
  {
    hide Field, CandidateDomain, ReceiptDomain, RequestDomain, CandidateBody, ReceiptBody, RequestBody;
  }

  lemma Lengths()
    ensures |CandidateDomain()| == 30 && |ReceiptDomain()| == 40 && |AmendmentDomain()| == 38 && |RequestDomain()| == 28
  {
    hide Ascii;
  }
}
