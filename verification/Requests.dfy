/** Request records and the numbering of their amendments (crates/workflow-core/src/request.rs:62-137). */
module Requests {
  import opened Canonical
  import opened Records
  import opened Wrappers

  /** Amendments are numbered from one, without gaps. */
  ghost predicate Contiguous(amendments: seq<Amendment>) {
    forall i :: 0 <= i < |amendments| ==> amendments[i].sequence == i + 1
  }

  datatype RequestError = InvalidAmendmentSequence | TooManyAmendments

  class RequestRecord {
    const original: Text
    const attachments: seq<Digest>
    var amendments: seq<Amendment>

    constructor (original: Text, attachments: seq<Digest>)
      ensures this.original == original && this.attachments == attachments && amendments == []
    {
      this.original, this.attachments, amendments := original, attachments, [];
    }

    /** `append_amendment`. */
    method AppendAmendment(text: Text, receivedAt: Text) returns (r: Result<(), RequestError>)
      requires Contiguous(amendments) && |amendments| <= 0xFFFF_FFFF
      modifies this
      ensures Contiguous(amendments) && |amendments| <= 0xFFFF_FFFF
      ensures match r
              case Success(_) => old(amendments) < amendments && |amendments| == |old(amendments)| + 1
                                 && amendments[|amendments| - 1].text == text
                                 && amendments[|amendments| - 1].receivedAt == receivedAt
              case Failure(e) => e == TooManyAmendments && amendments == old(amendments) && |amendments| == 0xFFFF_FFFF
    {
      if |amendments| >= 0xFFFF_FFFF { return Failure(TooManyAmendments); }
      amendments := amendments + [Amendment(|amendments| + 1, text, receivedAt)];
      return Success(());
    }
  }

  /** The check on a stored record accepts exactly what a run of appends can have built. */
  method CheckSequence(amendments: seq<Amendment>) returns (r: Result<(), RequestError>)
    ensures r.Success? <==> Contiguous(amendments) && |amendments| <= 0xFFFF_FFFF
    ensures r == Failure(TooManyAmendments) ==> |amendments| > 0xFFFF_FFFF && Contiguous(amendments[..0xFFFF_FFFF])
  {
    for i := 0 to |amendments|
      invariant i <= 0xFFFF_FFFF && Contiguous(amendments[..i])
    {
      if i >= 0xFFFF_FFFF { return Failure(TooManyAmendments); }
      if amendments[i].sequence != i + 1 { return Failure(InvalidAmendmentSequence); }
    }
    assert amendments[..|amendments|] == amendments;
    return Success(());
  }
}
