/** The hash chain of the ledger (crates/workflow-ledger/src/chain.rs:34-136). */
module Ledger {
  import opened Bytes
  import opened Canonical
  import opened Wrappers

  type Hash = s: seq<Byte> | |s| == 32 witness seq(32, _ => 0)

  /** An event by its canonical bytes, `None` where it cannot be serialised. */
  datatype Event = Event(canonical: Option<Text>)

  datatype Entry = Entry(event: Event, hash: Hash, previous: Option<Hash>, sequence: U64)

  datatype Fault = Sequence | PreviousHash | EntryHash

  datatype Verdict =
    | Valid(entries: nat, head: Option<Hash>)
    | HeadMismatch(actual: Option<Hash>, expected: Option<Hash>)
    | Broken(reason: Fault, sequence: nat)

  datatype LedgerError = Capacity | Serialization

  const LIMIT: nat := 0x1_0000_0000_0000_0000

  function Domain(): seq<Byte> { Ascii("opencode-workflow-ledger-entry-v1") }

  function Link(previous: Option<Hash>): seq<Byte> {
    match previous
    case Some(hash) => Flag(true) + hash
    case None => Flag(false)
  }

  /** What is hashed for an entry. */
  function Input(sequence: U64, previous: Option<Hash>, event: Text): seq<Byte> {
    Domain() + (Number(sequence) + (Link(previous) + Field(event)))
  }

  lemma InputDetermines(m: U64, p: Option<Hash>, e: Text, n: U64, q: Option<Hash>, f: Text)
    requires Input(m, p, e) == Input(n, q, f)
    ensures m == n && p == q && e == f
  {
    hide Domain, Number, Field;
    var s, t := Number(m) + (Link(p) + Field(e)), Number(n) + (Link(q) + Field(f));
    assert s == Input(m, p, e)[|Domain()|..] && t == Input(n, q, f)[|Domain()|..];
    NumberEnds(m, n, Link(p) + Field(e), Link(q) + Field(f));
    LinkEnds(p, q, Field(e), Field(f));
    assert Field(e) + [] == Field(e) && Field(f) + [] == Field(f);
    FieldEnds(e, f, [], []);
  }

  lemma LinkEnds(p: Option<Hash>, q: Option<Hash>, s: seq<Byte>, t: seq<Byte>)
    requires Link(p) + s == Link(q) + t
    ensures p == q && s == t
  {
    assert (Link(p) + s)[0] == (Link(q) + t)[0];
    if p.Some? {
      assert p.value == (Link(p) + s)[1..33] && q.value == (Link(q) + t)[1..33];
      assert s == (Link(p) + s)[33..] && t == (Link(q) + t)[33..];
    } else {
      assert s == (Link(p) + s)[1..] && t == (Link(q) + t)[1..];
    }
  }

  function Head(entries: seq<Entry>): Option<Hash> {
    if entries == [] then None else Some(entries[|entries| - 1].hash)
  }

  /** The entry carries its index, the hash before it, and its own hash. */
  ghost predicate Linked(sha: seq<Byte> -> Hash, e: Entry, i: nat, previous: Option<Hash>) {
    e.sequence == i && e.previous == previous && e.event.canonical.Some? && e.hash == sha(EntryInput(e))
  }

  ghost predicate Holds(sha: seq<Byte> -> Hash, entries: seq<Entry>, i: nat)
    requires i < |entries|
  {
    Linked(sha, entries[i], i, Head(entries[..i]))
  }

  ghost predicate AllHold(sha: seq<Byte> -> Hash, entries: seq<Entry>) {
    forall i :: 0 <= i < |entries| ==> Holds(sha, entries, i)
  }

  /** Why entry `i` is refused, in the order of the checks. */
  ghost predicate FaultIs(sha: seq<Byte> -> Hash, entries: seq<Entry>, i: nat, reason: Fault)
    requires i < |entries|
  {
    && !Holds(sha, entries, i)
    && (reason == Sequence <==> entries[i].sequence != i)
    && (reason == PreviousHash <==> entries[i].sequence == i && entries[i].previous != Head(entries[..i]))
  }

  class LedgerChain {
    const sha: seq<Byte> -> Hash
    var entries: seq<Entry>

    constructor (sha: seq<Byte> -> Hash, entries: seq<Entry>)
      ensures this.sha == sha && this.entries == entries
    {
      this.sha, this.entries := sha, entries;
    }

    /** `append`: a chain that verifies goes on verifying. */
    method Append(event: Event) returns (r: Result<Entry, LedgerError>)
      modifies this
      ensures r.Success? <==> event.canonical.Some? && |old(entries)| < LIMIT
      ensures r.Failure? ==> entries == old(entries)
      ensures r.Success? ==> entries == old(entries) + [r.value] && r.value.event == event
                             && Holds(sha, entries, |entries| - 1)
      ensures AllHold(sha, old(entries)) ==> AllHold(sha, entries)
    {
      hide Input, Head, AllHold, Holds;
      if |entries| >= LIMIT { return Failure(Capacity); }
      var sequence: U64 := |entries|;
      var previous := Head(entries);
      if event.canonical.None? { return Failure(Serialization); }
      var entry := Entry(event, sha(Input(sequence, previous, event.canonical.value)), previous, sequence);
      AppendHolds(sha, entries, entry);
      entries := entries + [entry];
      return Success(entry);
    }

    /** `verify`: a broken verdict names the first entry that does not hold, and why. */
    method Verify(expected: Option<Hash>) returns (r: Verdict)
      ensures match r
              case Valid(n, head) =>
                n == |entries| && AllHold(sha, entries) && head == Head(entries)
                && (expected.Some? ==> expected == head)
              case HeadMismatch(actual, e) =>
                AllHold(sha, entries) && actual == Head(entries) && e == expected && expected.Some?
                && expected != actual
              case Broken(reason, sequence) =>
                if sequence < |entries| && !Holds(sha, entries, sequence) then
                  AllHold(sha, entries[..sequence]) && FaultIs(sha, entries, sequence, reason)
                else |entries| > LIMIT && sequence == LIMIT - 1 && reason == Sequence && AllHold(sha, entries[..LIMIT])
    {
      hide Input;
      var previous: Option<Hash> := None;
      for i := 0 to |entries|
        invariant i <= LIMIT && previous == Head(entries[..i])
        invariant forall j :: 0 <= j < i ==> Holds(sha, entries, j)
      {
        PrefixHolds(sha, entries, i);
        if i >= LIMIT {
          return Broken(Sequence, LIMIT - 1);
        }
        var entry := entries[i];
        if entry.sequence != i { return Broken(Sequence, i); }
        if entry.previous != previous { return Broken(PreviousHash, i); }
        if entry.event.canonical.None? || sha(Input(i, previous, entry.event.canonical.value)) != entry.hash {
          return Broken(EntryHash, i);
        }
        previous := Some(entry.hash);
        assert entries[..i + 1][i] == entry;
      }
      assert entries[..|entries|] == entries;
      if expected.Some? && expected != previous { return HeadMismatch(previous, expected); }
      return Valid(|entries|, previous);
    }
  }

  lemma AppendHolds(sha: seq<Byte> -> Hash, entries: seq<Entry>, e: Entry)
    requires Linked(sha, e, |entries|, Head(entries))
    ensures Holds(sha, entries + [e], |entries|) && (AllHold(sha, entries) ==> AllHold(sha, entries + [e]))
  {
    hide Linked, Head;
    var all := entries + [e];
    assert all[..|entries|] == entries;
    forall i | AllHold(sha, entries) && 0 <= i < |entries| ensures Holds(sha, all, i) {
      assert Holds(sha, entries, i) && all[..i] == entries[..i];
    }
  }

  /** Every part of a chain from its start verifies by itself: without an expected head a truncation goes unnoticed. */
  lemma PrefixHolds(sha: seq<Byte> -> Hash, entries: seq<Entry>, n: nat)
    requires n <= |entries| && forall j :: 0 <= j < n ==> Holds(sha, entries, j)
    ensures AllHold(sha, entries[..n])
  {
    hide Linked, Head;
    forall j | 0 <= j < n ensures Holds(sha, entries[..n], j) {
      assert Holds(sha, entries, j) && entries[..n][..j] == entries[..j];
    }
  }

  /** Two different inputs, each hashed for an entry of one of the chains, with the same hash. */
  ghost predicate Collision(sha: seq<Byte> -> Hash, a: seq<Entry>, b: seq<Entry>) {
    exists i, j ::
      && 0 <= i < |a| && 0 <= j < |b| && a[i].event.canonical.Some? && b[j].event.canonical.Some?
      && EntryInput(a[i]) != EntryInput(b[j]) && sha(EntryInput(a[i])) == sha(EntryInput(b[j]))
  }

  function EntryInput(e: Entry): seq<Byte>
    requires e.event.canonical.Some?
  {
    Input(e.sequence, e.previous, e.event.canonical.value)
  }

  /** Two chains that verify with the same head are equal entry by entry, or exhibit a collision. */
  lemma {:induction false} HeadFixesChain(sha: seq<Byte> -> Hash, a: seq<Entry>, b: seq<Entry>)
    requires AllHold(sha, a) && AllHold(sha, b) && Head(a) == Head(b)
    ensures a == b || Collision(sha, a, b)
    decreases |a|
  {
    hide *;
    if a != [] && b != [] {
      var m, n := |a| - 1, |b| - 1;
      LastOnes(sha, a, b);
      if !Collision(sha, a, b) {
        PrefixHolds(sha, a, m);
        PrefixHolds(sha, b, n);
        HeadFixesChain(sha, a[..m], b[..n]);
        if Collision(sha, a[..m], b[..n]) { WiderCollision(sha, a, b, m, n); }
        assert a == a[..m] + [a[m]] && b == b[..n] + [b[n]];
      }
    } else {
      NoHead(a);
      NoHead(b);
    }
  }

  lemma NoHead(a: seq<Entry>)
    ensures Head(a).None? <==> a == []
  {
  }

  /** With the same head, the last entries agree and so do the heads before them. */
  lemma LastOnes(sha: seq<Byte> -> Hash, a: seq<Entry>, b: seq<Entry>)
    requires AllHold(sha, a) && AllHold(sha, b) && Head(a) == Head(b) && a != [] && b != []
    ensures forall j :: 0 <= j < |a| - 1 ==> Holds(sha, a, j)
    ensures forall j :: 0 <= j < |b| - 1 ==> Holds(sha, b, j)
    ensures Collision(sha, a, b) || (a[|a| - 1] == b[|b| - 1] && Head(a[..|a| - 1]) == Head(b[..|b| - 1]))
  {
    var m, n := |a| - 1, |b| - 1;
    assert Holds(sha, a, m) && Holds(sha, b, n);
    hide Holds, Input;
    var x, y := a[m], b[n];
    assert Linked(sha, x, m, Head(a[..m])) && Linked(sha, y, n, Head(b[..n])) by {
      HoldsIs(sha, a, m); HoldsIs(sha, b, n);
    }
    if EntryInput(x) == EntryInput(y) {
      InputDetermines(x.sequence, x.previous, x.event.canonical.value, y.sequence, y.previous, y.event.canonical.value);
    }
  }

  lemma HoldsIs(sha: seq<Byte> -> Hash, entries: seq<Entry>, i: nat)
    requires i < |entries|
    ensures Holds(sha, entries, i) <==> Linked(sha, entries[i], i, Head(entries[..i]))
  {
  }

  lemma WiderCollision(sha: seq<Byte> -> Hash, a: seq<Entry>, b: seq<Entry>, m: nat, n: nat)
    requires m <= |a| && n <= |b| && Collision(sha, a[..m], b[..n])
    ensures Collision(sha, a, b)
  {
    hide EntryInput;
    var i, j :|
      && 0 <= i < m && 0 <= j < n && a[..m][i].event.canonical.Some? && b[..n][j].event.canonical.Some?
      && EntryInput(a[..m][i]) != EntryInput(b[..n][j]) && sha(EntryInput(a[..m][i])) == sha(EntryInput(b[..n][j]));
    assert EntryInput(a[i]) != EntryInput(b[j]) && sha(EntryInput(a[i])) == sha(EntryInput(b[j]));
  }

  /** With the expected head, a chain that lost entries is noticed unless there is a collision. */
  lemma TruncationIsNoticed(sha: seq<Byte> -> Hash, entries: seq<Entry>, n: nat)
    requires AllHold(sha, entries) && n < |entries|
    ensures AllHold(sha, entries[..n])
    ensures Head(entries[..n]) != Head(entries) || Collision(sha, entries[..n], entries)
  {
    PrefixHolds(sha, entries, n);
    if Head(entries[..n]) == Head(entries) {
      HeadFixesChain(sha, entries[..n], entries);
      assert |entries[..n]| != |entries|;
    }
  }
}
