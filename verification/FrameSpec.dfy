/**
 The wire format of the local IPC as a function on whole byte streams: a four-byte
 big-endian length, then that many payload bytes. What holds of every way a stream
 can be cut into chunks.
 */
module FrameSpec {
  import opened Bytes

  const MAX_FRAME_BYTES: nat := 8 * 1024 * 1024

  datatype FrameError = Empty | Oversized(announced: nat) | Poisoned

  /** The length field, a `u32`. */
  function Length(n: nat): (s: seq<Byte>)
    requires n <= MAX_FRAME_BYTES
    ensures |s| == 4 && FromBytes(s) == n
  {
    Widths();
    ToBytes(n, 4)
  }

  lemma LengthRoundTrip(s: seq<Byte>)
    requires |s| == 4 && FromBytes(s) <= MAX_FRAME_BYTES
    ensures Length(FromBytes(s)) == s
  {
    BytesRoundTrip(s);
  }

  predicate Admissible(payload: seq<Byte>) {
    1 <= |payload| <= MAX_FRAME_BYTES
  }

  function Frame(payload: seq<Byte>): seq<Byte>
    requires Admissible(payload)
  {
    Length(|payload|) + payload
  }

  function Stream(payloads: seq<seq<Byte>>): seq<Byte>
    requires forall p :: p in payloads ==> Admissible(p)
  {
    if payloads == [] then [] else Frame(payloads[0]) + Stream(payloads[1..])
  }

  /** What is left of a stream: bytes of an unfinished frame, or a header that is refused. */
  datatype Rest = Partial(bytes: seq<Byte>) | Failed(error: FrameError, bytes: seq<Byte>)

  datatype Decoded = Decoded(frames: seq<seq<Byte>>, rest: Rest)

  function Prepend(frames: seq<seq<Byte>>, d: Decoded): Decoded {
    Decoded(frames + d.frames, d.rest)
  }

  /** Everything a byte stream says. */
  function Parse(s: seq<Byte>): Decoded
    decreases |s|
  {
    if |s| < 4 then Decoded([], Partial(s))
    else
      var length := FromBytes(s[..4]);
      if length == 0 then Decoded([], Failed(Empty, s))
      else if length > MAX_FRAME_BYTES then Decoded([], Failed(Oversized(length), s))
      else if |s| < 4 + length then Decoded([], Partial(s))
      else Prepend([s[4..4 + length]], Parse(s[4 + length..]))
  }

  /** A frame at the front of a stream is read back and the rest is read as if alone. */
  lemma ParseFrame(payload: seq<Byte>, s: seq<Byte>)
    requires Admissible(payload)
    ensures Parse(Frame(payload) + s) == Prepend([payload], Parse(s))
  {
    var stream := Frame(payload) + s;
    assert stream[..4] == Length(|payload|);
    assert stream[4..4 + |payload|] == payload;
    assert stream[4 + |payload|..] == s;
  }

  lemma RefusedHeader(header: seq<Byte>, s: seq<Byte>)
    requires |header| == 4 && (FromBytes(header) == 0 || FromBytes(header) > MAX_FRAME_BYTES)
    ensures Parse(header + s).rest.Failed?
    ensures Parse(header + s).rest.error == if FromBytes(header) == 0 then Empty else Oversized(FromBytes(header))
  {
    assert (header + s)[..4] == header;
  }

  /** A whole frame stands at the front. */
  predicate Complete(s: seq<Byte>) {
    |s| >= 4 && 0 < FromBytes(s[..4]) <= MAX_FRAME_BYTES && |s| >= 4 + FromBytes(s[..4])
  }

  function First(s: seq<Byte>): seq<Byte>
    requires Complete(s)
  {
    s[4..4 + FromBytes(s[..4])]
  }

  function After(s: seq<Byte>): (r: seq<Byte>)
    requires Complete(s)
    ensures |r| < |s|
  {
    s[4 + FromBytes(s[..4])..]
  }

  lemma SameHeader(s: seq<Byte>, t: seq<Byte>)
    requires |s| >= 4
    ensures (s + t)[..4] == s[..4]
  {
  }

  /** A whole frame at the front is read first, whatever is appended. */
  lemma CompleteStays(s: seq<Byte>, t: seq<Byte>)
    requires Complete(s)
    ensures Complete(s + t) && First(s + t) == First(s) && After(s + t) == After(s) + t
    ensures Parse(s) == Prepend([First(s)], Parse(After(s)))
    ensures Parse(s + t) == Prepend([First(s)], Parse(After(s) + t))
  {
    hide FromBytes;
    SameHeader(s, t);
    OneFrame(s);
    OneFrame(s + t);
  }

  lemma OneFrame(s: seq<Byte>)
    requires Complete(s)
    ensures Parse(s) == Prepend([First(s)], Parse(After(s)))
  {
    hide FromBytes;
  }

  lemma Incomplete(s: seq<Byte>)
    requires !Complete(s)
    ensures Parse(s).frames == [] && Parse(s).rest.bytes == s
  {
    hide FromBytes;
  }

  lemma RefusalStays(s: seq<Byte>, t: seq<Byte>)
    requires !Complete(s) && Parse(s).rest.Failed?
    ensures |s| >= 4 && Parse(s + t) == Decoded([], Failed(Parse(s).rest.error, s + t))
  {
    hide FromBytes;
    SameHeader(s, t);
  }

  /** Reading everything at once or first a part gives the same frames and rest. */
  lemma {:induction false} ParseSplit(s: seq<Byte>, t: seq<Byte>)
    requires Parse(s).rest.Partial?
    ensures Parse(s + t) == Prepend(Parse(s).frames, Parse(Parse(s).rest.bytes + t))
    decreases |s|
  {
    hide Parse, First, After;
    if Complete(s) {
      var front, after := First(s), After(s);
      CompleteStays(s, t);
      ParseSplit(after, t);
      var d := Parse(Parse(after).rest.bytes + t);
      assert [front] + (Parse(after).frames + d.frames) == ([front] + Parse(after).frames) + d.frames;
    } else {
      Incomplete(s);
      assert [] + Parse(s + t).frames == Parse(s + t).frames;
    }
  }

  /** A refused header stays refused whatever follows. */
  lemma {:induction false} FailureIsFinal(s: seq<Byte>, t: seq<Byte>)
    requires Parse(s).rest.Failed?
    ensures Parse(s + t).frames == Parse(s).frames
    ensures Parse(s + t).rest == Failed(Parse(s).rest.error, Parse(s).rest.bytes + t)
    decreases |s|
  {
    hide Parse, First, After;
    if Complete(s) {
      CompleteStays(s, t);
      FailureIsFinal(After(s), t);
    } else {
      Incomplete(s);
      RefusalStays(s, t);
    }
  }

  /** What is left is always shorter than the largest frame. */
  lemma {:induction false} RestIsShort(s: seq<Byte>)
    requires Parse(s).rest.Partial?
    ensures |Parse(s).rest.bytes| < 4 + MAX_FRAME_BYTES
    decreases |s|
  {
    if |s| >= 4 && |s| >= 4 + FromBytes(s[..4]) {
      RestIsShort(s[4 + FromBytes(s[..4])..]);
    }
  }

  /** Decoding inverts encoding. */
  lemma {:induction false} StreamRoundTrip(payloads: seq<seq<Byte>>)
    requires forall p :: p in payloads ==> Admissible(p)
    ensures Parse(Stream(payloads)) == Decoded(payloads, Partial([]))
    decreases |payloads|
  {
    if payloads != [] {
      StreamRoundTrip(payloads[1..]);
      ParseFrame(payloads[0], Stream(payloads[1..]));
      assert payloads == [payloads[0]] + payloads[1..];
    }
  }

  function Concat(chunks: seq<seq<Byte>>): seq<Byte> {
    if chunks == [] then [] else chunks[0] + Concat(chunks[1..])
  }

  /** A decoder holding `pending` that is fed chunk by chunk. A failing call drops the
      frames it had completed, and nothing is fed after it. */
  function Fed(pending: seq<Byte>, chunks: seq<seq<Byte>>): Decoded
    decreases |chunks|
  {
    if chunks == [] then Decoded([], Partial(pending))
    else
      var d := Parse(pending + chunks[0]);
      if d.rest.Failed? then Decoded([], d.rest)
      else Prepend(d.frames, Fed(d.rest.bytes, chunks[1..]))
  }

  /** One call of a run. */
  lemma FedOn(pending: seq<Byte>, chunks: seq<seq<Byte>>, i: nat)
    requires i < |chunks|
    ensures var d := Parse(pending + chunks[i]);
            Fed(pending, chunks[i..])
            == if d.rest.Failed? then Decoded([], d.rest) else Prepend(d.frames, Fed(d.rest.bytes, chunks[i + 1..]))
  {
    hide Parse;
    assert chunks[i..][0] == chunks[i] && chunks[i..][1..] == chunks[i + 1..];
  }

  lemma NothingFedOn(pending: seq<Byte>, chunks: seq<seq<Byte>>)
    ensures Fed(pending, chunks[|chunks|..]) == Decoded([], Partial(pending))
  {
    assert chunks[|chunks|..] == [];
  }

  lemma PrependNothing(d: Decoded)
    ensures Prepend([], d) == d
  {
    assert [] + d.frames == d.frames;
  }

  lemma PrependTwice(a: seq<seq<Byte>>, b: seq<seq<Byte>>, d: Decoded)
    ensures Prepend(a, Prepend(b, d)) == Prepend(a + b, d)
  {
    assert a + (b + d.frames) == (a + b) + d.frames;
  }

  /** However a stream is cut into chunks: it fails with the same error or leaves the
      same bytes, and unless it fails it yields the same frames. */
  lemma {:induction false} CutsDoNotMatter(pending: seq<Byte>, chunks: seq<seq<Byte>>)
    requires Parse(pending) == Decoded([], Partial(pending))
    ensures var whole, fed := Parse(pending + Concat(chunks)), Fed(pending, chunks);
            && (whole.rest.Partial? ==> fed == whole)
            && (whole.rest.Failed? ==>
                fed.rest.Failed? && fed.rest.error == whole.rest.error && fed.frames <= whole.frames)
    decreases |chunks|
  {
    if chunks == [] {
      assert pending + [] == pending;
    } else {
      var first, rest := pending + chunks[0], Concat(chunks[1..]);
      assert pending + Concat(chunks) == first + rest;
      var d := Parse(first);
      if d.rest.Failed? {
        FailureIsFinal(first, rest);
      } else {
        ParseSplit(first, rest);
        RestParses(first);
        CutsDoNotMatter(d.rest.bytes, chunks[1..]);
      }
    }
  }

  /** Of a malformed stream, how much is delivered before the error depends on the cut:
      the frames completed in the failing call are dropped. */
  lemma MalformedStreamsDependOnTheCut(payload: seq<Byte>, header: seq<Byte>)
    requires Admissible(payload) && |header| == 4 && FromBytes(header) == 0
    ensures Fed([], [Frame(payload) + header]) == Decoded([], Failed(Empty, header))
    ensures Fed([], [Frame(payload), header]) == Decoded([payload], Failed(Empty, header))
  {
    hide FromBytes, Frame;
    ParseFrame(payload, header);
    assert header[..4] == header;
    assert Parse(header) == Decoded([], Failed(Empty, header));
    assert [] + (Frame(payload) + header) == Frame(payload) + header;
    ParseFrame(payload, []);
    assert Frame(payload) + [] == Frame(payload) && [] + Frame(payload) == Frame(payload) && [] + header == header;
    var chunks := [Frame(payload), header];
    assert chunks[1..] == [header];
    assert Fed([], chunks[1..]) == Decoded([], Failed(Empty, header));
  }

  /** The frames in front of a rest take up the bytes before it. */
  lemma {:induction false} FramesComeFirst(s: seq<Byte>)
    ensures var d := Parse(s);
            && |d.rest.bytes| <= |s| && (d.frames == [] ==> d.rest.bytes == s)
            && (d.frames != [] ==> |s| >= 4 && 4 + FromBytes(s[..4]) + |d.rest.bytes| <= |s|)
            && (d.rest.Failed? ==> |d.rest.bytes| >= 4)
    decreases |s|
  {
    hide FromBytes;
    if |s| >= 4 && 0 < FromBytes(s[..4]) <= MAX_FRAME_BYTES && |s| >= 4 + FromBytes(s[..4]) {
      FramesComeFirst(s[4 + FromBytes(s[..4])..]);
    }
  }

  /** Where a stream's refused header starts. */
  function RefusedAt(pending: seq<Byte>, chunks: seq<seq<Byte>>): (n: nat)
    ensures n <= |pending| + |Concat(chunks)|
  {
    FramesComeFirst(pending + Concat(chunks));
    |pending| + |Concat(chunks)| - |Parse(pending + Concat(chunks)).rest.bytes|
  }

  /** Some cut of the stream falls at byte `n` or within the three bytes after it. */
  ghost predicate CutWithin(pending: seq<Byte>, chunks: seq<seq<Byte>>, n: nat) {
    exists k :: 0 <= k <= |chunks| && n <= CutAt(pending, chunks, k) < n + 4
  }

  function CutAt(pending: seq<Byte>, chunks: seq<seq<Byte>>, k: nat): nat
    requires k <= |chunks|
  {
    |pending| + |Concat(chunks[..k])|
  }

  /** An unfinished frame held back before a refused stream began ends after what is held. */
  lemma HeldBeforeFrames(pending: seq<Byte>, t: seq<Byte>)
    requires Parse(pending) == Decoded([], Partial(pending)) && Parse(pending + t).frames != []
    ensures |pending| + |Parse(pending + t).rest.bytes| < |pending + t|
  {
    hide FromBytes;
    var s := pending + t;
    FramesComeFirst(s);
    if |pending| >= 4 { SameHeader(pending, t); }
  }

  /** Bytes held back in front of a refused header are fewer than a header. */
  lemma HeldInHeader(pending: seq<Byte>, t: seq<Byte>)
    requires Parse(pending) == Decoded([], Partial(pending)) && Parse(pending + t).rest.Failed?
    requires Parse(pending + t).frames == []
    ensures |pending| < 4 && Parse(pending + t).rest.bytes == pending + t
  {
    hide FromBytes;
    FramesComeFirst(pending + t);
    if |pending| >= 4 { SameHeader(pending, t); }
  }

  lemma NothingFed(pending: seq<Byte>)
    ensures pending + Concat([]) == pending
  {
  }

  /** Of a malformed stream no frame is lost exactly when there is none, or some cut
      falls at the start of the refused header or inside it. */
  lemma {:induction false} NothingLostMeans(pending: seq<Byte>, chunks: seq<seq<Byte>>)
    requires Parse(pending) == Decoded([], Partial(pending)) && Parse(pending + Concat(chunks)).rest.Failed?
    ensures var whole := Parse(pending + Concat(chunks));
            Fed(pending, chunks).frames == whole.frames <==>
                whole.frames == [] || CutWithin(pending, chunks, RefusedAt(pending, chunks))
    decreases |chunks|
  {
    hide Parse, CutWithin;
    NothingFed(pending);
    if chunks != [] {
      var first, rest := pending + chunks[0], Concat(chunks[1..]);
      assert pending + Concat(chunks) == first + rest;
      if Parse(first).rest.Failed? {
        LostAtOnce(pending, chunks);
      } else {
        ParseSplit(first, rest);
        RestParses(first);
        NothingLostMeans(Parse(first).rest.bytes, chunks[1..]);
        LostLater(pending, chunks);
        CutsDoNotMatter(Parse(first).rest.bytes, chunks[1..]);
      }
    }
  }

  /** The first chunk completes the refused header. */
  lemma LostAtOnce(pending: seq<Byte>, chunks: seq<seq<Byte>>)
    requires Parse(pending) == Decoded([], Partial(pending)) && chunks != [] && Parse(pending + chunks[0]).rest.Failed?
    ensures Parse(pending + Concat(chunks)).frames == Parse(pending + chunks[0]).frames
    ensures Parse(pending + chunks[0]).frames != [] ==> !CutWithin(pending, chunks, RefusedAt(pending, chunks))
  {
    hide Parse;
    var first, rest := pending + chunks[0], Concat(chunks[1..]);
    assert pending + Concat(chunks) == first + rest;
    FailureIsFinal(first, rest);
    FramesComeFirst(first);
    if Parse(first).frames != [] {
      HeldBeforeFrames(pending, chunks[0]);
      var n := RefusedAt(pending, chunks);
      forall k | 0 <= k <= |chunks| ensures !(n <= CutAt(pending, chunks, k) < n + 4) {
        if k == 0 {
          assert chunks[..0] == [];
        } else {
          FirstCut(pending, chunks, k);
        }
      }
    }
  }

  lemma FirstCut(pending: seq<Byte>, chunks: seq<seq<Byte>>, k: nat)
    requires 0 < k <= |chunks|
    ensures CutAt(pending, chunks, k) == |pending + chunks[0]| + |Concat(chunks[1..][..k - 1])|
  {
    assert chunks[..k][0] == chunks[0] && chunks[..k][1..] == chunks[1..][..k - 1];
  }

  /** The first chunk leaves bytes of an unfinished frame or header behind. */
  lemma LostLater(pending: seq<Byte>, chunks: seq<seq<Byte>>)
    requires Parse(pending) == Decoded([], Partial(pending)) && Parse(pending + Concat(chunks)).rest.Failed?
    requires chunks != [] && Parse(pending + chunks[0]).rest.Partial?
    ensures var d, whole := Parse(pending + chunks[0]), Parse(pending + Concat(chunks));
            var later := Parse(d.rest.bytes + Concat(chunks[1..]));
            && later.rest.Failed? && whole.frames == d.frames + later.frames
            && (whole.frames != [] ==>
                  (CutWithin(pending, chunks, RefusedAt(pending, chunks))
                   <==>
                   later.frames == [] || CutWithin(d.rest.bytes, chunks[1..], RefusedAt(d.rest.bytes, chunks[1..]))))
  {
    hide Parse, CutWithin;
    var first, rest := pending + chunks[0], Concat(chunks[1..]);
    assert pending + Concat(chunks) == first + rest;
    var d := Parse(first);
    ParseSplit(first, rest);
    RestParses(first);
    FramesComeFirst(first);
    var held := d.rest.bytes;
    var n, m := RefusedAt(pending, chunks), RefusedAt(held, chunks[1..]);
    assert n - m == |first| - |held|;
    if Parse(first + rest).frames != [] {
      HeldBeforeFrames(pending, chunks[0] + rest);
      assert pending + (chunks[0] + rest) == first + rest;
      SameCuts(pending, chunks, held, n, m);
      if Parse(held + rest).frames == [] {
        HeldInHeader(held, rest);
        CutHere(held, chunks[1..], m);
      }
    }
  }

  lemma CutHere(pending: seq<Byte>, chunks: seq<seq<Byte>>, n: nat)
    requires n <= |pending| < n + 4
    ensures CutWithin(pending, chunks, n)
  {
    assert chunks[..0] == [];
    assert CutAt(pending, chunks, 0) == |pending|;
  }

  /** The cuts of what is left are the later cuts of the whole. */
  lemma SameCuts(pending: seq<Byte>, chunks: seq<seq<Byte>>, held: seq<Byte>, n: nat, m: nat)
    requires chunks != [] && n - m == |pending + chunks[0]| - |held| && |pending| < n
    ensures CutWithin(pending, chunks, n) <==> CutWithin(held, chunks[1..], m)
  {
    hide Concat;
    if CutWithin(pending, chunks, n) {
      var k :| 0 <= k <= |chunks| && n <= CutAt(pending, chunks, k) < n + 4;
      if k == 0 { NoCut(pending, chunks); }
      FirstCut(pending, chunks, k);
      assert m <= CutAt(held, chunks[1..], k - 1) < m + 4;
    }
    if CutWithin(held, chunks[1..], m) {
      var k :| 0 <= k <= |chunks[1..]| && m <= CutAt(held, chunks[1..], k) < m + 4;
      FirstCut(pending, chunks, k + 1);
      assert n <= CutAt(pending, chunks, k + 1) < n + 4;
    }
  }

  lemma NoCut(pending: seq<Byte>, chunks: seq<seq<Byte>>)
    ensures CutAt(pending, chunks, 0) == |pending|
  {
    assert chunks[..0] == [];
  }

  lemma {:induction false} RestParses(s: seq<Byte>)
    requires Parse(s).rest.Partial?
    ensures Parse(Parse(s).rest.bytes) == Decoded([], Partial(Parse(s).rest.bytes))
    decreases |s|
  {
    if |s| >= 4 && |s| >= 4 + FromBytes(s[..4]) {
      RestParses(s[4 + FromBytes(s[..4])..]);
    }
  }

  /** Any payloads, however their encodings are cut, arrive as they were sent and leave nothing behind. */
  lemma EveryCutDelivers(payloads: seq<seq<Byte>>, chunks: seq<seq<Byte>>)
    requires forall p :: p in payloads ==> Admissible(p)
    requires Concat(chunks) == Stream(payloads)
    ensures Fed([], chunks) == Decoded(payloads, Partial([]))
  {
    StreamRoundTrip(payloads);
    assert [] + Concat(chunks) == Concat(chunks);
    CutsDoNotMatter([], chunks);
  }

  /** A frame is delivered no later than its last byte: after any part of a stream,
      exactly the payloads whose frames have arrived in full have been delivered. */
  lemma {:induction false} DeliveredInTime(payloads: seq<seq<Byte>>, n: nat, part: seq<Byte>)
    requires forall p :: p in payloads ==> Admissible(p)
    requires n <= |payloads| && part <= Stream(payloads[n..]) && (n < |payloads| ==> |part| < 4 + |payloads[n]|)
    ensures Parse(Stream(payloads[..n]) + part) == Decoded(payloads[..n], Partial(part))
    decreases n
  {
    hide *;
    if n == 0 {
      UnfinishedFrame(payloads, part);
      assert Stream(payloads[..0]) + part == part by { NothingSent(); }
      assert payloads[..0] == [] && payloads[0..] == payloads;
    } else {
      var rest := payloads[1..];
      assert rest[n - 1..] == payloads[n..];
      DeliveredInTime(rest, n - 1, part);
      var sent := Stream(rest[..n - 1]) + part;
      ParseFrame(payloads[0], sent);
      assert payloads[..n] == [payloads[0]] + rest[..n - 1];
      OneMore(payloads[0], rest[..n - 1], part);
      PrependIs([payloads[0]], rest[..n - 1], part);
    }
  }

  lemma NothingSent()
    ensures Stream([]) == []
  {
  }

  lemma OneMore(first: seq<Byte>, rest: seq<seq<Byte>>, part: seq<Byte>)
    requires Admissible(first) && forall p :: p in rest ==> Admissible(p)
    ensures Stream([first] + rest) + part == Frame(first) + (Stream(rest) + part)
  {
    assert ([first] + rest)[1..] == rest;
  }

  lemma PrependIs(frames: seq<seq<Byte>>, more: seq<seq<Byte>>, part: seq<Byte>)
    ensures Prepend(frames, Decoded(more, Partial(part))) == Decoded(frames + more, Partial(part))
  {
  }

  lemma UnfinishedFrame(payloads: seq<seq<Byte>>, part: seq<Byte>)
    requires forall p :: p in payloads ==> Admissible(p)
    requires part <= Stream(payloads) && (payloads != [] ==> |part| < 4 + |payloads[0]|)
    ensures Parse(part) == Decoded([], Partial(part))
  {
    hide FromBytes;
    if payloads != [] && |part| >= 4 {
      assert part[..4] == (Frame(payloads[0]) + Stream(payloads[1..]))[..4] == Length(|payloads[0]|);
    }
  }
}
