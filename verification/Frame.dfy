/** The Rust encoder and incremental decoder (crates/workflow-ipc/src/frame.rs:39-129). */
module Framing {
  import opened Wrappers
  import opened Bytes
  import opened FrameSpec

  method EncodeFrame(payload: seq<Byte>) returns (r: Result<seq<Byte>, FrameError>)
    ensures r.Success? <==> Admissible(payload)
    ensures r.Success? ==> forall s :: Parse(r.value + s) == Prepend([payload], Parse(s))
    ensures r.Failure? ==> r.error == if payload == [] then Empty else Oversized(|payload|)
  {
    if payload == [] { return Failure(Empty); }
    if |payload| > MAX_FRAME_BYTES { return Failure(Oversized(|payload|)); }
    forall s ensures Parse(Frame(payload) + s) == Prepend([payload], Parse(s)) {
      ParseFrame(payload, s);
    }
    return Success(Length(|payload|) + payload);
  }

  datatype DecodeState =
    | Header(bytes: seq<Byte>, filled: nat)
    | Payload(payload: seq<Byte>, length: nat)
    | Closed

  class FrameDecoder {
    var state: DecodeState

    constructor ()
      ensures Valid() && !state.Closed? && Pending() == []
    {
      state := Header([0, 0, 0, 0], 0);
    }

    predicate Valid()
      reads this
    {
      match state
      case Header(bytes, filled) => |bytes| == 4 && filled < 4
      case Payload(payload, length) => |payload| < length <= MAX_FRAME_BYTES
      case Closed => true
    }

    /** The bytes of the unfinished frame. */
    function Pending(): seq<Byte>
      requires Valid() && !state.Closed?
      reads this
    {
      match state
      case Header(bytes, filled) => bytes[..filled]
      case Payload(payload, length) => Length(length) + payload
    }

    /** `feed`: what the stream so far says, and a closed decoder stays closed. */
    method Feed(input: seq<Byte>) returns (r: Result<seq<seq<Byte>>, FrameError>)
      requires Valid()
      modifies this
      ensures Valid()
      ensures old(state).Closed? ==> state.Closed? && r == if input == [] then Success([]) else Failure(Poisoned)
      ensures !old(state).Closed? ==> Agrees(r, Parse(old(Pending()) + input))
    {
      hide FromBytes, Length, Parse;
      if state.Closed? {
        return if input == [] then Success([]) else Failure(Poisoned);
      }
      ghost var whole := Parse(Pending() + input);
      var rest, complete: seq<seq<Byte>> := input, [];
      while rest != []
        invariant Valid() && !state.Closed? && whole == Prepend(complete, Parse(Pending() + rest))
        decreases |rest|
      {
        match state {
          case Header(bytes, filled) =>
            var copied := if 4 - filled <= |rest| then 4 - filled else |rest|;
            var now := bytes[..filled] + rest[..copied] + bytes[filled + copied..];
            assert Pending() + rest == now[..filled + copied] + rest[copied..];
            rest := rest[copied..];
            if filled + copied < 4 {
              state := Header(now, filled + copied);
            } else {
              assert now[..4] == now;
              var length := FromBytes(now);
              if length == 0 {
                RefusedHeader(now, rest);
                state := Closed;
                return Failure(Empty);
              }
              if length > MAX_FRAME_BYTES {
                RefusedHeader(now, rest);
                state := Closed;
                return Failure(Oversized(length));
              }
              LengthRoundTrip(now);
              state := Payload([], length);
              assert Pending() == now;
            }
          case Payload(payload, length) =>
            var copied := if length - |payload| <= |rest| then length - |payload| else |rest|;
            var now := payload + rest[..copied];
            assert Pending() + rest == Length(length) + now + rest[copied..];
            rest := rest[copied..];
            if |now| == length {
              ParseFrame(now, rest);
              assert complete + ([now] + Parse(rest).frames) == (complete + [now]) + Parse(rest).frames;
              complete := complete + [now];
              state := Header([0, 0, 0, 0], 0);
              assert Pending() + rest == rest;
            } else {
              state := Payload(now, length);
            }
        }
      }
      PendingParses();
      assert Pending() + rest == Pending() && complete + [] == complete;
      return Success(complete);
    }

    /** The result of a call and the state after it are those of `d`. */
    ghost predicate Agrees(r: Result<seq<seq<Byte>>, FrameError>, d: Decoded)
      requires Valid()
      reads this
    {
      match d.rest
      case Partial(bytes) => r == Success(d.frames) && !state.Closed? && Pending() == bytes
      case Failed(error, _) => r == Failure(error) && state.Closed?
    }

    lemma PendingParses()
      requires Valid() && !state.Closed?
      ensures Parse(Pending()) == Decoded([], Partial(Pending()))
    {
      match state {
        case Header(_, _) =>
        case Payload(payload, length) => assert (Length(length) + payload)[..4] == Length(length);
      }
    }

    /** A connection read chunk by chunk until it ends or breaks the protocol. */
    method Receive(chunks: seq<seq<Byte>>) returns (frames: seq<seq<Byte>>, error: Option<FrameError>)
      requires Valid() && !state.Closed?
      modifies this
      ensures Valid()
      ensures var fed := Fed(old(Pending()), chunks);
              && frames == fed.frames
              && match fed.rest {
                   case Partial(bytes) => error == None && !state.Closed? && Pending() == bytes
                   case Failed(e, _) => error == Some(e) && state.Closed?
                 }
    {
      hide FromBytes, Length, Parse, Fed;
      frames := [];
      ghost var all := Fed(Pending(), chunks);
      assert chunks[0..] == chunks;
      PrependNothing(all);
      for i := 0 to |chunks|
        invariant Valid() && !state.Closed? && all == Prepend(frames, Fed(Pending(), chunks[i..]))
      {
        FedOn(Pending(), chunks, i);
        var r := Feed(chunks[i]);
        match r {
          case Success(more) =>
            PrependTwice(frames, more, Fed(Pending(), chunks[i + 1..]));
            frames := frames + more;
          case Failure(e) =>
            return frames, Some(e);
        }
      }
      error := None;
      NothingFedOn(Pending(), chunks);
    }
  }
}

/** The TypeScript decoder of the same format (packages/opencode-cycle/src/client.ts:1314-1346). */
module ClientFraming {
  import opened Wrappers
  import opened Bytes
  import opened FrameSpec

  datatype ControlPlaneError = InvalidSize

  method EncodeFrame(payload: seq<Byte>) returns (r: Result<seq<Byte>, ControlPlaneError>)
    ensures r.Success? <==> Admissible(payload)
    ensures r.Success? ==> forall s :: Parse(r.value + s) == Prepend([payload], Parse(s))
  {
    if |payload| == 0 || |payload| > MAX_FRAME_BYTES { return Failure(InvalidSize); }
    forall s ensures Parse(Frame(payload) + s) == Prepend([payload], Parse(s)) {
      ParseFrame(payload, s);
    }
    return Success(Length(|payload|) + payload);
  }

  class FrameDecoder {
    var buffer: seq<Byte>

    constructor ()
      ensures buffer == []
    {
      buffer := [];
    }

    /** `feed`. The limit on the buffer after the loop is never exceeded. */
    method Feed(chunk: seq<Byte>) returns (r: Result<seq<seq<Byte>>, ControlPlaneError>)
      modifies this
      ensures var d := Parse(old(buffer) + chunk);
              && buffer == d.rest.bytes
              && (d.rest.Partial? ==> r == Success(d.frames) && |buffer| < MAX_FRAME_BYTES + 4)
              && (d.rest.Failed? ==> r == Failure(InvalidSize))
    {
      buffer := buffer + chunk;
      ghost var whole := Parse(buffer);
      var messages: seq<seq<Byte>> := [];
      while |buffer| >= 4
        invariant whole == Prepend(messages, Parse(buffer))
        decreases |buffer|
      {
        var length := FromBytes(buffer[..4]);
        if length == 0 || length > MAX_FRAME_BYTES { return Failure(InvalidSize); }
        if |buffer| < 4 + length { break; }
        var payload := buffer[4..4 + length];
        assert messages + ([payload] + Parse(buffer[4 + length..]).frames)
               == (messages + [payload]) + Parse(buffer[4 + length..]).frames;
        buffer := buffer[4 + length..];
        messages := messages + [payload];
      }
      assert messages + [] == messages;
      if |buffer| > MAX_FRAME_BYTES + 4 {
        assert false;
      }
      return Success(messages);
    }
  }
}

/** Both decoders at the two ends of connections that carry the same bytes. */
module FramingAgreement {
  import opened Bytes
  import opened FrameSpec
  import Client = ClientFraming
  import Server = Framing

  /** Fed the same chunks, both yield the same frames and hold the same rest, or both
      refuse the same stream; on the encodings of admissible payloads they yield those. */
  method ReceiveBoth(server: Server.FrameDecoder, client: Client.FrameDecoder, chunks: seq<seq<Byte>>,
                     ghost payloads: seq<seq<Byte>>)
    returns (frames: seq<seq<Byte>>, messages: seq<seq<Byte>>, refused: bool)
    requires server.Valid() && !server.state.Closed? && server.Pending() == client.buffer == []
    requires forall p :: p in payloads ==> Admissible(p)
    modifies server, client
    ensures server.Valid() && frames == messages && (refused <==> server.state.Closed?)
    ensures !refused ==> server.Pending() == client.buffer
    ensures Concat(chunks) == Stream(payloads) ==> !refused && frames == payloads && client.buffer == []
  {
    hide Parse, Fed, Stream, Concat, Admissible;
    frames, messages, refused := [], [], false;
    ghost var all := Fed([], chunks);
    if Concat(chunks) == Stream(payloads) { EveryCutDelivers(payloads, chunks); }
    assert chunks[0..] == chunks;
    PrependNothing(all);
    for i := 0 to |chunks|
      invariant server.Valid() && !server.state.Closed? && server.Pending() == client.buffer
      invariant frames == messages && all == Prepend(frames, Fed(client.buffer, chunks[i..]))
    {
      FedOn(client.buffer, chunks, i);
      var there := server.Feed(chunks[i]);
      var here := client.Feed(chunks[i]);
      if there.Failure? {
        refused := true;
        return;
      }
      PrependTwice(frames, there.value, Fed(client.buffer, chunks[i + 1..]));
      frames, messages := frames + there.value, messages + here.value;
    }
    NothingFedOn(client.buffer, chunks);
  }
}
