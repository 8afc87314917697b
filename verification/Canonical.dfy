/** `CanonicalHasher` (crates/workflow-core/src/digest.rs:111-153): self-delimiting fields. */
module Canonical {
  import opened Bytes
  import opened Wrappers

  /** Bytes held in memory, whose length fits in a `u64`. */
  type Text = s: seq<Byte> | |s| < 0x1_0000_0000_0000_0000

  /** Their fixed widths play no part in what follows. */
  type Digest = Text
  type Uuid = Text

  type U64 = n: nat | n < 0x1_0000_0000_0000_0000

  /** The bytes of an ASCII literal. */
  function Ascii(s: string): (t: seq<Byte>)
    ensures |t| == |s|
  {
    seq(|s|, i requires 0 <= i < |s| => Code(s[i]))
  }

  function Code(c: char): Byte {
    c as int % 256
  }

  function Number(n: U64): (s: seq<Byte>)
    ensures |s| == 8
  {
    Widths();
    ToBytes(n, 8)
  }

  function Field(value: Text): seq<Byte> {
    Number(|value|) + value
  }

  function Flag(b: bool): seq<Byte> {
    [if b then 1 else 0]
  }

  function Optional(value: Option<Text>): seq<Byte> {
    match value
    case None => Flag(false)
    case Some(v) => Flag(true) + Field(v)
  }

  function Fields(values: seq<Text>): seq<Byte> {
    if values == [] then [] else Field(values[0]) + Fields(values[1..])
  }

  /** What is written first is read first: the encodings of a number, a field, an
      optional field and a known number of fields end where they say. */
  lemma NumberEnds(m: U64, n: U64, s: seq<Byte>, t: seq<Byte>)
    requires Number(m) + s == Number(n) + t
    ensures m == n && s == t
  {
    assert Number(m) == (Number(m) + s)[..8] == (Number(n) + t)[..8] == Number(n);
    Widths();
    assert FromBytes(Number(m)) == m && FromBytes(Number(n)) == n;
    assert s == (Number(m) + s)[8..] && t == (Number(n) + t)[8..];
  }

  lemma FieldEnds(v: Text, w: Text, s: seq<Byte>, t: seq<Byte>)
    requires Field(v) + s == Field(w) + t
    ensures v == w && s == t
  {
    hide Number;
    assert Field(v) + s == Number(|v|) + (v + s);
    assert Field(w) + t == Number(|w|) + (w + t);
    NumberEnds(|v|, |w|, v + s, w + t);
    assert v == (v + s)[..|v|] && s == (v + s)[|v|..];
  }

  lemma FlagEnds(a: bool, b: bool, s: seq<Byte>, t: seq<Byte>)
    requires Flag(a) + s == Flag(b) + t
    ensures a == b && s == t
  {
    assert (Flag(a) + s)[0] == (Flag(b) + t)[0];
    assert s == (Flag(a) + s)[1..] && t == (Flag(b) + t)[1..];
  }

  function Contents(v: Option<Text>): seq<Byte> {
    if v.Some? then Field(v.value) else []
  }

  lemma OptionalEnds(v: Option<Text>, w: Option<Text>, s: seq<Byte>, t: seq<Byte>)
    requires Optional(v) + s == Optional(w) + t
    ensures v == w && s == t
  {
    hide Field, Flag;
    assert Optional(v) + s == Flag(v.Some?) + (Contents(v) + s);
    assert Optional(w) + t == Flag(w.Some?) + (Contents(w) + t);
    FlagEnds(v.Some?, w.Some?, Contents(v) + s, Contents(w) + t);
    if v.Some? {
      FieldEnds(v.value, w.value, s, t);
    } else {
      assert [] + s == s && [] + t == t;
    }
  }

  lemma {:induction false} FieldsEnd(vs: seq<Text>, ws: seq<Text>, s: seq<Byte>, t: seq<Byte>)
    requires |vs| == |ws| && Fields(vs) + s == Fields(ws) + t
    ensures vs == ws && s == t
  {
    hide Field;
    if vs != [] {
      assert Fields(vs) + s == Field(vs[0]) + (Fields(vs[1..]) + s);
      assert Fields(ws) + t == Field(ws[0]) + (Fields(ws[1..]) + t);
      FieldEnds(vs[0], ws[0], Fields(vs[1..]) + s, Fields(ws[1..]) + t);
      FieldsEnd(vs[1..], ws[1..], s, t);
      assert vs == [vs[0]] + vs[1..] && ws == [ws[0]] + ws[1..];
    } else {
      assert [] + s == s && [] + t == t;
    }
  }

  lemma {:induction false} FieldsAppend(values: seq<Text>, v: Text)
    ensures Fields(values + [v]) == Fields(values) + Field(v)
  {
    if values != [] {
      FieldsAppend(values[1..], v);
      assert (values + [v])[1..] == values[1..] + [v];
    } else {
      assert [v][1..] == [];
    }
  }

  /** The hasher: what it has been given so far. */
  class CanonicalHasher {
    var written: seq<Byte>

    constructor (domain: Text)
      ensures written == Field(domain)
    {
      written := Field(domain);
    }

    method WriteBytes(value: Text)
      modifies this
      ensures written == old(written) + Field(value)
    {
      written := written + Number(|value|);
      written := written + value;
    }

    method WriteOptional(value: Option<Text>)
      modifies this
      ensures written == old(written) + Optional(value)
    {
      match value {
        case Some(v) =>
          WriteBool(true);
          WriteBytes(v);
        case None => WriteBool(false);
      }
    }

    method WriteBool(value: bool)
      modifies this
      ensures written == old(written) + Flag(value)
    {
      written := written + [if value then 1 else 0];
    }

    method WriteU64(value: U64)
      modifies this
      ensures written == old(written) + Number(value)
    {
      written := written + Number(value);
    }

    /** The loops that write one field after another. */
    method WriteEach(values: seq<Text>)
      modifies this
      ensures written == old(written) + Fields(values)
    {
      ghost var before := written;
      for i := 0 to |values|
        invariant written == before + Fields(values[..i])
      {
        FieldsAppend(values[..i], values[i]);
        assert values[..i + 1] == values[..i] + [values[i]];
        WriteBytes(values[i]);
      }
      assert values[..|values|] == values;
    }
  }

  // ---- ContentDigest as text (digest.rs:28-66)

  function HexDigit(n: nat): Byte
    requires n < 16
  {
    if n < 10 then 48 + n else 87 + n
  }

  function Show(bytes: seq<Byte>): (s: seq<Byte>)
    ensures |s| == 2 * |bytes|
  {
    if bytes == [] then []
    else Show(bytes[..|bytes| - 1]) + [HexDigit(bytes[|bytes| - 1] / 16), HexDigit(bytes[|bytes| - 1] % 16)]
  }

  predicate IsHex(b: Byte) {
    48 <= b <= 57 || 97 <= b <= 102
  }

  function HexValue(b: Byte): (n: nat)
    requires IsHex(b)
    ensures n < 16 && HexDigit(n) == b
  {
    if b <= 57 then b - 48 else b - 87
  }

  function HexPair(high: Byte, low: Byte): Byte
    requires IsHex(high) && IsHex(low)
  {
    16 * HexValue(high) + HexValue(low)
  }

  lemma ShowAppend(bytes: seq<Byte>, high: Byte, low: Byte)
    requires IsHex(high) && IsHex(low)
    ensures Show(bytes + [HexPair(high, low)]) == Show(bytes) + [high, low]
  {
    assert (bytes + [HexPair(high, low)])[..|bytes|] == bytes;
  }

  lemma {:induction false} ShowIsHex(bytes: seq<Byte>)
    ensures forall b :: b in Show(bytes) ==> IsHex(b)
    decreases |bytes|
  {
    if bytes != [] { ShowIsHex(bytes[..|bytes| - 1]); }
  }

  /** `from_str` accepts exactly the texts `fmt` prints, and reads back what was printed. */
  method ParseDigest(value: seq<Byte>) returns (r: Result<Digest, ()>)
    ensures match r
            case Success(d) => |d| == 32 && Show(d) == value
            case Failure(_) => forall d :: |d| == 32 ==> Show(d) != value
  {
    if |value| != 64 || exists b :: b in value && !IsHex(b) {
      forall d | |d| == 32 ensures Show(d) != value { ShowIsHex(d); }
      return Failure(());
    }
    forall i | 0 <= i < |value| ensures IsHex(value[i]) {
      assert value[i] in value;
    }
    var bytes := ReadPairs(value);
    return Success(bytes[..]);
  }

  method ReadPairs(value: seq<Byte>) returns (bytes: array<Byte>)
    requires |value| == 64 && forall i :: 0 <= i < |value| ==> IsHex(value[i])
    ensures bytes.Length == 32 && Show(bytes[..]) == value
  {
    hide Show, HexPair, IsHex;
    bytes := new Byte[32](_ => 0);
    ShowNothing();
    for i := 0 to 32
      invariant Show(bytes[..i]) == value[..2 * i]
    {
      ghost var done := bytes[..i];
      bytes[i] := HexPair(value[2 * i], value[2 * i + 1]);
      assert bytes[..i + 1] == done + [bytes[i]];
      ShowAppend(done, value[2 * i], value[2 * i + 1]);
      assert value[..2 * (i + 1)] == value[..2 * i] + [value[2 * i], value[2 * i + 1]];
    }
    assert value[..64] == value && bytes[..32] == bytes[..];
  }

  lemma ShowNothing()
    ensures Show([]) == []
  {
  }

  /** Different digests print differently. */
  lemma {:induction false} ShowIsInjective(a: seq<Byte>, b: seq<Byte>)
    requires |a| == |b| && Show(a) == Show(b)
    ensures a == b
    decreases |a|
  {
    if a != [] {
      var s, t := Show(a[..|a| - 1]), Show(b[..|b| - 1]);
      var n := |s|;
      assert s == Show(a)[..n] && t == Show(b)[..n];
      assert Show(a)[n] == Show(b)[n] && Show(a)[n + 1] == Show(b)[n + 1];
      ShowIsInjective(a[..|a| - 1], b[..|b| - 1]);
      assert a == a[..|a| - 1] + [a[|a| - 1]] && b == b[..|b| - 1] + [b[|b| - 1]];
    }
  }
}
