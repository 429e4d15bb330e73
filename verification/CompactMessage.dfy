/** The message header: protocol id, version and message type, sequence id, name. */
module CompactMessage {
  import opened ThriftTypes
  import opened CompactFormat
  import opened CompactRoundTrip

  const PROTOCOL_ID: byte := 0x82
  const VERSION_N: byte := 1
  const T_ONEWAY := 4

  /** `(VERSION_N & VERSION_MASK) | ((type << 5) & TYPE_MASK)`, cut to a byte: three type bits. */
  function VersionAndType(t: nat): (r: byte) { VERSION_N + (t % 8) * 32 }

  function EncMessageBegin(name: seq<byte>, t: nat, seqid: i32): (r: seq<byte>) {
    [PROTOCOL_ID, VersionAndType(t)] + Varint(ToU32(seqid)) + (Varint(|name|) + name)
  }

  datatype MessageBegin = MessageBegin(name: seq<byte>, t: nat, seqid: i32)

  /** `readMessageBegin`, which keeps two type bits: `(versionAndType >> 5) & 0x03`. */
  function ParseMessageBegin(s: seq<byte>, lim: Limits): (r: Parsed<MessageBegin>) {
    if s == [] then Fail(EndOfFile)
    else if s[0] != PROTOCOL_ID then Fail(BadVersion)
    else if |s| < 2 then Fail(EndOfFile)
    else if s[1] % 32 != VERSION_N then Fail(BadVersion)
    else
      match ParseVarint32(s[2..])
      case Fail(e) => Fail(e)
      case Ok(n, s1) =>
        match ParseBinary(s1, lim)
        case Fail(e) => Fail(e)
        case Ok(name, s2) => Ok(MessageBegin(name, s[1] / 32 % 4, ToI32(n)), s2)
  }

  lemma TypeBits(t: nat)
    ensures VersionAndType(t) % 32 == VERSION_N && VersionAndType(t) / 32 % 4 == t % 4
  {
    assert VersionAndType(t) / 32 == t % 8;
  }

  /** Name and sequence id come back, and the message type modulo four. */
  lemma MessageRoundTrip(name: seq<byte>, t: nat, seqid: i32, rest: seq<byte>, lim: Limits)
    requires |name| < TWO_31 && lim.StrOk(|name|)
    ensures ParseMessageBegin(EncMessageBegin(name, t, seqid) + rest, lim) == Ok(MessageBegin(name, t % 4, seqid), rest)
  {
    hide Varint, ParseVarint32, ParseBinary;
    var s := EncMessageBegin(name, t, seqid) + rest;
    var tail := Varint(|name|) + name + rest;
    assert s[2..] == Varint(ToU32(seqid)) + tail;
    Varint32RoundTrip(ToU32(seqid), tail);
    BinaryRoundTrip(name, rest, lim);
    assert s[0] == PROTOCOL_ID && s[1] == VersionAndType(t);
    TypeBits(t);
    hide VersionAndType;
  }

  /** A message header survives the wire exactly when its type is below four. */
  lemma MessageTypeKept(name: seq<byte>, t: nat, seqid: i32, rest: seq<byte>, lim: Limits)
    requires |name| < TWO_31 && lim.StrOk(|name|)
    ensures ParseMessageBegin(EncMessageBegin(name, t, seqid) + rest, lim) == Ok(MessageBegin(name, t, seqid), rest)
       <==> t < 4
  {
    hide EncMessageBegin, ParseMessageBegin;
    MessageRoundTrip(name, t, seqid, rest, lim);
  }

  /** So a one-way call is read as type 0, which is no message type. */
  lemma OneWayIsLost(name: seq<byte>, seqid: i32, rest: seq<byte>, lim: Limits)
    requires |name| < TWO_31 && lim.StrOk(|name|)
    ensures ParseMessageBegin(EncMessageBegin(name, T_ONEWAY, seqid) + rest, lim)
            == Ok(MessageBegin(name, 0, seqid), rest)
  {
    hide EncMessageBegin, ParseMessageBegin;
    MessageRoundTrip(name, T_ONEWAY, seqid, rest, lim);
  }
}
