/** The compact wire format in numbers: the bytes of each type of field, and of a struct that has them all. */
module CompactBytes {
  import opened Arithmetic
  import opened Options
  import opened ThriftTypes
  import opened CompactFormat
  import opened CompactRoundTrip
  import opened CompactMessage
  import ApplicationException
  import CompactSkip

  /** Pieces one after another. */
  function Joined(pieces: seq<seq<byte>>): (r: seq<byte>) {
    if pieces == [] then [] else pieces[0] + Joined(pieces[1..])
  }

  function Before(last: i16, fs: seq<Field>, i: nat): (r: i16)
    requires i < |fs|
  {
    if i == 0 then last else fs[i - 1].id
  }

  /** A struct is its fields one after another, each in view of the id before it, and a zero byte. */
  lemma {:induction false} FieldByField(last: i16, fs: seq<Field>, pieces: seq<seq<byte>>)
    requires |fs| == |pieces| && forall i :: 0 <= i < |fs| ==> EncField(Before(last, fs, i), fs[i]) == pieces[i]
    ensures EncFields(last, fs) == Joined(pieces) + [0]
    decreases |fs|
  {
    hide EncField;
    if fs != [] {
      assert EncField(Before(last, fs, 0), fs[0]) == pieces[0];
      forall i | 0 <= i < |fs| - 1 ensures EncField(Before(fs[0].id, fs[1..], i), fs[1..][i]) == pieces[1..][i] {
        assert EncField(Before(last, fs, i + 1), fs[i + 1]) == pieces[i + 1];
      }
      FieldByField(fs[0].id, fs[1..], pieces[1..]);
      assert pieces[0] + (Joined(pieces[1..]) + [0]) == pieces[0] + Joined(pieces[1..]) + [0];
    }
  }

  lemma Scalars()
    ensures Varint(ZigZag32(-2)) == [0x03] && Varint(ZigZag32(100)) == [0xc8, 0x01] && Varint(ZigZag64(-1)) == [0x01]
    ensures Varint(ZigZag32(20)) == [0x28] && Varint(ZigZag32(1)) == [0x02] && Varint(ZigZag32(0)) == [0x00]
    ensures Varint(1) == [0x01] && Varint(2) == [0x02]
  {}

  lemma One()
    ensures LittleEndian(0x3ff0_0000_0000_0000, 8) == [0, 0, 0, 0, 0, 0, 0xf0, 0x3f]
  {}

  lemma Values()
    ensures Enc(ByteV(-1)) == [0xff] && Enc(I16V(-2)) == [0x03] && Enc(I32V(100)) == [0xc8, 0x01]
    ensures Enc(I64V(-1)) == [0x01] && Enc(StrV([0x68, 0x69])) == [0x02, 0x68, 0x69] && Enc(I32V(0)) == [0x00]
    ensures Enc(DoubleV(0x3ff0_0000_0000_0000)) == [0, 0, 0, 0, 0, 0, 0xf0, 0x3f]
  {
    hide Varint, LittleEndian, ZigZag32, ZigZag64, EncEntries, EncItems, EncFields;
    Scalars();
    One();
  }

  /** Each type of field: the header with its type nibble, by the distance of the ids, and the value. */
  lemma ScalarFields()
    ensures EncField(0, Field(1, BoolV(true))) == [0x11] && EncField(0, Field(1, BoolV(false))) == [0x12]
    ensures EncField(1, Field(2, ByteV(-1))) == [0x13, 0xff]
    ensures EncField(2, Field(3, I16V(-2))) == [0x14, 0x03]
    ensures EncField(3, Field(4, I32V(100))) == [0x15, 0xc8, 0x01]
    ensures EncField(4, Field(5, I64V(-1))) == [0x16, 0x01]
    ensures EncField(5, Field(6, DoubleV(0x3ff0_0000_0000_0000))) == [0x17, 0, 0, 0, 0, 0, 0, 0xf0, 0x3f]
    ensures EncField(6, Field(7, StrV([0x68, 0x69]))) == [0x18, 0x02, 0x68, 0x69]
    ensures EncField(26, Field(20, I32V(0))) == [0x05, 0x28, 0x00]
  {
    hide Enc, Varint, ZigZag32;
    Scalars();
    Values();
  }

  lemma ContainerFields()
    ensures EncField(7, Field(22, ListV(I32, [I32V(1)]))) == [0xf9, 0x15, 0x02]
    ensures EncField(22, Field(24, SetV(Byte, []))) == [0x2a, 0x03]
    ensures EncField(25, Field(26, StructV([Field(1, BoolV(false))]))) == [0x1c, 0x12, 0x00]
  {
    hide Varint, ZigZag32, EncEntries;
    Scalars();
  }

  lemma MapField()
    ensures EncField(24, Field(25, MapV(Str, Bool, [Entry(StrV([0x61]), BoolV(true))])))
         == [0x1b, 0x01, 0x81, 0x01, 0x61, 0x01]
  {
    hide Varint, ZigZag32, EncItems, EncFields;
    Scalars();
  }

  /** A struct with a field of every type, a list 15 ids after the field before it, and an id that goes back. */
  function EveryType(): (r: seq<Field>) {
    [Field(1, BoolV(true)), Field(2, ByteV(-1)), Field(3, I16V(-2)), Field(4, I32V(100)), Field(5, I64V(-1)),
     Field(6, DoubleV(0x3ff0_0000_0000_0000)), Field(7, StrV([0x68, 0x69])), Field(22, ListV(I32, [I32V(1)])),
     Field(24, SetV(Byte, [])), Field(25, MapV(Str, Bool, [Entry(StrV([0x61]), BoolV(true))])),
     Field(26, StructV([Field(1, BoolV(false))])), Field(20, I32V(0))]
  }

  function EveryPiece(): (r: seq<seq<byte>>) {
    [[0x11], [0x13, 0xff], [0x14, 0x03], [0x15, 0xc8, 0x01], [0x16, 0x01], [0x17, 0, 0, 0, 0, 0, 0, 0xf0, 0x3f],
     [0x18, 0x02, 0x68, 0x69], [0xf9, 0x15, 0x02], [0x2a, 0x03], [0x1b, 0x01, 0x81, 0x01, 0x61, 0x01],
     [0x1c, 0x12, 0x00], [0x05, 0x28, 0x00]]
  }

  lemma EveryTypeBytes()
    ensures Enc(StructV(EveryType())) == Joined(EveryPiece()) + [0]
  {
    hide EncField, Joined, EncFields;
    ScalarFields();
    ContainerFields();
    MapField();
    var fs, pieces := EveryType(), EveryPiece();
    forall i | 0 <= i < |fs| ensures EncField(Before(0, fs, i), fs[i]) == pieces[i] {}
    FieldByField(0, fs, pieces);
  }

  /** A call of "ping" with sequence id 7. */
  lemma MessageBytes()
    ensures EncMessageBegin([0x70, 0x69, 0x6e, 0x67], 1, 7) == [0x82, 0x21, 0x07, 0x04, 0x70, 0x69, 0x6e, 0x67]
  {}

  /** An exception of kind 6 with the text "no". */
  lemma ExceptionBytes()
    ensures Enc(StructV(ApplicationException.Fields(CompactSkip.Exception([0x6e, 0x6f], 6))))
         == [0x18, 0x02, 0x6e, 0x6f, 0x15, 0x0c, 0x00]
  {
    hide Enc, Varint, ZigZag32;
    ApplicationException.FieldsAre(CompactSkip.Exception([0x6e, 0x6f], 6));
    TextAndKind();
  }

  lemma TextAndKind()
    ensures Varint(2) == [0x02] && Varint(ZigZag32(6)) == [0x0c]
  {}

  // ----- what the reader refuses ----------------------------------------------------------

  /** The low seven bits of each byte go on while the high bit is set: ten such bytes are refused, and
      fewer need another. */
  lemma {:induction false} VarintRefused(s: seq<byte>, k: nat)
    requires k < 10
    ensures ParseRawVarint(s, k) == Fail(InvalidData) <==> |s| >= 10 - k && forall i :: 0 <= i < 10 - k ==> s[i] >= 128
    ensures ParseRawVarint(s, k) == Fail(EndOfFile) <==> |s| < 10 - k && forall i :: 0 <= i < |s| ==> s[i] >= 128
    decreases 10 - k
  {
    if s != [] && s[0] >= 128 && k < 9 {
      VarintRefused(s[1..], k + 1);
      assert forall i :: 0 <= i < |s| - 1 ==> s[1..][i] == s[i + 1];
      assert forall i :: 1 <= i < |s| ==> s[i] == s[1..][i - 1];
    }
  }

  /** A string of a given length: what is read, and the three ways to fail. */
  lemma StringDecided(n: u32, rest: seq<byte>, lim: Limits)
    ensures ParseBinary(Varint(n) + rest, lim)
         == if n >= 0x8000_0000 then Fail(NegativeSize)
            else if 0 < lim.str < n then Fail(SizeLimit)
            else if |rest| < n then Fail(EndOfFile)
            else Ok(rest[..n], rest[n..])
  {
    hide Varint, ParseVarint32;
    Varint32RoundTrip(n, rest);
    assert rest[..0] == [] && rest[0..] == rest;
  }

  /** A list or set header with a size in full. */
  lemma ListDecided(c: byte, n: u32, rest: seq<byte>, lim: Limits)
    requires c < 16
    ensures ParseCollectionBegin([0xf0 + c] + Varint(n) + rest, lim)
         == if n >= 0x8000_0000 then Fail(NegativeSize)
            else if lim.container != 0 && n > lim.container then Fail(SizeLimit)
            else if TypeOfCode(c) == None then Fail(UnknownType)
            else Ok(CollectionBegin(TypeOfCode(c).value, n), rest)
  {
    hide Varint, ParseVarint32, TypeOfCode;
    Varint32RoundTrip(n, rest);
    var s := [0xf0 + c] + Varint(n) + rest;
    assert s[1..] == Varint(n) + rest;
    assert s[0] / 16 == 15 && s[0] % 16 == c;
  }

  /** A map header that is not empty. */
  lemma MapDecided(n: u32, k: byte, v: byte, rest: seq<byte>, lim: Limits)
    requires n > 0 && k < 16 && v < 16
    ensures ParseMapBegin(Varint(n) + [16 * k + v] + rest, lim)
         == if n >= 0x8000_0000 then Fail(NegativeSize)
            else if lim.container != 0 && n > lim.container then Fail(SizeLimit)
            else if TypeOfCode(k) == None || TypeOfCode(v) == None then Fail(UnknownType)
            else Ok(MapBegin(TypeOfCode(k).value, TypeOfCode(v).value, n), rest)
  {
    hide Varint, ParseVarint32, TypeOfCode;
    var tail := [16 * k + v] + rest;
    assert Varint(n) + [16 * k + v] + rest == Varint(n) + tail;
    Varint32RoundTrip(n, tail);
    Quotient(16 * k + v, 16, k, v);
    assert tail[1..] == rest;
  }

  /** The type codes there are. */
  lemma CodesDecided(c: byte)
    requires c < 16
    ensures TypeOfCode(c) == None <==> c >= 13
  {}
}
