/** `TApplicationException`: a struct whose reader tolerates any other fields. */
module ApplicationException {
  import opened Options
  import opened ThriftTypes
  import opened CompactFormat
  import opened CompactSkip
  import opened CompactProtocol

  /** The struct that `write` sends. */
  function Fields(x: Exception): (r: seq<Field>) {
    [Field(1, StrV(x.message)), Field(2, I32V(x.kind))]
  }

  lemma LastKnownOfFields(x: Exception, y: Exception)
    ensures LastKnown(y, Fields(x)) == x
  {
    LastKnownStep(y, Fields(x));
    LastKnownStep(Update(y, Fields(x)[0]), Fields(x)[1..]);
    assert Fields(x)[1..][1..] == [];
  }

  /** Reading what `write` sends gives the exception back, whatever the reader held before. */
  lemma ExceptionRoundTrip(x: Exception, y: Exception, rest: seq<byte>, lim: Limits)
    requires |x.message| < TWO_31 && lim.StrOk(|x.message|)
    ensures ParseException(0, y, Enc(StructV(Fields(x))) + rest, lim) == Ok(x, rest)
  {
    hide ParseException, EncFields;
    FieldsWellFormed(x, lim);
    ExceptionFromFields(0, y, Fields(x), rest, lim);
    LastKnownOfFields(x, y);
  }

  lemma FieldsWellFormed(x: Exception, lim: Limits)
    requires |x.message| < TWO_31 && lim.StrOk(|x.message|)
    ensures WellFormedFields(Fields(x), lim)
  {
    var fs := Fields(x);
    assert fs[1..] == [fs[1]] && fs[1..][1..] == [];
    assert WellFormedField(fs[0], lim) && WellFormedField(fs[1], lim);
    assert WellFormedFields(fs[1..], lim);
  }

  lemma FieldsAre(x: Exception)
    ensures CType(Str) < 16 && CType(I32) < 16
    ensures Enc(StructV(Fields(x)))
         == FieldHeader(0, CType(Str), 1) + (Varint(|x.message|) + x.message) + FieldHeader(1, CType(I32), 2)
            + Varint(ZigZag32(x.kind)) + [0]
  {
    hide Varint, FieldHeader, ZigZag32;
    var fs := Fields(x);
    var a, b := FieldHeader(0, CType(Str), 1), Varint(|x.message|) + x.message;
    var c, d := FieldHeader(1, CType(I32), 2), Varint(ZigZag32(x.kind));
    assert fs[1..] == [fs[1]] && fs[1..][1..] == [];
    assert EncField(0, fs[0]) == a + b && EncField(1, fs[1]) == c + d;
    assert EncFields(2, []) == [0];
    assert EncFields(1, [fs[1]]) == (c + d) + [0];
    assert EncFields(0, fs) == (a + b) + EncFields(1, [fs[1]]);
    InARow([], a, b, c, d);
  }

  lemma InARow(s: seq<byte>, a: seq<byte>, b: seq<byte>, c: seq<byte>, d: seq<byte>)
    ensures s + ((a + b) + ((c + d) + [0])) == s + a + b + c + d + [0] == s + (a + b + c + d + [0])
    ensures [] + (a + b + c + d + [0]) == a + b + c + d + [0]
    ensures [] + ((a + b) + ((c + d) + [0])) == (a + b) + ((c + d) + [0])
  {}

  class TApplicationException {
    var message: seq<byte>
    var kind: i32

    constructor (message: seq<byte>, kind: i32)
      ensures this.message == message && this.kind == kind
    {
      this.message, this.kind := message, kind;
    }

    method Write(oprot: TCompactProtocol) returns (n: nat)
      requires |message| < TWO_31 && oprot.lim.StrOk(|message|) && oprot.booleanField == None
      modifies oprot`output, oprot`lastField, oprot`lastFieldId, oprot`booleanField
      ensures oprot.output == old(oprot.output) + Enc(StructV(Fields(Exception(message, kind))))
      ensures n == |Enc(StructV(Fields(Exception(message, kind))))|
      ensures oprot.lastField == old(oprot.lastField) && oprot.lastFieldId == old(oprot.lastFieldId)
    {
      hide Varint, FieldHeader, EncFields, CType;
      FieldsAre(Exception(message, kind));
      oprot.WriteStructBegin();
      var n1 := oprot.WriteFieldBegin(Str, 1);
      var n2 := oprot.WriteBinary(message);
      var n3 := oprot.WriteFieldBegin(I32, 2);
      var n4 := oprot.WriteI32(kind);
      var n5 := oprot.WriteByte(0);
      oprot.StructEnd();
      n := n1 + n2 + n3 + n4 + n5;
      InARow(old(oprot.output), FieldHeader(0, CType(Str), 1), Varint(|message|) + message,
             FieldHeader(1, CType(I32), 2), Varint(ZigZag32(kind)));
    }

    /** Fields 1 and 2 of the right type are taken, every other field is skipped. */
    method Read(iprot: TCompactProtocol) returns (r: Read<()>, n: nat)
      requires iprot.boolValue == None
      modifies this, iprot`input, iprot`lastField, iprot`lastFieldId, iprot`boolValue
      ensures match ParseException(0, old(Exception(message, kind)), old(iprot.input), iprot.lim)
        case Ok(x, rest) =>
          && r == Got(()) && Exception(message, kind) == x
          && iprot.input == rest && n == |old(iprot.input)| - |rest|
        case Fail(e) => r == Threw(e)
      ensures r.Got? ==> iprot.lastField == old(iprot.lastField) && iprot.lastFieldId == old(iprot.lastFieldId)
      ensures r.Got? ==> iprot.boolValue == None
    {
      hide ParseFieldBegin, SkipValue, ParseBinary, ParseVarint32, UnZigZag32;
      iprot.ReadStructBegin();
      n := 0;
      while true
        invariant iprot.boolValue == None && iprot.lastField == old(iprot.lastField) + [old(iprot.lastFieldId)]
        invariant |iprot.input| <= |old(iprot.input)| && n == |old(iprot.input)| - |iprot.input|
        invariant ParseException(0, old(Exception(message, kind)), old(iprot.input), iprot.lim)
               == ParseException(iprot.lastFieldId, Exception(message, kind), iprot.input, iprot.lim)
        decreases |iprot.input|
      {
        FieldFlag(iprot.lastFieldId, iprot.input);
        var h, n1 := iprot.ReadFieldBegin();
        if h.Threw? { return Threw(h.error), n; }
        n := n + n1;
        if h.value.t == Stop { break; }
        if h.value.id == 1 && h.value.t == Str {
          var b, n2 := iprot.ReadBinary();
          if b.Threw? { return Threw(b.error), n; }
          message, n := b.value, n + n2;
        } else if h.value.id == 2 && h.value.t == I32 {
          var k, n2 := iprot.ReadI32();
          if k.Threw? { return Threw(k.error), n; }
          kind, n := k.value, n + n2;
        } else {
          var v, n2 := iprot.Skip(h.value.t);
          if v.Threw? { return Threw(v.error), n; }
          n := n + n2;
        }
      }
      iprot.StructEnd();
      r := Got(());
    }

    /** On a struct written with any well-formed fields, `Read` keeps the last well-typed
        fields 1 and 2, takes exactly the struct's bytes and restores the protocol. */
    method ReadFrom(iprot: TCompactProtocol, ghost fs: seq<Field>, ghost rest: seq<byte>) returns (n: nat)
      requires iprot.boolValue == None && WellFormedFields(fs, iprot.lim)
      requires iprot.input == Enc(StructV(fs)) + rest
      modifies this, iprot`input, iprot`lastField, iprot`lastFieldId, iprot`boolValue
      ensures Exception(message, kind) == LastKnown(old(Exception(message, kind)), fs)
      ensures iprot.input == rest && n == |Enc(StructV(fs))|
      ensures iprot.lastField == old(iprot.lastField) && iprot.lastFieldId == old(iprot.lastFieldId)
    {
      hide ParseException;
      ExceptionFromFields(0, Exception(message, kind), fs, rest, iprot.lim);
      var r;
      r, n := Read(iprot);
    }
  }
}
