/** `TCompactProtocol`: the stateful writer and reader, proved against the wire format. */
module CompactProtocol {
  import opened Arithmetic
  import opened Options
  import opened ThriftTypes
  import opened CompactFormat
  import opened CompactMessage
  import opened CompactRoundTrip
  import opened CompactSkip

  /** What a read method hands to its caller: a value, or the exception it throws. */
  datatype Read<+T> = Got(value: T) | Threw(error: Error)

  /** A read method did what the parser does: same value or exception, and on success it took
      exactly the parsed bytes from the stream and returned their number. */
  ghost predicate Agrees<T>(p: Parsed<T>, r: Read<T>, n: nat, before: seq<byte>, after: seq<byte>) {
    match p
    case Ok(v, rest) => r == Got(v) && after == rest && n == |before| - |rest|
    case Fail(e) => r == Threw(e)
  }

  class TCompactProtocol {
    // The transport: bytes not yet read, and bytes written.
    var input: seq<byte>
    var output: seq<byte>
    // Does borrow succeed when enough bytes are there (as TMemoryBuffer's does), or never?
    const borrows: bool
    const lim: Limits
    var lastField: seq<i16>
    var lastFieldId: i16
    var booleanField: Option<i16>
    var boolValue: Option<bool>

    constructor (input: seq<byte>, borrows: bool, lim: Limits)
      ensures this.input == input && output == [] && this.borrows == borrows && this.lim == lim
      ensures lastField == [] && lastFieldId == 0 && booleanField == None && boolValue == None
    {
      this.input, output, this.borrows, this.lim := input, [], borrows, lim;
      lastField, lastFieldId, booleanField, boolValue := [], 0, None, None;
    }

    // ----- writing ------------------------------------------------------------------------

    method WriteByte(b: byte) returns (n: nat)
      modifies this`output
      ensures output == old(output) + [b] && n == 1
    {
      output := output + [b];
      n := 1;
    }

    /** `writeVarint32` with a 5-byte buffer and `writeVarint64` with a 10-byte one. */
    method WriteVarint(value: nat, capacity: nat) returns (size: nat)
      requires 0 < capacity && value < Pow128(capacity)
      modifies this`output
      ensures output == old(output) + Varint(value) && size == |Varint(value)| <= capacity
    {
      hide Varint, Pow128, Group, Higher;
      var buf := new byte[capacity];
      var v: nat := value;
      size := 0;
      NoPower(v, capacity);
      while v >= 128
        invariant output == old(output) && size < capacity && v < Pow128(capacity - size)
        invariant buf[..size] + Varint(v) == Varint(value)
        decreases v
      {
        ghost var done := buf[..size];
        VarintNext(v);
        PowerNext(v, capacity - size);
        buf[size] := Group(v) + 128;
        size := size + 1;
        assert buf[..size] == done + [Group(v) + 128];
        OneBehind(done, Group(v) + 128, Varint(Higher(v)));
        v := Higher(v);
      }
      VarintNext(v);
      ghost var done := buf[..size];
      buf[size] := v;
      size := size + 1;
      assert buf[..size] == done + [v];
      output := output + buf[..size];
    }

    method WriteVarint32(v: u32) returns (size: nat)
      modifies this`output
      ensures output == old(output) + Varint(v) && size == |Varint(v)| <= 5
    {
      Pow128Bounds();
      size := WriteVarint(v, 5);
    }

    method WriteVarint64(v: u64) returns (size: nat)
      modifies this`output
      ensures output == old(output) + Varint(v) && size == |Varint(v)| <= 10
    {
      Pow128Bounds();
      size := WriteVarint(v, 10);
    }

    method WriteMessageBegin(name: seq<byte>, t: nat, seqid: i32) returns (n: nat)
      requires |name| < TWO_32
      modifies this`output
      ensures output == old(output) + EncMessageBegin(name, t, seqid) && n == |EncMessageBegin(name, t, seqid)|
    {
      hide Varint;
      var n1 := WriteByte(PROTOCOL_ID);
      var n2 := WriteByte(VersionAndType(t));
      var n3 := WriteVarint32(ToU32(seqid));
      var n4 := WriteBinary(name);
      n := n1 + n2 + n3 + n4;
      assert output == old(output) + EncMessageBegin(name, t, seqid);
    }

    method WriteStructBegin()
      modifies this`lastField, this`lastFieldId
      ensures lastField == old(lastField) + [old(lastFieldId)] && lastFieldId == 0
    {
      lastField := lastField + [lastFieldId];
      lastFieldId := 0;
    }

    /** `writeStructEnd` and `readStructEnd`. */
    method StructEnd()
      requires lastField != []
      modifies this`lastField, this`lastFieldId
      ensures lastField == old(lastField[..|lastField| - 1]) && lastFieldId == old(lastField[|lastField| - 1])
    {
      lastFieldId := lastField[|lastField| - 1];
      lastField := lastField[..|lastField| - 1];
    }

    method WriteFieldBeginInternal(code: byte, id: i16) returns (n: nat)
      requires code < 16
      modifies this`output, this`lastFieldId
      ensures output == old(output) + FieldHeader(old(lastFieldId), code, id) && lastFieldId == id
      ensures n == |FieldHeader(old(lastFieldId), code, id)|
    {
      if id > lastFieldId && id - lastFieldId <= 15 {
        n := WriteByte((id - lastFieldId) * 16 + code);
      } else {
        var n1 := WriteByte(code);
        var n2 := WriteI16(id);
        n := n1 + n2;
        assert output == old(output) + ([code] + Varint(ZigZag32(id)));
      }
      lastFieldId := id;
    }

    /** A boolean field writes nothing yet: its header waits for the value. */
    method WriteFieldBegin(t: TType, id: i16) returns (n: nat)
      modifies this`output, this`lastFieldId, this`booleanField
      ensures t == Bool ==> output == old(output) && lastFieldId == old(lastFieldId)
      ensures t == Bool ==> booleanField == Some(id) && n == 0
      ensures t != Bool ==> output == old(output) + FieldHeader(old(lastFieldId), CType(t), id)
      ensures t != Bool ==> lastFieldId == id && booleanField == old(booleanField)
      ensures t != Bool ==> n == |FieldHeader(old(lastFieldId), CType(t), id)|
    {
      if t == Bool {
        booleanField := Some(id);
        n := 0;
      } else {
        n := WriteFieldBeginInternal(CType(t), id);
      }
    }

    method WriteBool(b: bool) returns (n: nat)
      modifies this`output, this`lastFieldId, this`booleanField
      ensures booleanField == None
      ensures old(booleanField) == None ==>
        output == old(output) + Enc(BoolV(b)) && lastFieldId == old(lastFieldId) && n == 1
      ensures old(booleanField).Some? ==>
        var header := FieldHeader(old(lastFieldId), if b then 1 else 2, old(booleanField).value);
        output == old(output) + header && lastFieldId == old(booleanField).value && n == |header|
    {
      if booleanField.Some? {
        n := WriteFieldBeginInternal(if b then 1 else 2, booleanField.value);
        booleanField := None;
      } else {
        n := WriteByte(if b then 1 else 2);
      }
    }

    method WriteI16(v: i16) returns (n: nat)
      modifies this`output
      ensures output == old(output) + Varint(ZigZag32(v)) && n == |Varint(ZigZag32(v))|
    {
      n := WriteVarint32(ZigZag32(v));
    }

    method WriteI32(v: i32) returns (n: nat)
      modifies this`output
      ensures output == old(output) + Varint(ZigZag32(v)) && n == |Varint(ZigZag32(v))|
    {
      n := WriteVarint32(ZigZag32(v));
    }

    method WriteI64(v: i64) returns (n: nat)
      modifies this`output
      ensures output == old(output) + Varint(ZigZag64(v)) && n == |Varint(ZigZag64(v))|
    {
      n := WriteVarint64(ZigZag64(v));
    }

    method WriteDouble(bits: u64) returns (n: nat)
      modifies this`output
      ensures output == old(output) + LittleEndian(bits, 8) && n == 8
    {
      var b1 := bits / 0x100;
      var b2 := b1 / 0x100;
      var b3 := b2 / 0x100;
      var b4 := b3 / 0x100;
      var b5 := b4 / 0x100;
      var b6 := b5 / 0x100;
      var b7 := b6 / 0x100;
      output := output + [bits % 0x100, b1 % 0x100, b2 % 0x100, b3 % 0x100,
                          b4 % 0x100, b5 % 0x100, b6 % 0x100, b7 % 0x100];
      FourBytes(bits, 8);
      FourBytes(b4, 4);
      n := 8;
    }

    method WriteBinary(s: seq<byte>) returns (n: nat)
      requires |s| < TWO_32
      modifies this`output
      ensures output == old(output) + (Varint(|s|) + s) && n == |Varint(|s|) + s|
    {
      n := WriteVarint32(|s|);
      n := n + |s|;
      output := output + s;
      assert output == old(output) + (Varint(|s|) + s);
    }

    /** The size is cast to `int32_t`, so from 2^31 on it takes the short form. */
    method WriteCollectionBegin(t: TType, size: u32) returns (n: nat)
      modifies this`output
      ensures size < TWO_31 ==> output == old(output) + CollectionHeader(t, size) && n == |CollectionHeader(t, size)|
      ensures size >= TWO_31 ==> output == old(output) + [(size * 16 + CType(t)) % 256] && n == 1
    {
      hide Varint, CType;
      TypeCodeRoundTrip(t);
      if ToI32(size) <= 14 {
        if size <= 14 { Quotient(size * 16 + CType(t), 256, 0, size * 16 + CType(t)); }
        n := WriteByte((size * 16 + CType(t)) % 256);
      } else {
        var n1 := WriteByte(0xf0 + CType(t));
        var n2 := WriteVarint32(size);
        n := n1 + n2;
        assert output == old(output) + ([0xf0 + CType(t)] + Varint(size));
      }
    }

    method WriteMapBegin(k: TType, v: TType, size: u32) returns (n: nat)
      modifies this`output
      ensures output == old(output) + MapHeader(k, v, size) && n == |MapHeader(k, v, size)|
    {
      if size == 0 {
        n := WriteByte(0);
      } else {
        var n1 := WriteVarint32(size);
        var n2 := WriteByte(CType(k) * 16 + CType(v));
        n := n1 + n2;
        assert output == old(output) + (Varint(size) + [CType(k) * 16 + CType(v)]);
      }
    }

    /** The calls generated code makes to write one value: afterwards the protocol is in the
        state it was in, at whatever nesting level it was called. */
    method WriteValue(v: Value) returns (n: nat)
      requires WellFormed(v, lim) && booleanField == None
      modifies this`output, this`lastField, this`lastFieldId, this`booleanField
      ensures output == old(output) + Enc(v) && n == |Enc(v)|
      ensures lastField == old(lastField) && lastFieldId == old(lastFieldId) && booleanField == None
      decreases v, 1
    {
      hide Varint, LittleEndian, FieldHeader, CollectionHeader, MapHeader;
      match v
      case BoolV(b) => n := WriteBool(b);
      case ByteV(b) => n := WriteByte(ToU8(b));
      case I16V(i) => n := WriteI16(i);
      case I32V(i) => n := WriteI32(i);
      case I64V(i) => n := WriteI64(i);
      case DoubleV(d) => n := WriteDouble(d);
      case StrV(s) => n := WriteBinary(s);
      case StructV(fs) => n := WriteStruct(fs);
      case ListV(t, vs) =>
        var n1 := WriteCollectionBegin(t, |vs|);
        var n2 := WriteItems(t, vs);
        n := n1 + n2;
        assert output == old(output) + (CollectionHeader(t, |vs|) + EncItems(vs));
      case SetV(t, vs) =>
        var n1 := WriteCollectionBegin(t, |vs|);
        var n2 := WriteItems(t, vs);
        n := n1 + n2;
        assert output == old(output) + (CollectionHeader(t, |vs|) + EncItems(vs));
      case MapV(k, t, es) =>
        var n1 := WriteMapBegin(k, t, |es|);
        var n2 := WriteEntries(k, t, es);
        n := n1 + n2;
        assert output == old(output) + (MapHeader(k, t, |es|) + EncEntries(es));
    }

    method WriteStruct(fs: seq<Field>) returns (n: nat)
      requires WellFormedFields(fs, lim) && booleanField == None
      modifies this`output, this`lastField, this`lastFieldId, this`booleanField
      ensures output == old(output) + EncFields(0, fs) && n == |EncFields(0, fs)|
      ensures lastField == old(lastField) && lastFieldId == old(lastFieldId) && booleanField == None
      decreases fs, 2
    {
      hide WellFormedField, EncField, Enc;
      WriteStructBegin();
      n := 0;
      var i := 0;
      while i < |fs|
        invariant 0 <= i <= |fs| && booleanField == None && WellFormedFields(fs[i..], lim)
        invariant lastField == old(lastField) + [old(lastFieldId)]
        invariant output + EncFields(lastFieldId, fs[i..]) == old(output) + EncFields(0, fs)
        invariant n + |EncFields(lastFieldId, fs[i..])| == |EncFields(0, fs)|
      {
        ghost var before, last := output, lastFieldId;
        assert fs[i..][0] == fs[i] && fs[i..][1..] == fs[i + 1..];
        var m := WriteField(fs[i]);
        assert output + EncFields(lastFieldId, fs[i + 1..]) == before + EncFields(last, fs[i..]);
        n := n + m;
        i := i + 1;
      }
      var m := WriteByte(0);
      n := n + m;
      StructEnd();
    }

    method WriteField(f: Field) returns (n: nat)
      requires WellFormedField(f, lim) && booleanField == None
      modifies this`output, this`lastField, this`lastFieldId, this`booleanField
      ensures output == old(output) + EncField(old(lastFieldId), f) && n == |EncField(old(lastFieldId), f)|
      ensures lastField == old(lastField) && lastFieldId == f.id && booleanField == None
      decreases f, 2
    {
      hide FieldHeader, CType, Enc, WellFormed;
      BoolType(f.value);
      assert CType(TypeOf(f.value)) < 16 by { TypeCodeRoundTrip(TypeOf(f.value)); }
      n := WriteFieldBegin(TypeOf(f.value), f.id);
      var m;
      if f.value.BoolV? {
        m := WriteBool(f.value.b);
      } else {
        m := WriteValue(f.value);
        assert output == old(output) + EncField(old(lastFieldId), f);
      }
      n := n + m;
    }

    method WriteItems(t: TType, vs: seq<Value>) returns (n: nat)
      requires WellFormedItems(t, vs, lim) && booleanField == None
      modifies this`output, this`lastField, this`lastFieldId, this`booleanField
      ensures output == old(output) + EncItems(vs) && n == |EncItems(vs)|
      ensures lastField == old(lastField) && lastFieldId == old(lastFieldId) && booleanField == None
      decreases vs, 0
    {
      hide Enc, WellFormed;
      n := 0;
      var i := 0;
      while i < |vs|
        invariant 0 <= i <= |vs| && booleanField == None && WellFormedItems(t, vs[i..], lim)
        invariant lastField == old(lastField) && lastFieldId == old(lastFieldId)
        invariant output + EncItems(vs[i..]) == old(output) + EncItems(vs)
        invariant n + |EncItems(vs[i..])| == |EncItems(vs)|
      {
        ghost var before := output;
        assert vs[i..][0] == vs[i] && vs[i..][1..] == vs[i + 1..];
        var m := WriteValue(vs[i]);
        assert output + EncItems(vs[i + 1..]) == before + EncItems(vs[i..]);
        n := n + m;
        i := i + 1;
      }
    }

    method WriteEntries(k: TType, t: TType, es: seq<Entry>) returns (n: nat)
      requires WellFormedEntries(k, t, es, lim) && booleanField == None
      modifies this`output, this`lastField, this`lastFieldId, this`booleanField
      ensures output == old(output) + EncEntries(es) && n == |EncEntries(es)|
      ensures lastField == old(lastField) && lastFieldId == old(lastFieldId) && booleanField == None
      decreases es, 0
    {
      hide EncEntry, WellFormedEntry;
      n := 0;
      var i := 0;
      while i < |es|
        invariant 0 <= i <= |es| && booleanField == None && WellFormedEntries(k, t, es[i..], lim)
        invariant lastField == old(lastField) && lastFieldId == old(lastFieldId)
        invariant output + EncEntries(es[i..]) == old(output) + EncEntries(es)
        invariant n + |EncEntries(es[i..])| == |EncEntries(es)|
      {
        ghost var before := output;
        assert es[i..][0] == es[i] && es[i..][1..] == es[i + 1..];
        var m := WriteEntry(k, t, es[i]);
        assert output + EncEntries(es[i + 1..]) == before + EncEntries(es[i..]);
        n := n + m;
        i := i + 1;
      }
    }

    method WriteEntry(k: TType, t: TType, e: Entry) returns (n: nat)
      requires WellFormedEntry(k, t, e, lim) && booleanField == None
      modifies this`output, this`lastField, this`lastFieldId, this`booleanField
      ensures output == old(output) + EncEntry(e) && n == |EncEntry(e)|
      ensures lastField == old(lastField) && lastFieldId == old(lastFieldId) && booleanField == None
      decreases e, 2
    {
      hide Enc, WellFormed, TypeOf;
      var n1 := WriteValue(e.k);
      var n2 := WriteValue(e.v);
      n := n1 + n2;
      assert output == old(output) + EncEntry(e);
    }

    // ----- reading ------------------------------------------------------------------------

    /** `readAll(buf, 1)`. */
    method ReadByte() returns (r: Read<byte>, n: nat)
      modifies this`input
      ensures old(input) == [] ==> r == Threw(EndOfFile)
      ensures old(input) != [] ==> r == Got(old(input)[0]) && input == old(input)[1..] && n == 1
    {
      if input == [] { return Threw(EndOfFile), 0; }
      r, n := Got(input[0]), 1;
      input := input[1..];
    }

    /** The fast path of `readVarint64`, over a borrowed buffer of at least ten bytes. */
    method VarintFast(borrowed: seq<byte>) returns (r: Read<u64>, size: nat)
      requires |borrowed| >= 10
      ensures size <= 10
      ensures Agrees(ParseVarint64(borrowed), r, size, borrowed, borrowed[size..])
    {
      hide ParseRawVarint, AddGroup;
      var val: u64, mul: nat := 0, 1;
      size := 0;
      while true
        invariant size < 10 && mul == Pow128(size) && val < mul
        invariant Progress(ParseRawVarint(borrowed, 0), ParseRawVarint(borrowed[size..], size), val, mul)
        decreases 10 - size
      {
        var b := borrowed[size];
        ghost var here := borrowed[size..];
        assert here[1..] == borrowed[size + 1..];
        Accumulate(borrowed, here, val, mul, size);
        size := size + 1;
        val, mul := AddGroup(val, b % 128, mul), mul * 128;
        if b < 128 {
          assert borrowed[|borrowed| - |borrowed[size..]|..] == borrowed[size..];
          return Got(val), size;
        }
        if size == 10 { return Threw(InvalidData), size; }
      }
    }

    /** The slow path, one byte at a time. */
    method VarintSlow() returns (r: Read<u64>, size: nat)
      modifies this`input
      ensures Agrees(ParseVarint64(old(input)), r, size, old(input), input)
    {
      hide ParseRawVarint, AddGroup;
      var val: u64, mul: nat := 0, 1;
      size := 0;
      while true
        invariant size < 10 && mul == Pow128(size) && val < mul
        invariant size <= |old(input)| && input == old(input)[size..]
        invariant Progress(ParseRawVarint(old(input), 0), ParseRawVarint(input, size), val, mul)
        decreases 10 - size
      {
        ghost var here := input;
        var b, m := ReadByte();
        if b.Threw? {
          assert ParseRawVarint(here, size) == Fail(EndOfFile) by { UnfoldEmpty(size); }
          return Threw(b.error), size;
        }
        Accumulate(old(input), here, val, mul, size);
        size := size + m;
        val, mul := AddGroup(val, b.value % 128, mul), mul * 128;
        if b.value < 128 { return Got(val), size; }
        if size >= 10 { return Threw(InvalidData), size; }
      }
    }

    /** Both paths return the same value and take the same bytes, whatever the stream holds. */
    method ReadVarint64() returns (r: Read<u64>, size: nat)
      modifies this`input
      ensures Agrees(ParseVarint64(old(input)), r, size, old(input), input)
    {
      if borrows && |input| >= 10 {
        r, size := VarintFast(input);
        if r.Got? { input := input[size..]; }
      } else {
        r, size := VarintSlow();
      }
    }

    method ReadVarint32() returns (r: Read<u32>, size: nat)
      modifies this`input
      ensures Agrees(ParseVarint32(old(input)), r, size, old(input), input)
    {
      hide ParseVarint64;
      var x;
      x, size := ReadVarint64();
      r := match x case Got(v) => Got(v % TWO_32) case Threw(e) => Threw(e);
    }

    method ReadStructBegin()
      modifies this`lastField, this`lastFieldId
      ensures lastField == old(lastField) + [old(lastFieldId)] && lastFieldId == 0
    {
      lastField := lastField + [lastFieldId];
      lastFieldId := 0;
    }

    method ReadMessageBegin() returns (r: Read<MessageBegin>, n: nat)
      modifies this`input
      ensures Agrees(ParseMessageBegin(old(input), lim), r, n, old(input), input)
    {
      hide ParseVarint32, ParseBinary;
      var id, n1 := ReadByte();
      if id.Threw? { return Threw(id.error), 0; }
      if id.value != PROTOCOL_ID { return Threw(BadVersion), n1; }
      var v, n2 := ReadByte();
      if v.Threw? { return Threw(v.error), n1; }
      if v.value % 32 != VERSION_N { return Threw(BadVersion), n1 + n2; }
      assert input == old(input)[2..];
      var seqid, n3 := ReadVarint32();
      if seqid.Threw? { return Threw(seqid.error), n1 + n2; }
      var name, n4 := ReadBinary();
      if name.Threw? { return Threw(name.error), n1 + n2 + n3; }
      r, n := Got(MessageBegin(name.value, v.value / 32 % 4, ToI32(seqid.value))), n1 + n2 + n3 + n4;
    }

    /** A boolean field's value is kept for the next `ReadBool`. */
    method ReadFieldBegin() returns (r: Read<FieldBegin>, n: nat)
      modifies this`input, this`lastFieldId, this`boolValue
      ensures Agrees(ParseFieldBegin(old(lastFieldId), old(input)), r, n, old(input), input)
      ensures r.Got? && r.value.t == Stop ==> lastFieldId == old(lastFieldId) && boolValue == old(boolValue)
      ensures r.Got? && r.value.t != Stop ==> lastFieldId == r.value.id
      ensures r.Got? && r.value.t != Stop ==> boolValue == if r.value.t == Bool then r.value.flag else old(boolValue)
    {
      hide ParseVarint32;
      var b, n1 := ReadByte();
      if b.Threw? { return Threw(b.error), 0; }
      var code := b.value % 16;
      if code == 0 { return Got(FieldBegin(Stop, 0, None)), n1; }
      var id: i16;
      n := n1;
      if b.value / 16 == 0 {
        var w, n2 := ReadI16();
        if w.Threw? { return Threw(w.error), n; }
        id, n := w.value, n + n2;
      } else {
        id := ToI16(lastFieldId + b.value / 16);
      }
      var t := TypeOfCode(code);
      if t == None { return Threw(UnknownType), n; }
      if code == 1 || code == 2 { boolValue := Some(code == 1); }
      lastFieldId := id;
      r := Got(FieldBegin(t.value, id, if code == 1 || code == 2 then Some(code == 1) else None));
    }

    method ReadMapBegin() returns (r: Read<MapBegin>, n: nat)
      modifies this`input
      ensures Agrees(ParseMapBegin(old(input), lim), r, n, old(input), input)
    {
      hide ParseVarint32, TypeOfCode;
      var size;
      size, n := ReadVarint32();
      if size.Threw? { return Threw(size.error), n; }
      var kv: byte := 0;
      if size.value != 0 {
        var b, n1 := ReadByte();
        if b.Threw? { return Threw(b.error), n; }
        kv, n := b.value, n + n1;
      }
      if ToI32(size.value) < 0 { return Threw(NegativeSize), n; }
      if !lim.ContainerOk(ToI32(size.value)) { return Threw(SizeLimit), n; }
      var k, v := TypeOfCode(kv / 16), TypeOfCode(kv % 16);
      if k == None || v == None { return Threw(UnknownType), n; }
      r := Got(MapBegin(k.value, v.value, size.value));
    }

    /** `readListBegin`, which `readSetBegin` calls. */
    method ReadCollectionBegin() returns (r: Read<CollectionBegin>, n: nat)
      modifies this`input
      ensures Agrees(ParseCollectionBegin(old(input), lim), r, n, old(input), input)
    {
      hide ParseVarint32, TypeOfCode;
      var b, n1 := ReadByte();
      if b.Threw? { return Threw(b.error), 0; }
      var size: u32 := b.value / 16;
      n := n1;
      if size == 15 {
        var w, n2 := ReadVarint32();
        if w.Threw? { return Threw(w.error), n; }
        size, n := w.value, n + n2;
      }
      if ToI32(size) < 0 { return Threw(NegativeSize), n; }
      if !lim.ContainerOk(ToI32(size)) { return Threw(SizeLimit), n; }
      var t := TypeOfCode(b.value % 16);
      if t == None { return Threw(UnknownType), n; }
      r := Got(CollectionBegin(t.value, size));
    }

    method ReadBool() returns (r: Read<bool>, n: nat)
      modifies this`input, this`boolValue
      ensures old(boolValue).Some? ==> r == Got(old(boolValue).value) && n == 0 && input == old(input)
      ensures old(boolValue) == None && old(input) == [] ==> r.Threw? && r.error == EndOfFile
      ensures old(boolValue) == None && old(input) != [] ==>
        r == Got(old(input)[0] == 1) && n == 1 && input == old(input)[1..]
      ensures boolValue == None
    {
      if boolValue.Some? {
        r, n := Got(boolValue.value), 0;
        boolValue := None;
      } else {
        var b;
        b, n := ReadByte();
        r := match b case Got(v) => Got(v == 1) case Threw(e) => Threw(e);
      }
    }

    method ReadI16() returns (r: Read<i16>, n: nat)
      modifies this`input
      ensures match ParseVarint32(old(input))
        case Ok(v, rest) => r == Got(ToI16(UnZigZag32(v))) && input == rest && n == |old(input)| - |rest|
        case Fail(e) => r == Threw(e)
    {
      hide ParseVarint32;
      var x;
      x, n := ReadVarint32();
      r := match x case Got(v) => Got(ToI16(UnZigZag32(v))) case Threw(e) => Threw(e);
    }

    method ReadI32() returns (r: Read<i32>, n: nat)
      modifies this`input
      ensures match ParseVarint32(old(input))
        case Ok(v, rest) => r == Got(UnZigZag32(v)) && input == rest && n == |old(input)| - |rest|
        case Fail(e) => r == Threw(e)
    {
      hide ParseVarint32;
      var x;
      x, n := ReadVarint32();
      r := match x case Got(v) => Got(UnZigZag32(v)) case Threw(e) => Threw(e);
    }

    method ReadBinary() returns (r: Read<seq<byte>>, n: nat)
      modifies this`input
      ensures Agrees(ParseBinary(old(input), lim), r, n, old(input), input)
    {
      hide ParseVarint32;
      var size;
      size, n := ReadVarint32();
      if size.Threw? { return Threw(size.error), n; }
      var m := ToI32(size.value);
      if m == 0 { return Got([]), n; }
      if m < 0 { return Threw(NegativeSize), n; }
      if !lim.StrOk(m) { return Threw(SizeLimit), n; }
      if |input| < m { return Threw(EndOfFile), n; }
      r, n := Got(input[..m]), n + m;
      input := input[m..];
    }

    /** One value that is neither a struct nor a container. */
    method ReadScalar(t: TType) returns (r: Read<Value>, n: nat)
      requires boolValue == None
      modifies this`input, this`boolValue
      ensures Agrees(ParseScalar(t, old(input), lim), r, n, old(input), input) && boolValue == None
    {
      hide ParseVarint32, ParseVarint64, ParseBinary, FromLittleEndian, UnZigZag32, UnZigZag64, ToI16;
      r, n := Threw(UnknownType), 0;
      match t
      case Bool =>
        var x; x, n := ReadBool();
        r := match x case Got(b) => Got(BoolV(b)) case Threw(e) => Threw(e);
      case Byte =>
        var x; x, n := ReadByte();
        r := match x case Got(b) => Got(ByteV(ToI8(b))) case Threw(e) => Threw(e);
      case I16 =>
        var x; x, n := ReadI16();
        r := match x case Got(i) => Got(I16V(i)) case Threw(e) => Threw(e);
      case I32 =>
        var x; x, n := ReadI32();
        r := match x case Got(i) => Got(I32V(i)) case Threw(e) => Threw(e);
      case I64 =>
        var x; x, n := ReadVarint64();
        r := match x case Got(i) => Got(I64V(UnZigZag64(i))) case Threw(e) => Threw(e);
      case Double =>
        if |input| < 8 { return Threw(EndOfFile), 0; }
        var d := ParseDouble(input);
        r, n, input := Got(DoubleV(d.value)), 8, input[8..];
      case Str =>
        var x; x, n := ReadBinary();
        r := match x case Got(b) => Got(StrV(b)) case Threw(e) => Threw(e);
      case _ =>
    }

    /** The calls generated code makes to read one value of a known type. */
    method ReadValue(t: TType) returns (r: Read<Value>, n: nat)
      requires boolValue == None
      modifies this`input, this`lastField, this`lastFieldId, this`boolValue
      ensures Agrees(ParseValue(t, old(input), lim), r, n, old(input), input)
      ensures r.Got? ==> lastField == old(lastField) && lastFieldId == old(lastFieldId) && boolValue == None
      decreases |input|, 1
    {
      hide ParseScalar, ParseCollectionBegin, ParseMapBegin, ParseFieldBegin;
      match t
      case Struct =>
        var x; x, n := ReadStruct();
        r := match x case Got(fs) => Got(StructV(fs)) case Threw(e) => Threw(e);
      case Map =>
        var m; m, n := ReadMapBegin();
        if m.Threw? { return Threw(m.error), n; }
        var x, k := ReadEntries(m.value.k, m.value.v, m.value.size);
        r := match x case Got(es) => Got(MapV(m.value.k, m.value.v, es)) case Threw(e) => Threw(e);
        n := n + k;
      case Set =>
        var c; c, n := ReadCollectionBegin();
        if c.Threw? { return Threw(c.error), n; }
        var x, k := ReadItems(c.value.t, c.value.size);
        r := match x case Got(vs) => Got(SetV(c.value.t, vs)) case Threw(e) => Threw(e);
        n := n + k;
      case List =>
        var c; c, n := ReadCollectionBegin();
        if c.Threw? { return Threw(c.error), n; }
        var x, k := ReadItems(c.value.t, c.value.size);
        r := match x case Got(vs) => Got(ListV(c.value.t, vs)) case Threw(e) => Threw(e);
        n := n + k;
      case _ => r, n := ReadScalar(t);
    }

    method ReadStruct() returns (r: Read<seq<Field>>, n: nat)
      requires boolValue == None
      modifies this`input, this`lastField, this`lastFieldId, this`boolValue
      ensures Agrees(ParseFields(0, [], old(input), lim), r, n, old(input), input)
      ensures r.Got? ==> lastField == old(lastField) && lastFieldId == old(lastFieldId) && boolValue == None
      decreases |input|, 0
    {
      hide ParseFieldBegin, ParseValue;
      ReadStructBegin();
      var fs: seq<Field> := [];
      n := 0;
      while true
        invariant boolValue == None && lastField == old(lastField) + [old(lastFieldId)]
        invariant |input| <= |old(input)| && n == |old(input)| - |input|
        invariant ParseFields(0, [], old(input), lim) == ParseFields(lastFieldId, fs, input, lim)
        decreases |input|
      {
        FieldFlag(lastFieldId, input);
        var h, n1 := ReadFieldBegin();
        if h.Threw? { return Threw(h.error), n; }
        n := n + n1;
        if h.value.t == Stop { break; }
        if h.value.t == Bool {
          var b, n2 := ReadBool();
          fs, n := fs + [Field(h.value.id, BoolV(b.value))], n + n2;
        } else {
          var v, n2 := ReadValue(h.value.t);
          if v.Threw? { return Threw(v.error), n; }
          fs, n := fs + [Field(h.value.id, v.value)], n + n2;
        }
      }
      StructEnd();
      r := Got(fs);
    }

    method ReadItems(t: TType, size: nat) returns (r: Read<seq<Value>>, n: nat)
      requires boolValue == None
      modifies this`input, this`lastField, this`lastFieldId, this`boolValue
      ensures Agrees(ParseItems(t, size, [], old(input), lim), r, n, old(input), input)
      ensures r.Got? ==> lastField == old(lastField) && lastFieldId == old(lastFieldId) && boolValue == None
      decreases |input|, 2
    {
      hide ParseValue;
      var vs: seq<Value>, i := [], 0;
      n := 0;
      while i < size
        invariant i <= size && boolValue == None
        invariant lastField == old(lastField) && lastFieldId == old(lastFieldId)
        invariant |input| <= |old(input)| && n == |old(input)| - |input|
        invariant ParseItems(t, size, [], old(input), lim) == ParseItems(t, size - i, vs, input, lim)
      {
        var v, m := ReadValue(t);
        if v.Threw? { return Threw(v.error), n; }
        vs, n, i := vs + [v.value], n + m, i + 1;
      }
      r := Got(vs);
    }

    method ReadEntries(k: TType, t: TType, size: nat) returns (r: Read<seq<Entry>>, n: nat)
      requires boolValue == None
      modifies this`input, this`lastField, this`lastFieldId, this`boolValue
      ensures Agrees(ParseEntries(k, t, size, [], old(input), lim), r, n, old(input), input)
      ensures r.Got? ==> lastField == old(lastField) && lastFieldId == old(lastFieldId) && boolValue == None
      decreases |input|, 2
    {
      hide ParseValue;
      var es: seq<Entry>, i := [], 0;
      n := 0;
      while i < size
        invariant i <= size && boolValue == None
        invariant lastField == old(lastField) && lastFieldId == old(lastFieldId)
        invariant |input| <= |old(input)| && n == |old(input)| - |input|
        invariant ParseEntries(k, t, size, [], old(input), lim) == ParseEntries(k, t, size - i, es, input, lim)
      {
        var x, m1 := ReadValue(k);
        if x.Threw? { return Threw(x.error), n; }
        var y, m2 := ReadValue(t);
        if y.Threw? { return Threw(y.error), n; }
        es, n, i := es + [Entry(x.value, y.value)], n + m1 + m2, i + 1;
      }
      r := Got(es);
    }

    /** Read back what `WriteValue` put on the wire: the tree, its byte count, and the state. */
    method ReadWritten(t: TType, ghost v: Value, ghost rest: seq<byte>) returns (r: Read<Value>, n: nat)
      requires t == TypeOf(v) && WellFormed(v, lim) && boolValue == None && input == Enc(v) + rest
      modifies this`input, this`lastField, this`lastFieldId, this`boolValue
      ensures r == Got(Seen(v)) && n == |Enc(v)| && input == rest
      ensures lastField == old(lastField) && lastFieldId == old(lastFieldId) && boolValue == None
    {
      hide ParseValue;
      RoundTrip(v, rest, lim);
      r, n := ReadValue(t);
    }

    /** `TProtocol::skip`: on success it consumed exactly what `SkipValue` says and the
        protocol state is back where it was.  A boolean whose value came with its header takes
        no bytes. */
    method Skip(t: TType) returns (r: Read<()>, n: nat)
      requires boolValue == None || t == Bool
      modifies this`input, this`lastField, this`lastFieldId, this`boolValue
      ensures old(boolValue) == None ==> Agrees(SkipValue(t, old(input), lim), r, n, old(input), input)
      ensures old(boolValue) != None ==> r == Got(()) && n == 0 && input == old(input)
      ensures r.Got? ==> lastField == old(lastField) && lastFieldId == old(lastFieldId) && boolValue == None
      decreases |input|, 1
    {
      hide ParseScalar, ParseCollectionBegin, ParseMapBegin, ParseFieldBegin;
      if t == Bool && boolValue != None {
        var b;
        b, n := ReadBool();
        return Got(()), n;
      }
      match t
      case Struct => r, n := SkipStruct();
      case Map =>
        var m; m, n := ReadMapBegin();
        if m.Threw? { return Threw(m.error), n; }
        var k; r, k := SkipTimes2(m.value.k, m.value.v, m.value.size);
        n := n + k;
      case Set =>
        var c; c, n := ReadCollectionBegin();
        if c.Threw? { return Threw(c.error), n; }
        var k; r, k := SkipTimes(c.value.t, c.value.size);
        n := n + k;
      case List =>
        var c; c, n := ReadCollectionBegin();
        if c.Threw? { return Threw(c.error), n; }
        var k; r, k := SkipTimes(c.value.t, c.value.size);
        n := n + k;
      case Stop => r, n := Got(()), 0;
      case _ =>
        var x; x, n := ReadScalar(t);
        r := match x case Got(_) => Got(()) case Threw(e) => Threw(e);
    }

    method SkipStruct() returns (r: Read<()>, n: nat)
      requires boolValue == None
      modifies this`input, this`lastField, this`lastFieldId, this`boolValue
      ensures Agrees(SkipFields(0, old(input), lim), r, n, old(input), input)
      ensures r.Got? ==> lastField == old(lastField) && lastFieldId == old(lastFieldId) && boolValue == None
      decreases |input|, 0
    {
      hide ParseFieldBegin, SkipValue;
      ReadStructBegin();
      n := 0;
      while true
        invariant boolValue == None && lastField == old(lastField) + [old(lastFieldId)]
        invariant |input| <= |old(input)| && n == |old(input)| - |input|
        invariant SkipFields(0, old(input), lim) == SkipFields(lastFieldId, input, lim)
        decreases |input|
      {
        FieldFlag(lastFieldId, input);
        var h, n1 := ReadFieldBegin();
        if h.Threw? { return Threw(h.error), n; }
        n := n + n1;
        if h.value.t == Stop { break; }
        var v, n2 := Skip(h.value.t);
        if v.Threw? { return Threw(v.error), n; }
        n := n + n2;
      }
      StructEnd();
      r := Got(());
    }

    method SkipTimes(t: TType, size: nat) returns (r: Read<()>, n: nat)
      requires boolValue == None
      modifies this`input, this`lastField, this`lastFieldId, this`boolValue
      ensures Agrees(SkipItems(t, size, old(input), lim), r, n, old(input), input)
      ensures r.Got? ==> lastField == old(lastField) && lastFieldId == old(lastFieldId) && boolValue == None
      decreases |input|, 2
    {
      hide SkipValue;
      n := 0;
      var i := 0;
      while i < size
        invariant i <= size && boolValue == None
        invariant lastField == old(lastField) && lastFieldId == old(lastFieldId)
        invariant |input| <= |old(input)| && n == |old(input)| - |input|
        invariant SkipItems(t, size, old(input), lim) == SkipItems(t, size - i, input, lim)
      {
        var v, m := Skip(t);
        if v.Threw? { return Threw(v.error), n; }
        n := n + m;
        i := i + 1;
      }
      r := Got(());
    }

    method SkipTimes2(k: TType, t: TType, size: nat) returns (r: Read<()>, n: nat)
      requires boolValue == None
      modifies this`input, this`lastField, this`lastFieldId, this`boolValue
      ensures Agrees(SkipEntries(k, t, size, old(input), lim), r, n, old(input), input)
      ensures r.Got? ==> lastField == old(lastField) && lastFieldId == old(lastFieldId) && boolValue == None
      decreases |input|, 2
    {
      hide SkipValue;
      n := 0;
      var i := 0;
      while i < size
        invariant i <= size && boolValue == None
        invariant lastField == old(lastField) && lastFieldId == old(lastFieldId)
        invariant |input| <= |old(input)| && n == |old(input)| - |input|
        invariant SkipEntries(k, t, size, old(input), lim) == SkipEntries(k, t, size - i, input, lim)
      {
        var v, m1 := Skip(k);
        if v.Threw? { return Threw(v.error), n; }
        var w, m2 := Skip(t);
        if w.Threw? { return Threw(w.error), n; }
        n := n + m1 + m2;
        i := i + 1;
      }
      r := Got(());
    }
  }

  lemma FourBytes(n: nat, width: nat)
    requires width >= 4
    ensures var n1 := n / 0x100; var n2 := n1 / 0x100; var n3 := n2 / 0x100;
            LittleEndian(n, width) == [n % 0x100, n1 % 0x100, n2 % 0x100, n3 % 0x100]
              + LittleEndian(n3 / 0x100, width - 4)
    ensures LittleEndian(n, 0) == []
  {
    var n1 := n / 0x100;
    var n2 := n1 / 0x100;
    assert LittleEndian(n1, width - 1) == [n1 % 0x100] + LittleEndian(n2, width - 2);
    assert LittleEndian(n2, width - 2) == [n2 % 0x100] + LittleEndian(n2 / 0x100, width - 3);
  }

  /** A field header carries a value exactly when its type is boolean. */
  lemma FieldFlag(last: i16, s: seq<byte>)
    ensures var h := ParseFieldBegin(last, s); h.Ok? ==> (h.value.flag.Some? <==> h.value.t == Bool)
  {
    hide ParseVarint32, UnZigZag32, ToI16;
  }

  // ----- the varint loops -----------------------------------------------------------------

  /** `val` holds the groups read so far, `mul` is the weight of the next one. */
  ghost predicate Progress(whole: Parsed<nat>, part: Parsed<nat>, val: nat, mul: nat) {
    match part
    case Ok(v, rest) => whole == Ok(Weighted(val, mul, v), rest)
    case Fail(e) => whole == Fail(e)
  }

  function Weighted(val: nat, mul: nat, v: nat): (r: nat) { val + mul * v }

  lemma OneBehind(done: seq<byte>, b: byte, rest: seq<byte>)
    ensures done + ([b] + rest) == done + [b] + rest
  {}

  lemma MulAtMost(a: nat, b: nat, c: nat)
    requires a <= b
    ensures a * c <= b * c
  {}

  /** The first nine groups stay below bit 63. */
  lemma LowGroup(val: nat, g: nat, mul: nat)
    requires 128 * mul <= TWO_63 && val < mul && g < 128
    ensures 0 <= g * mul && val + g * mul < 128 * mul
    ensures g * mul % TWO_64 == g * mul && (val + g * mul) % TWO_64 == val + g * mul
  {
    MulAtMost(0, g, mul);
    MulAtMost(g, 127, mul);
    Quotient(g * mul, TWO_64, 0, g * mul);
    Quotient(val + g * mul, TWO_64, 0, val + g * mul);
  }

  /** The tenth group reaches past bit 63, and there its high bits are shifted out. */
  lemma TopGroup(val: nat, g: nat)
    requires val < TWO_63 && g < 128
    ensures (val + g * TWO_63) % TWO_64 == val + g * TWO_63 % TWO_64 < TWO_64
  {
    var q, r := g / 2, g % 2;
    Quotient(g * TWO_63, TWO_64, q, r * TWO_63);
    Quotient(val + g * TWO_63, TWO_64, q, val + r * TWO_63);
  }

  lemma Pow128Nine(k: nat)
    requires k < 10
    ensures Pow128(9) == TWO_63
    ensures k < 9 ==> 128 * Pow128(k) <= TWO_63
  {
    if k < 9 { Pow128Monotone(k + 1, 9); }
  }

  lemma {:induction false} Pow128Monotone(j: nat, k: nat)
    requires j <= k
    ensures Pow128(j) <= Pow128(k)
  {
    if j < k { Pow128Monotone(j, k - 1); }
  }

  /** `val |= (uint64_t)(byte & 0x7f) << shift` with `mul` = 2^shift: the shift drops what
      passes bit 63, and the bits or'ed in are above those of `val`. */
  function AddGroup(val: nat, g: nat, mul: nat): (r: nat) { val + g * mul % TWO_64 }

  lemma GroupSum(val: nat, g: nat, mul: nat, k: nat)
    requires k < 10 && mul == Pow128(k) && val < mul && g < 128
    ensures AddGroup(val, g, mul) == Weighted(val, mul, g) % TWO_64 < TWO_64
    ensures k < 9 ==> AddGroup(val, g, mul) == Weighted(val, mul, g) < mul * 128
  {
    Pow128Nine(k);
    hide Pow128;
    assert g * mul == mul * g;
    if k < 9 { LowGroup(val, g, mul); } else { TopGroup(val, g); }
  }

  /** One more byte: the loop's update of `val` keeps track of what the parser computes. */
  lemma Accumulate(s: seq<byte>, here: seq<byte>, val: nat, mul: nat, k: nat)
    requires k < 10 && here != [] && mul == Pow128(k) && val < mul
    requires Progress(ParseRawVarint(s, 0), ParseRawVarint(here, k), val, mul)
    ensures var next := AddGroup(val, here[0] % 128, mul);
      && (k < 9 ==> next < mul * 128)
      && next < TWO_64
      && (here[0] < 128 ==> ParseVarint64(s) == Ok(next, here[1..]))
      && (here[0] >= 128 && k < 9 ==> Progress(ParseRawVarint(s, 0), ParseRawVarint(here[1..], k + 1), next, mul * 128))
      && (here[0] >= 128 && k == 9 ==> ParseVarint64(s) == Fail(InvalidData))
  {
    var g := here[0] % 128;
    GroupSum(val, g, mul, k);
    Unfold(here, k);
    if k < 9 {
      var part := ParseRawVarint(here[1..], k + 1);
      if part.Ok? { Regroup(val, mul, g, part.value); }
    }
    hide ParseRawVarint, AddGroup, Pow128, Weighted;
  }

  lemma Unfold(here: seq<byte>, k: nat)
    requires k < 10 && here != []
    ensures ParseRawVarint(here, k)
         == if here[0] < 128 then Ok(here[0] % 128, here[1..])
            else if k == 9 then Fail(InvalidData)
            else match ParseRawVarint(here[1..], k + 1)
              case Ok(v, rest) => Ok(here[0] % 128 + 128 * v, rest)
              case Fail(e) => Fail(e)
  {}

  lemma UnfoldEmpty(k: nat)
    requires k < 10
    ensures ParseRawVarint([], k) == Fail(EndOfFile)
  {}

  lemma Regroup(val: nat, mul: nat, g: nat, v: nat)
    ensures Weighted(val, mul, g + 128 * v) == Weighted(Weighted(val, mul, g), mul * 128, v)
  {}
}
