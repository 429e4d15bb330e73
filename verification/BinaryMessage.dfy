/** `TBinaryProtocol`: the message header in its versioned and its older form, and the strings and
    integers in it. */
module BinaryMessage {
  import opened ThriftTypes
  import C = CompactFormat
  import F = FramedTransport

  const VERSION_1 := 0x8001_0000

  datatype Header = Header(name: seq<byte>, messageType: int, seqid: i32)

  datatype Outcome<T> = Got(value: T) | BadVersion | NegativeSize | SizeLimit | EndOfFile

  function StringBytes(s: seq<byte>): (r: seq<byte>)
    requires |s| < TWO_32
  {
    F.BigEndian(|s|) + s
  }

  /** The two forms: version and type in one word before the name, or the type in a byte after it. */
  function HeaderBytes(h: Header, strict: bool): (r: seq<byte>)
    requires |h.name| < TWO_32 && 0 <= h.messageType < 0x80
  {
    if strict then F.BigEndian(VERSION_1 + h.messageType) + StringBytes(h.name) + F.BigEndian(C.ToU32(h.seqid))
    else StringBytes(h.name) + [h.messageType] + F.BigEndian(C.ToU32(h.seqid))
  }

  /** A call of "ping" with sequence id -2 in both forms. */
  lemma HeaderInBytes()
    ensures var h := Header([0x70, 0x69, 0x6e, 0x67], 1, -2);
            && HeaderBytes(h, true)
               == [0x80, 1, 0, 1, 0, 0, 0, 4, 0x70, 0x69, 0x6e, 0x67, 0xff, 0xff, 0xff, 0xfe]
            && HeaderBytes(h, false) == [0, 0, 0, 4, 0x70, 0x69, 0x6e, 0x67, 1, 0xff, 0xff, 0xff, 0xfe]
  {
    assert F.BigEndian(4) == [0, 0, 0, 4] && F.BigEndian(C.ToU32(-2)) == [0xff, 0xff, 0xff, 0xfe];
    assert F.BigEndian(VERSION_1 + 1) == [0x80, 1, 0, 1];
  }

  class TBinaryProtocol {
    var input: seq<byte>
    var output: seq<byte>
    const strictRead: bool
    const strictWrite: bool
    const lim: Limits

    constructor (input: seq<byte>, strictRead: bool, strictWrite: bool, lim: Limits)
      ensures this.input == input && output == []
      ensures this.strictRead == strictRead && this.strictWrite == strictWrite && this.lim == lim
    {
      this.input, output := input, [];
      this.strictRead, this.strictWrite, this.lim := strictRead, strictWrite, lim;
    }

    // ----- writing ------------------------------------------------------------------------

    method WriteI32(n: u32) returns (size: nat)
      modifies this`output
      ensures output == old(output) + F.BigEndian(n) && size == 4
    {
      output := output + F.BigEndian(n);
      size := 4;
    }

    method WriteByte(x: byte) returns (size: nat)
      modifies this`output
      ensures output == old(output) + [x] && size == 1
    {
      output := output + [x];
      size := 1;
    }

    method WriteString(s: seq<byte>) returns (size: nat)
      requires |s| < TWO_32
      modifies this`output
      ensures output == old(output) + StringBytes(s) && size == |StringBytes(s)|
    {
      size := WriteI32(|s|);
      if |s| > 0 { output := output + s; }
      size := size + |s|;
    }

    /** `writeMessageBegin`; the size returned is the number of bytes written. */
    method WriteMessageBegin(h: Header) returns (size: nat)
      requires |h.name| < TWO_32 && 0 <= h.messageType < 0x80
      modifies this`output
      ensures output == old(output) + HeaderBytes(h, strictWrite) && size == |HeaderBytes(h, strictWrite)|
    {
      hide StringBytes, F.BigEndian;
      var n;
      if strictWrite {
        size := WriteI32(VERSION_1 + h.messageType);
        n := WriteString(h.name);
        size := size + n;
      } else {
        size := WriteString(h.name);
        n := WriteByte(h.messageType);
        size := size + n;
      }
      n := WriteI32(C.ToU32(h.seqid));
      size := size + n;
    }

    // ----- reading ------------------------------------------------------------------------

    /** `readAll`. */
    method Take(n: nat) returns (r: Outcome<seq<byte>>)
      modifies this`input
      ensures (r, input) == if n <= |old(input)| then (Got(old(input)[..n]), old(input)[n..]) else (EndOfFile, [])
    {
      if n <= |input| {
        r := Got(input[..n]);
        input := input[n..];
      } else {
        r := EndOfFile;
        input := [];
      }
    }

    method ReadI32() returns (r: Outcome<u32>)
      modifies this`input
      ensures (r, input) == ParsedWord(old(input))
    {
      hide F.FromBigEndian;
      var b := Take(4);
      match b {
        case Got(bytes) =>
          r := Got(F.FromBigEndian(bytes));
        case _ => r := EndOfFile;
      }
    }

    /** `readStringBody`. */
    method ReadStringBody(size: i32) returns (r: Outcome<seq<byte>>)
      modifies this`input
      ensures (r, input) == ParsedBody(old(input), size, lim)
    {
      if size < 0 { return NegativeSize; }
      if lim.str > 0 && size > lim.str { return SizeLimit; }
      if size == 0 { return Got([]); }
      r := Take(size);
    }

    /** `readMessageBegin`. */
    method ReadMessageBegin() returns (r: Outcome<Header>)
      modifies this`input
      ensures r == Parsed(old(input), strictRead, lim).0
      ensures r.Got? ==> input == Parsed(old(input), strictRead, lim).1
    {
      hide F.BigEndian, F.FromBigEndian;
      var first := ReadI32();
      if !first.Got? { return EndOfFile; }
      var w := first.value;
      var name, messageType;
      if C.ToI32(w) < 0 {
        if w / 0x1_0000 * 0x1_0000 != VERSION_1 { return BadVersion; }
        messageType := w % 0x100;
        var size := ReadI32();
        if !size.Got? { return EndOfFile; }
        name := ReadStringBody(C.ToI32(size.value));
        if !name.Got? { return Failure(name); }
      } else {
        if strictRead { return BadVersion; }
        name := ReadStringBody(C.ToI32(w));
        if !name.Got? { return Failure(name); }
        var b := Take(1);
        if !b.Got? { return EndOfFile; }
        messageType := Signed8(b.value[0]);
      }
      var seqid := ReadI32();
      if !seqid.Got? { return EndOfFile; }
      r := Got(Header(name.value, messageType, C.ToI32(seqid.value)));
    }
  }

  function Signed8(x: byte): (n: int) { if x < 0x80 then x as int else x - 0x100 }

  // ----- what a byte string holds ---------------------------------------------------------

  function Failure<T, U>(o: Outcome<T>): (r: Outcome<U>)
    requires !o.Got?
  {
    match o
    case BadVersion => BadVersion
    case NegativeSize => NegativeSize
    case SizeLimit => SizeLimit
    case EndOfFile => EndOfFile
  }

  function ParsedWord(s: seq<byte>): (r: (Outcome<u32>, seq<byte>)) {
    if |s| < 4 then (EndOfFile, []) else (Got(F.FromBigEndian(s[..4])), s[4..])
  }

  function ParsedBody(s: seq<byte>, size: i32, lim: Limits): (r: (Outcome<seq<byte>>, seq<byte>)) {
    if size < 0 then (NegativeSize, s)
    else if !lim.StrOk(size) then (SizeLimit, s)
    else if |s| < size then (EndOfFile, [])
    else (Got(s[..size]), s[size..])
  }

  function ParsedName(s: seq<byte>, lim: Limits): (r: (Outcome<seq<byte>>, seq<byte>)) {
    var size := ParsedWord(s);
    if !size.0.Got? then (EndOfFile, []) else ParsedBody(size.1, C.ToI32(size.0.value), lim)
  }

  function ParsedEnd(s: seq<byte>, name: seq<byte>, messageType: int): (r: (Outcome<Header>, seq<byte>)) {
    var seqid := ParsedWord(s);
    if !seqid.0.Got? then (EndOfFile, []) else (Got(Header(name, messageType, C.ToI32(seqid.0.value))), seqid.1)
  }

  function Parsed(s: seq<byte>, strictRead: bool, lim: Limits): (r: (Outcome<Header>, seq<byte>)) {
    var first := ParsedWord(s);
    if !first.0.Got? then (EndOfFile, [])
    else
      var w := first.0.value;
      if w >= TWO_31 then
        if w / 0x1_0000 != 0x8001 then (BadVersion, first.1)
        else
          var name := ParsedName(first.1, lim);
          if !name.0.Got? then (Failure(name.0), name.1) else ParsedEnd(name.1, name.0.value, w % 0x100)
      else if strictRead then (BadVersion, first.1)
      else
        var name := ParsedBody(first.1, w, lim);
        if !name.0.Got? then (Failure(name.0), name.1)
        else if name.1 == [] then (EndOfFile, [])
        else ParsedEnd(name.1[1..], name.0.value, Signed8(name.1[0]))
  }

  lemma WordBack(n: u32, rest: seq<byte>)
    ensures ParsedWord(F.BigEndian(n) + rest) == (Got(n), rest)
  {
    hide F.FromBigEndian, F.BigEndian;
    F.BigEndianBack(n);
    assert (F.BigEndian(n) + rest)[..4] == F.BigEndian(n);
  }

  lemma BodyBack(s: seq<byte>, rest: seq<byte>, lim: Limits)
    requires |s| < TWO_31 && lim.StrOk(|s|)
    ensures ParsedBody(s + rest, |s|, lim) == (Got(s), rest)
  {}

  /** A header is read back, with nothing after it touched, unless the old form meets a reader that
      insists on versions: that one reports a bad version. */
  lemma HeaderRoundTrip(h: Header, strictWrite: bool, strictRead: bool, lim: Limits, rest: seq<byte>)
    requires |h.name| < TWO_31 && lim.StrOk(|h.name|) && 0 <= h.messageType < 0x80
    ensures var r := Parsed(HeaderBytes(h, strictWrite) + rest, strictRead, lim);
            if strictWrite || !strictRead then r == (Got(h), rest) else r.0 == BadVersion
  {
    hide F.BigEndian, F.FromBigEndian, ParsedWord, ParsedBody;
    var seqid := F.BigEndian(C.ToU32(h.seqid)) + rest;
    WordBack(C.ToU32(h.seqid), rest);
    if strictWrite {
      var name := h.name + seqid;
      var size := F.BigEndian(|h.name|) + name;
      assert HeaderBytes(h, true) + rest == F.BigEndian(VERSION_1 + h.messageType) + size;
      WordBack(VERSION_1 + h.messageType, size);
      WordBack(|h.name|, name);
      BodyBack(h.name, seqid, lim);
    } else {
      var kind := [h.messageType] + seqid;
      var name := h.name + kind;
      assert HeaderBytes(h, false) + rest == F.BigEndian(|h.name|) + name;
      WordBack(|h.name|, name);
      BodyBack(h.name, kind, lim);
      assert kind[1..] == seqid;
    }
  }
}
