/** The compact wire format as two pure definitions, a printer (`Enc`) and a parser (`ParseValue`). */
module CompactFormat {
  import opened Options
  import opened ThriftTypes

  // ----- integers -------------------------------------------------------------------------

  /** Two's complement reinterpretation casts. */
  function ToU32(n: i32): u32 { if n < 0 then n + TWO_32 else n }
  function ToI32(n: u32): i32 { if n >= TWO_31 then n - TWO_32 else n }
  function ToU64(n: i64): u64 { if n < 0 then n + TWO_64 else n }
  function ToI64(n: u64): i64 { if n >= TWO_63 then n - TWO_64 else n }
  function ToI16(n: int): i16 { (n + 0x8000) % TWO_16 - 0x8000 }
  function ToU8(n: i8): byte { if n < 0 then n + 256 else n }
  function ToI8(n: byte): i8 { if n >= 128 then n - 256 else n }

  /** `(n << 1) ^ (n >> 31)`: the arithmetic shift is all ones exactly for negative `n`, and
      xor with all ones subtracts from all ones. */
  function ZigZag32(n: i32): u32 {
    var shifted := (2 * ToU32(n)) % TWO_32;
    if n < 0 then TWO_32 - 1 - shifted else shifted
  }

  /** `(n >> 1) ^ -(n & 1)`. */
  function UnZigZag32(n: u32): i32 {
    ToI32(if n % 2 == 1 then TWO_32 - 1 - n / 2 else n / 2)
  }

  function ZigZag64(n: i64): u64 {
    var shifted := (2 * ToU64(n)) % TWO_64;
    if n < 0 then TWO_64 - 1 - shifted else shifted
  }

  function UnZigZag64(n: u64): i64 {
    ToI64(if n % 2 == 1 then TWO_64 - 1 - n / 2 else n / 2)
  }

  // ----- the printer ----------------------------------------------------------------------

  function Varint(n: nat): (r: seq<byte>)
    ensures |r| > 0
  {
    if n < 128 then [n] else [n % 128 + 128] + Varint(n / 128)
  }

  /** `TTypeToCType`. */
  function CType(t: TType): byte {
    match t
    case Stop => 0
    case Bool => 1
    case Byte => 3
    case I16 => 4
    case I32 => 5
    case I64 => 6
    case Double => 7
    case Str => 8
    case List => 9
    case Set => 10
    case Map => 11
    case Struct => 12
  }

  /** A field id is sent as a 4-bit delta when it is 1 to 15 above the previous id of its struct,
      and in full otherwise. */
  function FieldHeader(last: i16, ctype: byte, id: i16): (r: seq<byte>)
    requires ctype < 16
  {
    if id > last && id - last <= 15 then [(id - last) * 16 + ctype]
    else [ctype] + Varint(ZigZag32(id))
  }

  function CollectionHeader(t: TType, size: nat): (r: seq<byte>) {
    if size <= 14 then [size * 16 + CType(t)] else [0xf0 + CType(t)] + Varint(size)
  }

  function MapHeader(k: TType, v: TType, size: nat): (r: seq<byte>) {
    if size == 0 then [0] else Varint(size) + [CType(k) * 16 + CType(v)]
  }

  /** Eight bytes, least significant first. */
  function LittleEndian(n: nat, width: nat): (r: seq<byte>)
    ensures |r| == width
  {
    if width == 0 then [] else [n % 256] + LittleEndian(n / 256, width - 1)
  }

  function Enc(v: Value): (r: seq<byte>)
    decreases v, 1
  {
    match v
    case BoolV(b) => [if b then 1 else 2]
    case ByteV(n) => [ToU8(n)]
    case I16V(n) => Varint(ZigZag32(n))
    case I32V(n) => Varint(ZigZag32(n))
    case I64V(n) => Varint(ZigZag64(n))
    case DoubleV(n) => LittleEndian(n, 8)
    case StrV(s) => Varint(|s|) + s
    case StructV(fs) => EncFields(0, fs)
    case ListV(t, vs) => CollectionHeader(t, |vs|) + EncItems(vs)
    case SetV(t, vs) => CollectionHeader(t, |vs|) + EncItems(vs)
    case MapV(k, t, es) => MapHeader(k, t, |es|) + EncEntries(es)
  }

  /** A boolean field has no payload: its header's type nibble is the value. */
  function EncField(last: i16, f: Field): (r: seq<byte>)
    decreases f, 2
  {
    if f.value.BoolV? then FieldHeader(last, if f.value.b then 1 else 2, f.id)
    else FieldHeader(last, CType(TypeOf(f.value)), f.id) + Enc(f.value)
  }

  function EncFields(last: i16, fs: seq<Field>): (r: seq<byte>)
    decreases fs, 0
  {
    if fs == [] then [0] else EncField(last, fs[0]) + EncFields(fs[0].id, fs[1..])
  }

  function EncItems(vs: seq<Value>): (r: seq<byte>)
    decreases vs, 0
  {
    if vs == [] then [] else Enc(vs[0]) + EncItems(vs[1..])
  }

  function EncEntries(es: seq<Entry>): (r: seq<byte>)
    decreases es, 0
  {
    if es == [] then [] else EncEntry(es[0]) + EncEntries(es[1..])
  }

  function EncEntry(e: Entry): (r: seq<byte>)
    decreases e, 2
  {
    Enc(e.k) + Enc(e.v)
  }

  // ----- the parser -----------------------------------------------------------------------

  datatype Error = EndOfFile | InvalidData | NegativeSize | SizeLimit | UnknownType | BadVersion

  /** Either a value and the bytes that follow it, or the exception thrown. */
  datatype Parsed<+T> = Ok(value: T, rest: seq<byte>) | Fail(error: Error)

  /** What `readVarint64` accumulates before truncating to 64 bits; `k` bytes were already read. */
  function ParseRawVarint(s: seq<byte>, k: nat): (r: Parsed<nat>)
    requires k < 10
    ensures r.Ok? ==> |r.rest| < |s| && r.rest == s[|s| - |r.rest|..]
    decreases 10 - k
  {
    if s == [] then Fail(EndOfFile)
    else if s[0] < 128 then Ok(s[0], s[1..])
    else if k == 9 then Fail(InvalidData)
    else match ParseRawVarint(s[1..], k + 1)
      case Ok(v, rest) => Ok(s[0] - 128 + 128 * v, rest)
      case Fail(e) => Fail(e)
  }

  function ParseVarint64(s: seq<byte>): (r: Parsed<u64>)
    ensures r.Ok? ==> |r.rest| < |s|
  {
    match ParseRawVarint(s, 0)
    case Ok(v, rest) => Ok(v % TWO_64, rest)
    case Fail(e) => Fail(e)
  }

  /** `readVarint32` reads 64 bits and casts. */
  function ParseVarint32(s: seq<byte>): (r: Parsed<u32>)
    ensures r.Ok? ==> |r.rest| < |s|
  {
    match ParseVarint64(s)
    case Ok(v, rest) => Ok(v % TWO_32, rest)
    case Fail(e) => Fail(e)
  }

  /** `getTType`, which throws on the unassigned nibbles 13 to 15. */
  function TypeOfCode(c: byte): (r: Option<TType>) {
    if c == 0 then Some(Stop)
    else if c == 1 || c == 2 then Some(Bool)
    else if c == 3 then Some(Byte)
    else if c == 4 then Some(I16)
    else if c == 5 then Some(I32)
    else if c == 6 then Some(I64)
    else if c == 7 then Some(Double)
    else if c == 8 then Some(Str)
    else if c == 9 then Some(List)
    else if c == 10 then Some(Set)
    else if c == 11 then Some(Map)
    else if c == 12 then Some(Struct)
    else None
  }

  datatype FieldBegin = FieldBegin(t: TType, id: i16, flag: Option<bool>)

  function ParseFieldBegin(last: i16, s: seq<byte>): (r: Parsed<FieldBegin>)
    ensures r.Ok? ==> |r.rest| < |s|
  {
    if s == [] then Fail(EndOfFile)
    else
      var code := s[0] % 16;
      if code == 0 then Ok(FieldBegin(Stop, 0, None), s[1..])
      else
        var id :=
          if s[0] / 16 == 0 then
            match ParseVarint32(s[1..])
            case Ok(n, rest) => Ok(ToI16(UnZigZag32(n)), rest)
            case Fail(e) => Fail(e)
          else Ok(ToI16(last + s[0] / 16), s[1..]);
        match id
        case Fail(e) => Fail(e)
        case Ok(n, rest) =>
          match TypeOfCode(code)
          case None => Fail(UnknownType)
          case Some(t) => Ok(FieldBegin(t, n, if t == Bool then Some(code == 1) else None), rest)
  }

  datatype CollectionBegin = CollectionBegin(t: TType, size: nat)

  function CheckedSize(n: u32, lim: Limits): (r: Option<Error>) {
    if ToI32(n) < 0 then Some(NegativeSize)
    else if !lim.ContainerOk(ToI32(n)) then Some(SizeLimit)
    else None
  }

  function ParseCollectionBegin(s: seq<byte>, lim: Limits): (r: Parsed<CollectionBegin>)
    ensures r.Ok? ==> |r.rest| < |s|
  {
    if s == [] then Fail(EndOfFile)
    else
      var size := if s[0] / 16 == 15 then ParseVarint32(s[1..]) else Ok(s[0] / 16, s[1..]);
      match size
      case Fail(e) => Fail(e)
      case Ok(n, rest) =>
        match CheckedSize(n, lim)
        case Some(e) => Fail(e)
        case None =>
          match TypeOfCode(s[0] % 16)
          case None => Fail(UnknownType)
          case Some(t) => Ok(CollectionBegin(t, n), rest)
  }

  datatype MapBegin = MapBegin(k: TType, v: TType, size: nat)

  function ParseMapBegin(s: seq<byte>, lim: Limits): (r: Parsed<MapBegin>)
    ensures r.Ok? ==> |r.rest| < |s|
  {
    match ParseVarint32(s)
    case Fail(e) => Fail(e)
    case Ok(n, rest) =>
      if n != 0 && rest == [] then Fail(EndOfFile)
      else
        var kv: byte := if n != 0 then rest[0] else 0;
        match CheckedSize(n, lim)
        case Some(e) => Fail(e)
        case None =>
          match (TypeOfCode(kv / 16), TypeOfCode(kv % 16))
          case (Some(k), Some(v)) => Ok(MapBegin(k, v, n), if n != 0 then rest[1..] else rest)
          case _ => Fail(UnknownType)
  }

  function ParseBinary(s: seq<byte>, lim: Limits): (r: Parsed<seq<byte>>)
    ensures r.Ok? ==> |r.rest| < |s|
  {
    match ParseVarint32(s)
    case Fail(e) => Fail(e)
    case Ok(n, rest) =>
      if n == 0 then Ok([], rest)
      else if ToI32(n) < 0 then Fail(NegativeSize)
      else if !lim.StrOk(ToI32(n)) then Fail(SizeLimit)
      else if |rest| < n then Fail(EndOfFile)
      else Ok(rest[..n], rest[n..])
  }

  function FromLittleEndian(s: seq<byte>): (r: nat) {
    if s == [] then 0 else s[0] + 256 * FromLittleEndian(s[1..])
  }

  function Pow256(k: nat): (r: nat) { if k == 0 then 1 else 256 * Pow256(k - 1) }

  lemma {:induction false} FromLittleEndianBound(s: seq<byte>)
    ensures FromLittleEndian(s) < Pow256(|s|)
  {
    if s != [] { FromLittleEndianBound(s[1..]); }
  }

  function ParseDouble(s: seq<byte>): (r: Parsed<u64>)
    ensures r.Ok? ==> |r.rest| < |s|
  {
    if |s| < 8 then Fail(EndOfFile)
    else
      FromLittleEndianBound(s[..8]);
      assert Pow256(8) == TWO_64;
      Ok(FromLittleEndian(s[..8]), s[8..])
  }

  /** A value that is neither a struct nor a container. */
  function ParseScalar(t: TType, s: seq<byte>, lim: Limits): (r: Parsed<Value>)
    ensures r.Ok? ==> |r.rest| < |s|
  {
    match t
    case Bool => if s == [] then Fail(EndOfFile) else Ok(BoolV(s[0] == 1), s[1..])
    case Byte => if s == [] then Fail(EndOfFile) else Ok(ByteV(ToI8(s[0])), s[1..])
    case I16 =>
      (match ParseVarint32(s)
       case Ok(n, rest) => Ok(I16V(ToI16(UnZigZag32(n))), rest)
       case Fail(e) => Fail(e))
    case I32 =>
      (match ParseVarint32(s)
       case Ok(n, rest) => Ok(I32V(UnZigZag32(n)), rest)
       case Fail(e) => Fail(e))
    case I64 =>
      (match ParseVarint64(s)
       case Ok(n, rest) => Ok(I64V(UnZigZag64(n)), rest)
       case Fail(e) => Fail(e))
    case Double =>
      (match ParseDouble(s)
       case Ok(n, rest) => Ok(DoubleV(n), rest)
       case Fail(e) => Fail(e))
    case Str =>
      (match ParseBinary(s, lim)
       case Ok(b, rest) => Ok(StrV(b), rest)
       case Fail(e) => Fail(e))
    case _ => Fail(UnknownType)
  }

  /** The reader of generated code: the branches of `skip`, keeping what is read. */
  function ParseValue(t: TType, s: seq<byte>, lim: Limits): (r: Parsed<Value>)
    ensures r.Ok? ==> |r.rest| < |s|
    decreases |s|, 1
  {
    match t
    case Struct =>
      (match ParseFields(0, [], s, lim)
       case Ok(fs, rest) => Ok(StructV(fs), rest)
       case Fail(e) => Fail(e))
    case Map =>
      (match ParseMapBegin(s, lim)
       case Fail(e) => Fail(e)
       case Ok(m, s1) =>
         match ParseEntries(m.k, m.v, m.size, [], s1, lim)
         case Ok(es, rest) => Ok(MapV(m.k, m.v, es), rest)
         case Fail(e) => Fail(e))
    case Set =>
      (match ParseCollectionBegin(s, lim)
       case Fail(e) => Fail(e)
       case Ok(c, s1) =>
         match ParseItems(c.t, c.size, [], s1, lim)
         case Ok(vs, rest) => Ok(SetV(c.t, vs), rest)
         case Fail(e) => Fail(e))
    case List =>
      (match ParseCollectionBegin(s, lim)
       case Fail(e) => Fail(e)
       case Ok(c, s1) =>
         match ParseItems(c.t, c.size, [], s1, lim)
         case Ok(vs, rest) => Ok(ListV(c.t, vs), rest)
         case Fail(e) => Fail(e))
    case _ => ParseScalar(t, s, lim)
  }

  function ParseFields(last: i16, acc: seq<Field>, s: seq<byte>, lim: Limits): (r: Parsed<seq<Field>>)
    ensures r.Ok? ==> |r.rest| < |s|
    decreases |s|, 0
  {
    match ParseFieldBegin(last, s)
    case Fail(e) => Fail(e)
    case Ok(h, s1) =>
      if h.t == Stop then Ok(acc, s1)
      else if h.flag.Some? then ParseFields(h.id, acc + [Field(h.id, BoolV(h.flag.value))], s1, lim)
      else
        match ParseValue(h.t, s1, lim)
        case Fail(e) => Fail(e)
        case Ok(v, s2) => ParseFields(h.id, acc + [Field(h.id, v)], s2, lim)
  }

  function ParseItems(t: TType, n: nat, acc: seq<Value>, s: seq<byte>, lim: Limits): (r: Parsed<seq<Value>>)
    ensures r.Ok? ==> |r.rest| <= |s|
    decreases |s|, 2, n
  {
    if n == 0 then Ok(acc, s)
    else
      match ParseValue(t, s, lim)
      case Fail(e) => Fail(e)
      case Ok(v, s1) => ParseItems(t, n - 1, acc + [v], s1, lim)
  }

  function ParseEntries(k: TType, t: TType, n: nat, acc: seq<Entry>, s: seq<byte>, lim: Limits)
    : (r: Parsed<seq<Entry>>)
    ensures r.Ok? ==> |r.rest| <= |s|
    decreases |s|, 2, n
  {
    if n == 0 then Ok(acc, s)
    else
      match ParseValue(k, s, lim)
      case Fail(e) => Fail(e)
      case Ok(x, s1) =>
        match ParseValue(t, s1, lim)
        case Fail(e) => Fail(e)
        case Ok(y, s2) => ParseEntries(k, t, n - 1, acc + [Entry(x, y)], s2, lim)
  }
}
