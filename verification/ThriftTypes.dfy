/** Machine integers, wire bytes and the value trees that the Thrift protocols carry. */
module ThriftTypes {
  type byte = b: int | 0 <= b < 256

  const TWO_16 := 0x1_0000
  const TWO_31 := 0x8000_0000
  const TWO_32 := 0x1_0000_0000
  const TWO_63 := 0x8000_0000_0000_0000
  const TWO_64 := 0x1_0000_0000_0000_0000

  type i8 = n: int | -0x80 <= n < 0x80
  type i16 = n: int | -0x8000 <= n < 0x8000
  type i32 = n: int | -0x8000_0000 <= n < 0x8000_0000
  type i64 = n: int | -0x8000_0000_0000_0000 <= n < 0x8000_0000_0000_0000
  type u32 = n: int | 0 <= n < 0x1_0000_0000
  type u64 = n: int | 0 <= n < 0x1_0000_0000_0000_0000

  /** The type tags of `TType` that have a wire form, and `T_STOP`. */
  datatype TType = Stop | Bool | Byte | I16 | I32 | I64 | Double | Str | Struct | Map | Set | List

  /** A value as generated code hands it to a protocol.  Doubles are opaque 64-bit words. */
  datatype Value =
    | BoolV(b: bool)
    | ByteV(i8: i8)
    | I16V(i16: i16)
    | I32V(i32: i32)
    | I64V(i64: i64)
    | DoubleV(bits: u64)
    | StrV(bytes: seq<byte>)
    | StructV(fields: seq<Field>)
    | ListV(elem: TType, items: seq<Value>)
    | SetV(elem: TType, items: seq<Value>)
    | MapV(key: TType, val: TType, entries: seq<Entry>)

  datatype Field = Field(id: i16, value: Value)

  datatype Entry = Entry(k: Value, v: Value)

  function TypeOf(v: Value): TType {
    match v
    case BoolV(_) => Bool
    case ByteV(_) => Byte
    case I16V(_) => I16
    case I32V(_) => I32
    case I64V(_) => I64
    case DoubleV(_) => Double
    case StrV(_) => Str
    case StructV(_) => Struct
    case ListV(_, _) => List
    case SetV(_, _) => Set
    case MapV(_, _, _) => Map
  }

  /** `string_limit_` and `container_limit_`; zero means unlimited. */
  datatype Limits = Limits(str: i32, container: i32) {
    predicate StrOk(n: int) { !(str > 0 && n > str) }
    predicate ContainerOk(n: int) { !(container != 0 && n > container) }
  }

  /** The trees a client may write: containers are homogeneous, every size is below 2^31
      and within the limits the reader was configured with. */
  predicate WellFormed(v: Value, lim: Limits)
    decreases v, 1
  {
    match v
    case StrV(s) => |s| < TWO_31 && lim.StrOk(|s|)
    case StructV(fs) => WellFormedFields(fs, lim)
    case ListV(t, vs) => |vs| < TWO_31 && lim.ContainerOk(|vs|) && WellFormedItems(t, vs, lim)
    case SetV(t, vs) => |vs| < TWO_31 && lim.ContainerOk(|vs|) && WellFormedItems(t, vs, lim)
    case MapV(k, t, es) => |es| < TWO_31 && lim.ContainerOk(|es|) && WellFormedEntries(k, t, es, lim)
    case _ => true
  }

  predicate WellFormedFields(fs: seq<Field>, lim: Limits)
    decreases fs, 0
  {
    fs == [] || (WellFormedField(fs[0], lim) && WellFormedFields(fs[1..], lim))
  }

  predicate WellFormedField(f: Field, lim: Limits)
    decreases f, 2
  {
    WellFormed(f.value, lim)
  }

  predicate WellFormedItems(t: TType, vs: seq<Value>, lim: Limits)
    decreases vs, 0
  {
    vs == [] || (TypeOf(vs[0]) == t && WellFormed(vs[0], lim) && WellFormedItems(t, vs[1..], lim))
  }

  predicate WellFormedEntries(k: TType, t: TType, es: seq<Entry>, lim: Limits)
    decreases es, 0
  {
    es == [] || (WellFormedEntry(k, t, es[0], lim) && WellFormedEntries(k, t, es[1..], lim))
  }

  predicate WellFormedEntry(k: TType, t: TType, e: Entry, lim: Limits)
    decreases e, 2
  {
    TypeOf(e.k) == k && WellFormed(e.k, lim) && TypeOf(e.v) == t && WellFormed(e.v, lim)
  }
}
