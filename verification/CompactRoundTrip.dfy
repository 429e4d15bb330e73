/** The parser undoes the printer, at every nesting level and in front of any further bytes. */
module CompactRoundTrip {
  import opened Arithmetic
  import opened Options
  import opened ThriftTypes
  import opened CompactFormat

  // ----- integers -------------------------------------------------------------------------

  lemma ZigZag32RoundTrip(n: i32)
    ensures UnZigZag32(ZigZag32(n)) == n
  {
    ZigZagHalves(n, TWO_32);
  }

  lemma ZigZag64RoundTrip(n: i64)
    ensures UnZigZag64(ZigZag64(n)) == n
  {
    ZigZagHalves(n, TWO_64);
  }

  /** What the shifts and the exclusive or come to: 0, -1, 1, -2, 2, ... are sent as 0, 1, 2, 3, 4, ... */
  lemma ZigZag32Is(n: i32)
    ensures ZigZag32(n) == if n >= 0 then 2 * n else -2 * n - 1
  {
    ZigZagHalves(n, TWO_32);
  }

  lemma ZigZag64Is(n: i64)
    ensures ZigZag64(n) == if n >= 0 then 2 * n else -2 * n - 1
  {
    ZigZagHalves(n, TWO_64);
  }

  /** Every number is what some integer is sent as, so reading a varint gives the number its place
      in that order stands for. */
  lemma UnZigZagIs(m: u64)
    ensures UnZigZag64(m) == (if m % 2 == 0 then m / 2 else -(m / 2) - 1)
    ensures m < TWO_32 ==> UnZigZag32(m) == UnZigZag64(m)
  {}

  /** One byte is enough exactly for -64 to 63. */
  lemma OneByteIff(n: i64)
    ensures |Varint(ZigZag64(n))| == 1 <==> -64 <= n < 64
    ensures -64 <= n < 64 ==> Varint(ZigZag64(n)) == [if n >= 0 then 2 * n else -2 * n - 1]
  {
    hide ZigZag64;
    ZigZag64Is(n);
  }

  /** Doubling a number in two's complement, and taking it from all ones if it is negative. */
  lemma ZigZagHalves(n: int, m: int)
    requires m > 0 && -m <= 2 * n < m
    ensures n >= 0 ==> 2 * n % m == 2 * n && 2 * n / 2 == n && 2 * n % 2 == 0
    ensures n < 0 ==> 2 * (n + m) % m == 2 * n + m && (-2 * n - 1) % 2 == 1 && (-2 * n - 1) / 2 == -n - 1
  {
    if n >= 0 {
      Quotient(2 * n, m, 0, 2 * n);
      Quotient(2 * n, 2, n, 0);
    } else {
      Quotient(2 * (n + m), m, 1, 2 * n + m);
      Quotient(-2 * n - 1, 2, -n - 1, 1);
    }
  }

  function Pow128(k: nat): (r: nat) { if k == 0 then 1 else 128 * Pow128(k - 1) }

  lemma ParseContinuation(b: byte, t: seq<byte>, k: nat)
    requires 128 <= b && k < 9
    ensures ParseRawVarint([b] + t, k)
         == match ParseRawVarint(t, k + 1)
            case Ok(v, rest) => Ok(b - 128 + 128 * v, rest)
            case Fail(e) => Fail(e)
  {
    assert ([b] + t)[1..] == t;
  }

  /** A number below 128^d takes at most `d` bytes, and reading them back leaves what follows. */
  lemma {:induction false} RawVarintRoundTrip(n: nat, k: nat, d: nat, rest: seq<byte>)
    requires 0 < d && k + d <= 10 && n < Pow128(d)
    ensures |Varint(n)| <= d
    ensures ParseRawVarint(Varint(n) + rest, k) == Ok(n, rest)
    decreases d
  {
    hide Varint, ParseRawVarint, Pow128, Group, Higher;
    VarintNext(n);
    if n < 128 {
      ParseLast(n, rest, k);
    } else {
      PowerNext(n, d);
      RawVarintRoundTrip(Higher(n), k + 1, d - 1, rest);
      ParseContinuation(Group(n) + 128, Varint(Higher(n)) + rest, k);
      GroupHigher(n);
      OneInFront(Group(n) + 128, Varint(Higher(n)), rest);
    }
  }

  lemma ParseLast(b: byte, rest: seq<byte>, k: nat)
    requires b < 128 && k < 10
    ensures ParseRawVarint([b] + rest, k) == Ok(b, rest)
  {
    assert ([b] + rest)[1..] == rest;
  }

  lemma OneInFront(b: byte, s: seq<byte>, rest: seq<byte>)
    ensures [b] + s + rest == [b] + (s + rest)
  {}

  lemma GroupHigher(n: nat)
    ensures n == Group(n) + 128 * Higher(n)
  {}

  /** `n & 0x7f`, and `n >> 7`. */
  function Group(v: nat): (r: byte)
    ensures r < 128
  {
    v % 128
  }

  function Higher(v: nat): (r: nat)
    ensures v >= 128 ==> r < v
  {
    v / 128
  }

  lemma VarintNext(v: nat)
    ensures Varint(v) == if v < 128 then [v] else [Group(v) + 128] + Varint(Higher(v))
  {}

  lemma NoPower(v: nat, k: nat)
    requires v < Pow128(k)
    ensures k == 0 ==> v == 0
  {}

  lemma PowerNext(v: nat, k: nat)
    requires 128 <= v < Pow128(k) && k > 0
    ensures k > 1 && Higher(v) < Pow128(k - 1)
  {}

  lemma Pow128Bounds()
    ensures TWO_32 <= Pow128(5) && TWO_64 <= Pow128(10)
  {}

  /** Every 64-bit number takes at most 10 bytes, every 32-bit number at most 5. */
  lemma Varint64RoundTrip(n: u64, rest: seq<byte>)
    ensures |Varint(n)| <= 10
    ensures ParseVarint64(Varint(n) + rest) == Ok(n, rest)
  {
    hide Varint, ParseRawVarint, Pow128;
    Pow128Bounds();
    RawVarintRoundTrip(n, 0, 10, rest);
    Quotient(n, TWO_64, 0, n);
  }

  lemma Varint32RoundTrip(n: u32, rest: seq<byte>)
    ensures |Varint(n)| <= 5
    ensures ParseVarint32(Varint(n) + rest) == Ok(n, rest)
  {
    hide Varint, ParseRawVarint, Pow128;
    Pow128Bounds();
    RawVarintRoundTrip(n, 0, 5, rest);
    Quotient(n, TWO_64, 0, n);
    Quotient(n, TWO_32, 0, n);
  }

  lemma {:induction false} LittleEndianRoundTrip(n: nat, w: nat)
    requires n < Pow256(w)
    ensures FromLittleEndian(LittleEndian(n, w)) == n
  {
    if w > 0 {
      LittleEndianRoundTrip(n / 256, w - 1);
      assert LittleEndian(n, w)[1..] == LittleEndian(n / 256, w - 1);
    }
  }

  // ----- headers --------------------------------------------------------------------------

  lemma TypeCodeRoundTrip(t: TType)
    ensures CType(t) <= 12 && TypeOfCode(CType(t)) == Some(t)
  {}

  /** The delta form and the full form of a field id both come back, for ids in any order. */
  lemma FieldHeaderRoundTrip(last: i16, code: byte, id: i16, rest: seq<byte>)
    requires 0 < code <= 12
    ensures ParseFieldBegin(last, FieldHeader(last, code, id) + rest)
         == Ok(FieldBegin(TypeOfCode(code).value, id, if code <= 2 then Some(code == 1) else None), rest)
  {
    hide Varint, ParseFieldBegin, ParseVarint32, ZigZag32, UnZigZag32, TypeOfCode;
    KnownCode(code);
    if id > last && id - last <= 15 {
      ShortHeader(last, (id - last) * 16 + code, code, id, rest);
      assert FieldHeader(last, code, id) + rest == [(id - last) * 16 + code] + rest;
    } else {
      ZigZag32RoundTrip(id);
      Varint32RoundTrip(ZigZag32(id), rest);
      LongHeader(last, code, id, Varint(ZigZag32(id)) + rest, rest);
      assert FieldHeader(last, code, id) + rest == [code] + (Varint(ZigZag32(id)) + rest);
    }
  }

  lemma KnownCode(code: byte)
    requires code <= 12
    ensures TypeOfCode(code).Some? && (TypeOfCode(code) == Some(Bool) <==> 1 <= code <= 2)
  {}

  lemma ShortHeader(last: i16, b: byte, code: byte, id: i16, rest: seq<byte>)
    requires 0 < code <= 12 && 0 < id - last <= 15 && b == (id - last) * 16 + code
    requires TypeOfCode(code).Some? && (TypeOfCode(code) == Some(Bool) <==> 1 <= code <= 2)
    ensures ParseFieldBegin(last, [b] + rest)
         == Ok(FieldBegin(TypeOfCode(code).value, id, if code <= 2 then Some(code == 1) else None), rest)
  {
    hide ParseVarint32, UnZigZag32, TypeOfCode;
    Quotient(b, 16, id - last, code);
    assert ([b] + rest)[1..] == rest;
  }

  lemma LongHeader(last: i16, code: byte, id: i16, s: seq<byte>, rest: seq<byte>)
    requires 0 < code <= 12 && ParseVarint32(s) == Ok(ZigZag32(id), rest) && UnZigZag32(ZigZag32(id)) == id
    requires TypeOfCode(code).Some? && (TypeOfCode(code) == Some(Bool) <==> 1 <= code <= 2)
    ensures ParseFieldBegin(last, [code] + s)
         == Ok(FieldBegin(TypeOfCode(code).value, id, if code <= 2 then Some(code == 1) else None), rest)
  {
    hide ParseVarint32, ZigZag32, UnZigZag32, TypeOfCode;
    Quotient(code, 16, 0, code);
    assert ([code] + s)[1..] == s;
  }

  lemma StopRoundTrip(last: i16, rest: seq<byte>)
    ensures ParseFieldBegin(last, [0] + rest) == Ok(FieldBegin(Stop, 0, None), rest)
  {
    assert ([0] + rest)[1..] == rest;
  }

  lemma CollectionHeaderRoundTrip(t: TType, n: nat, rest: seq<byte>, lim: Limits)
    requires n < TWO_31 && lim.ContainerOk(n)
    ensures ParseCollectionBegin(CollectionHeader(t, n) + rest, lim) == Ok(CollectionBegin(t, n), rest)
  {
    hide Varint, ParseVarint32, ParseCollectionBegin, CType, TypeOfCode;
    TypeCodeRoundTrip(t);
    if n <= 14 {
      Quotient(n * 16 + CType(t), 16, n, CType(t));
      assert CollectionHeader(t, n) + rest == [n * 16 + CType(t)] + rest;
      CollectionBegins(n * 16 + CType(t), t, n, rest, rest, lim);
    } else {
      Quotient(0xf0 + CType(t), 16, 15, CType(t));
      Varint32RoundTrip(n, rest);
      assert CollectionHeader(t, n) + rest == [0xf0 + CType(t)] + (Varint(n) + rest);
      CollectionBegins(0xf0 + CType(t), t, n, Varint(n) + rest, rest, lim);
    }
  }

  lemma CollectionBegins(b: byte, t: TType, n: nat, s: seq<byte>, rest: seq<byte>, lim: Limits)
    requires n < TWO_31 && lim.ContainerOk(n) && TypeOfCode(b % 16) == Some(t)
    requires if b / 16 == 15 then ParseVarint32(s) == Ok(n, rest) else b / 16 == n && s == rest
    ensures ParseCollectionBegin([b] + s, lim) == Ok(CollectionBegin(t, n), rest)
  {
    hide ParseVarint32, TypeOfCode;
    assert ([b] + s)[1..] == s;
  }

  lemma NonEmptyMapBegin(s: seq<byte>, n: nat, kv: byte, rest: seq<byte>, lim: Limits)
    requires 0 < n < TWO_31 && lim.ContainerOk(n) && ParseVarint32(s) == Ok(n, [kv] + rest)
    requires TypeOfCode(kv / 16).Some? && TypeOfCode(kv % 16).Some?
    ensures ParseMapBegin(s, lim) == Ok(MapBegin(TypeOfCode(kv / 16).value, TypeOfCode(kv % 16).value, n), rest)
  {
    hide ParseVarint32, TypeOfCode;
    assert ([kv] + rest)[1..] == rest;
  }

  /** The header of an empty map carries no types, so they come back as `Stop`. */
  lemma MapHeaderRoundTrip(k: TType, v: TType, n: nat, rest: seq<byte>, lim: Limits)
    requires n < TWO_31 && lim.ContainerOk(n)
    ensures ParseMapBegin(MapHeader(k, v, n) + rest, lim)
         == Ok(if n == 0 then MapBegin(Stop, Stop, 0) else MapBegin(k, v, n), rest)
  {
    hide ParseVarint32, ParseMapBegin, Varint, CType, TypeOfCode;
    if n == 0 {
      EmptyVarint();
      Varint32RoundTrip(0, rest);
      EmptyMapBegin([0] + rest, rest, lim);
    } else {
      TypesByteRoundTrip(k, v);
      var kv := CType(k) * 16 + CType(v);
      assert MapHeader(k, v, n) + rest == Varint(n) + ([kv] + rest);
      Varint32RoundTrip(n, [kv] + rest);
      NonEmptyMapBegin(Varint(n) + ([kv] + rest), n, kv, rest, lim);
    }
  }

  lemma EmptyVarint()
    ensures Varint(0) == [0]
  {}

  lemma EmptyMapBegin(s: seq<byte>, rest: seq<byte>, lim: Limits)
    requires ParseVarint32(s) == Ok(0, rest) && lim.ContainerOk(0)
    ensures ParseMapBegin(s, lim) == Ok(MapBegin(Stop, Stop, 0), rest)
  {
    hide ParseVarint32;
  }

  lemma TypesByteRoundTrip(k: TType, v: TType)
    ensures var kv := CType(k) as int * 16 + CType(v);
      kv < 256 && kv / 16 == CType(k) && kv % 16 == CType(v)
    ensures TypeOfCode(CType(k)) == Some(k) && TypeOfCode(CType(v)) == Some(v)
  {
    TypeCodeRoundTrip(k);
    TypeCodeRoundTrip(v);
    hide CType, TypeOfCode;
    Quotient(CType(k) as int * 16 + CType(v), 16, CType(k), CType(v));
  }

  lemma BinaryRoundTrip(b: seq<byte>, rest: seq<byte>, lim: Limits)
    requires |b| < TWO_31 && lim.StrOk(|b|)
    ensures ParseBinary(Varint(|b|) + b + rest, lim) == Ok(b, rest)
  {
    hide Varint, ParseVarint32, ParseBinary;
    assert Varint(|b|) + b + rest == Varint(|b|) + (b + rest);
    Varint32RoundTrip(|b|, b + rest);
    ParseBinaryAfterSize(Varint(|b|) + b + rest, b, rest, lim);
  }

  lemma ParseBinaryAfterSize(s: seq<byte>, b: seq<byte>, rest: seq<byte>, lim: Limits)
    requires |b| < TWO_31 && lim.StrOk(|b|) && ParseVarint32(s) == Ok(|b|, b + rest)
    ensures ParseBinary(s, lim) == Ok(b, rest)
  {
    hide ParseVarint32;
    assert (b + rest)[..|b|] == b && (b + rest)[|b|..] == rest;
  }

  // ----- values ---------------------------------------------------------------------------

  /** What a reader can see of a value: an empty map loses its key and value types. */
  function Seen(v: Value): (r: Value)
    ensures TypeOf(r) == TypeOf(v)
    decreases v, 1
  {
    match v
    case StructV(fs) => StructV(SeenFields(fs))
    case ListV(t, vs) => ListV(t, SeenItems(vs))
    case SetV(t, vs) => SetV(t, SeenItems(vs))
    case MapV(k, t, es) => if es == [] then MapV(Stop, Stop, []) else MapV(k, t, SeenEntries(es))
    case _ => v
  }

  function SeenField(f: Field): (r: Field)
    decreases f, 2
  {
    Field(f.id, Seen(f.value))
  }

  function SeenFields(fs: seq<Field>): (r: seq<Field>)
    decreases fs, 0
  {
    if fs == [] then [] else [SeenField(fs[0])] + SeenFields(fs[1..])
  }

  function SeenItems(vs: seq<Value>): (r: seq<Value>)
    decreases vs, 0
  {
    if vs == [] then [] else [Seen(vs[0])] + SeenItems(vs[1..])
  }

  function SeenEntry(e: Entry): (r: Entry)
    decreases e, 2
  {
    Entry(Seen(e.k), Seen(e.v))
  }

  function SeenEntries(es: seq<Entry>): (r: seq<Entry>)
    decreases es, 0
  {
    if es == [] then [] else [SeenEntry(es[0])] + SeenEntries(es[1..])
  }

  lemma ScalarRoundTrip(v: Value, rest: seq<byte>, lim: Limits)
    requires WellFormed(v, lim)
    requires !v.StructV? && !v.ListV? && !v.SetV? && !v.MapV?
    ensures ParseScalar(TypeOf(v), Enc(v) + rest, lim) == Ok(v, rest)
  {
    hide Varint, ParseVarint64, ParseVarint32, ParseBinary, ZigZag32, UnZigZag32, ZigZag64, UnZigZag64, ToI16,
         LittleEndian, ParseDouble;
    var s := Enc(v) + rest;
    match v
    case BoolV(b) => assert s[1..] == rest;
    case ByteV(n) => assert s[1..] == rest;
    case I16V(n) =>
      ZigZag32RoundTrip(n);
      Varint32RoundTrip(ZigZag32(n), rest);
      SameI16(n);
    case I32V(n) =>
      ZigZag32RoundTrip(n);
      Varint32RoundTrip(ZigZag32(n), rest);
    case I64V(n) =>
      ZigZag64RoundTrip(n);
      Varint64RoundTrip(ZigZag64(n), rest);
    case DoubleV(n) => DoubleRoundTrip(n, rest);
    case StrV(b) => BinaryRoundTrip(b, rest, lim);
  }

  lemma SameI16(n: i16)
    ensures ToI16(n) == n
  {
    Quotient(n + 0x8000, TWO_16, 0, n + 0x8000);
  }

  lemma DoubleRoundTrip(n: u64, rest: seq<byte>)
    ensures ParseDouble(LittleEndian(n, 8) + rest) == Ok(n, rest)
  {
    hide FromLittleEndian, LittleEndian;
    assert n < Pow256(8);
    LittleEndianRoundTrip(n, 8);
    var s := LittleEndian(n, 8) + rest;
    assert s[..8] == LittleEndian(n, 8) && s[8..] == rest;
  }

  /** For every well-formed tree, reading what was written gives the tree back and stops
      exactly at its end. */
  lemma {:induction false} RoundTrip(v: Value, rest: seq<byte>, lim: Limits)
    requires WellFormed(v, lim)
    ensures ParseValue(TypeOf(v), Enc(v) + rest, lim) == Ok(Seen(v), rest)
    decreases v, 1
  {
    hide ParseItems, ParseEntries, ParseFields, ParseScalar, ParseCollectionBegin, ParseMapBegin, EncFields, EncItems,
         EncEntries, SeenFields, SeenItems, SeenEntries, WellFormedFields, WellFormedItems, WellFormedEntries;
    match v
    case StructV(fs) =>
      FieldsRoundTrip(0, [], fs, rest, lim);
      assert [] + SeenFields(fs) == SeenFields(fs);
    case ListV(t, vs) => CollectionRoundTrip(t, vs, rest, lim);
    case SetV(t, vs) => CollectionRoundTrip(t, vs, rest, lim);
    case MapV(k, t, es) => MapRoundTrip(k, t, es, rest, lim);
    case _ => ScalarRoundTrip(v, rest, lim);
  }

  lemma {:induction false} CollectionRoundTrip(t: TType, vs: seq<Value>, rest: seq<byte>, lim: Limits)
    requires |vs| < TWO_31 && lim.ContainerOk(|vs|) && WellFormedItems(t, vs, lim)
    ensures ParseValue(List, Enc(ListV(t, vs)) + rest, lim) == Ok(ListV(t, SeenItems(vs)), rest)
    ensures ParseValue(Set, Enc(SetV(t, vs)) + rest, lim) == Ok(SetV(t, SeenItems(vs)), rest)
    decreases vs, 2
  {
    hide CollectionHeader, ParseCollectionBegin, ParseItems, ParseEntries, ParseFields, ParseScalar, ParseMapBegin,
         EncItems, SeenItems, WellFormedItems;
    var s := Enc(ListV(t, vs)) + rest;
    assert s == CollectionHeader(t, |vs|) + (EncItems(vs) + rest);
    CollectionHeaderRoundTrip(t, |vs|, EncItems(vs) + rest, lim);
    ItemsRoundTrip(t, [], vs, rest, lim);
    assert [] + SeenItems(vs) == SeenItems(vs);
    assert s == Enc(SetV(t, vs)) + rest;
  }

  lemma {:induction false} MapRoundTrip(k: TType, t: TType, es: seq<Entry>, rest: seq<byte>, lim: Limits)
    requires |es| < TWO_31 && lim.ContainerOk(|es|) && WellFormedEntries(k, t, es, lim)
    ensures ParseValue(Map, Enc(MapV(k, t, es)) + rest, lim) == Ok(Seen(MapV(k, t, es)), rest)
    decreases es, 2
  {
    hide MapHeader, ParseMapBegin, ParseItems, ParseFields, ParseScalar, ParseCollectionBegin, WellFormedEntries;
    var s := Enc(MapV(k, t, es)) + rest;
    assert s == MapHeader(k, t, |es|) + (EncEntries(es) + rest);
    MapHeaderRoundTrip(k, t, |es|, EncEntries(es) + rest, lim);
    if es == [] {
      assert EncEntries(es) + rest == rest;
    } else {
      EntriesRoundTrip(k, t, [], es, rest, lim);
      assert [] + SeenEntries(es) == SeenEntries(es);
    }
  }

  /** One turn of the loop over fields. */
  lemma FieldsNext(last: i16, acc: seq<Field>, s: seq<byte>, h: FieldBegin, s1: seq<byte>, lim: Limits)
    requires ParseFieldBegin(last, s) == Ok(h, s1)
    ensures h.t == Stop ==> ParseFields(last, acc, s, lim) == Ok(acc, s1)
    ensures h.t != Stop && h.flag.Some? ==>
              ParseFields(last, acc, s, lim) == ParseFields(h.id, acc + [Field(h.id, BoolV(h.flag.value))], s1, lim)
    ensures h.t != Stop && h.flag == None && ParseValue(h.t, s1, lim).Ok? ==>
              var v := ParseValue(h.t, s1, lim);
              ParseFields(last, acc, s, lim) == ParseFields(h.id, acc + [Field(h.id, v.value)], v.rest, lim)
  {
    hide ParseFieldBegin, ParseValue;
  }

  /** The first of some fields and the others. */
  lemma FieldsSplit(last: i16, fs: seq<Field>, rest: seq<byte>, lim: Limits)
    requires WellFormedFields(fs, lim) && fs != []
    ensures WellFormedField(fs[0], lim) && WellFormedFields(fs[1..], lim)
    ensures EncFields(last, fs) + rest == EncField(last, fs[0]) + (EncFields(fs[0].id, fs[1..]) + rest)
    ensures SeenFields(fs) == [SeenField(fs[0])] + SeenFields(fs[1..])
  {
    hide WellFormedField, EncField, SeenField;
  }

  lemma {:induction false} FieldsRoundTrip(last: i16, acc: seq<Field>, fs: seq<Field>, rest: seq<byte>, lim: Limits)
    requires WellFormedFields(fs, lim)
    ensures ParseFields(last, acc, EncFields(last, fs) + rest, lim) == Ok(acc + SeenFields(fs), rest)
    decreases fs, 0
  {
    hide ParseFieldBegin, ParseFields, ParseValue, WellFormedFields, WellFormedField, EncField, Seen, TypeOf;
    if fs == [] {
      StopRoundTrip(last, rest);
      FieldsNext(last, acc, [0] + rest, FieldBegin(Stop, 0, None), rest, lim);
      assert acc + SeenFields(fs) == acc;
    } else {
      hide EncFields, SeenFields;
      var f := fs[0];
      var tail := EncFields(f.id, fs[1..]) + rest;
      FieldsSplit(last, fs, rest, lim);
      FieldRoundTrip(last, f, tail, lim);
      var h := ParseFieldBegin(last, EncField(last, f) + tail);
      FieldsNext(last, acc, EncField(last, f) + tail, h.value, h.rest, lim);
      FieldsRoundTrip(f.id, acc + [SeenField(f)], fs[1..], rest, lim);
      assert acc + [SeenField(f)] + SeenFields(fs[1..]) == acc + SeenFields(fs);
    }
  }

  lemma BoolCodes()
    ensures TypeOfCode(1) == Some(Bool) && TypeOfCode(2) == Some(Bool)
  {}

  lemma FieldCodeRange(v: Value)
    requires !v.BoolV?
    ensures 2 < CType(TypeOf(v)) <= 12 && TypeOfCode(CType(TypeOf(v))) == Some(TypeOf(v))
    ensures TypeOf(v) != Stop && TypeOf(v) != Bool
  {}

  lemma BoolSeen(v: Value)
    requires v.BoolV?
    ensures Seen(v) == v
  {}

  /** One field: a boolean is complete with its header, any other value follows it. */
  lemma {:induction false} FieldRoundTrip(last: i16, f: Field, tail: seq<byte>, lim: Limits)
    requires WellFormedField(f, lim)
    ensures var h := ParseFieldBegin(last, EncField(last, f) + tail);
      && h.Ok? && h.value.t == TypeOf(f.value) && h.value.id == f.id && h.value.t != Stop
      && if f.value.BoolV? then h == Ok(FieldBegin(Bool, f.id, Some(f.value.b)), tail)
         else h.value.flag == None && ParseValue(h.value.t, h.rest, lim) == Ok(Seen(f.value), tail)
    ensures f.value.BoolV? ==> Seen(f.value) == f.value
    decreases f, 2
  {
    hide FieldHeader, ParseFieldBegin, ParseValue, WellFormed, Enc, Seen, CType, TypeOfCode;
    if f.value.BoolV? { BoolSeen(f.value); }
    var code := if f.value.BoolV? then (if f.value.b then 1 else 2) else CType(TypeOf(f.value));
    if f.value.BoolV? {
      assert TypeOfCode(1) == TypeOfCode(2) == Some(Bool) by { BoolCodes(); }
      FieldHeaderRoundTrip(last, code, f.id, tail);
    } else {
      FieldCodeRange(f.value);
      FieldHeaderRoundTrip(last, code, f.id, Enc(f.value) + tail);
      assert EncField(last, f) + tail == FieldHeader(last, code, f.id) + (Enc(f.value) + tail);
      RoundTrip(f.value, tail, lim);
    }
  }

  lemma ItemsNext(t: TType, n: nat, acc: seq<Value>, s: seq<byte>, lim: Limits)
    ensures n == 0 ==> ParseItems(t, n, acc, s, lim) == Ok(acc, s)
    ensures n > 0 && ParseValue(t, s, lim).Ok? ==>
              var v := ParseValue(t, s, lim);
              ParseItems(t, n, acc, s, lim) == ParseItems(t, n - 1, acc + [v.value], v.rest, lim)
  {
    hide ParseValue;
  }

  lemma ItemsSplit(t: TType, vs: seq<Value>, rest: seq<byte>, lim: Limits)
    requires WellFormedItems(t, vs, lim) && vs != []
    ensures TypeOf(vs[0]) == t && WellFormed(vs[0], lim) && WellFormedItems(t, vs[1..], lim)
    ensures EncItems(vs) + rest == Enc(vs[0]) + (EncItems(vs[1..]) + rest)
    ensures SeenItems(vs) == [Seen(vs[0])] + SeenItems(vs[1..])
  {
    hide WellFormed, Enc, Seen, TypeOf;
  }

  lemma {:induction false} ItemsRoundTrip(t: TType, acc: seq<Value>, vs: seq<Value>, rest: seq<byte>, lim: Limits)
    requires WellFormedItems(t, vs, lim)
    ensures ParseItems(t, |vs|, acc, EncItems(vs) + rest, lim) == Ok(acc + SeenItems(vs), rest)
    decreases vs, 0
  {
    hide ParseItems, ParseValue, WellFormed, WellFormedItems, Enc, Seen, TypeOf;
    ItemsNext(t, |vs|, acc, EncItems(vs) + rest, lim);
    if vs == [] {
      assert EncItems(vs) + rest == rest && acc + SeenItems(vs) == acc;
    } else {
      hide EncItems, SeenItems;
      ItemsSplit(t, vs, rest, lim);
      RoundTrip(vs[0], EncItems(vs[1..]) + rest, lim);
      ItemsRoundTrip(t, acc + [Seen(vs[0])], vs[1..], rest, lim);
      assert acc + [Seen(vs[0])] + SeenItems(vs[1..]) == acc + SeenItems(vs);
    }
  }

  lemma {:induction false} EntryRoundTrip(k: TType, t: TType, e: Entry, tail: seq<byte>, lim: Limits)
    requires WellFormedEntry(k, t, e, lim)
    ensures var x := ParseValue(k, EncEntry(e) + tail, lim);
      x.Ok? && x.value == Seen(e.k) && ParseValue(t, x.rest, lim) == Ok(Seen(e.v), tail)
    decreases e, 2
  {
    hide ParseValue, WellFormed, Enc, Seen, TypeOf;
    assert EncEntry(e) + tail == Enc(e.k) + (Enc(e.v) + tail);
    RoundTrip(e.k, Enc(e.v) + tail, lim);
    RoundTrip(e.v, tail, lim);
  }

  lemma EntriesNext(k: TType, t: TType, n: nat, acc: seq<Entry>, s: seq<byte>, lim: Limits)
    ensures n == 0 ==> ParseEntries(k, t, n, acc, s, lim) == Ok(acc, s)
    ensures var x := ParseValue(k, s, lim);
            n > 0 && x.Ok? && ParseValue(t, x.rest, lim).Ok? ==>
              var y := ParseValue(t, x.rest, lim);
              ParseEntries(k, t, n, acc, s, lim)
              == ParseEntries(k, t, n - 1, acc + [Entry(x.value, y.value)], y.rest, lim)
  {
    hide ParseValue;
  }

  lemma EntriesSplit(k: TType, t: TType, es: seq<Entry>, rest: seq<byte>, lim: Limits)
    requires WellFormedEntries(k, t, es, lim) && es != []
    ensures WellFormedEntry(k, t, es[0], lim) && WellFormedEntries(k, t, es[1..], lim)
    ensures EncEntries(es) + rest == EncEntry(es[0]) + (EncEntries(es[1..]) + rest)
    ensures SeenEntries(es) == [SeenEntry(es[0])] + SeenEntries(es[1..])
  {
    hide WellFormedEntry, EncEntry, SeenEntry;
  }

  lemma {:induction false} EntriesRoundTrip(k: TType, t: TType, acc: seq<Entry>, es: seq<Entry>, rest: seq<byte>,
                                            lim: Limits)
    requires WellFormedEntries(k, t, es, lim)
    ensures ParseEntries(k, t, |es|, acc, EncEntries(es) + rest, lim) == Ok(acc + SeenEntries(es), rest)
    decreases es, 0
  {
    hide ParseEntries, ParseValue, WellFormedEntry, WellFormedEntries, EncEntry, Seen;
    EntriesNext(k, t, |es|, acc, EncEntries(es) + rest, lim);
    if es == [] {
      assert EncEntries(es) + rest == rest && acc + SeenEntries(es) == acc;
    } else {
      hide EncEntries, SeenEntries;
      var tail := EncEntries(es[1..]) + rest;
      EntriesSplit(k, t, es, rest, lim);
      EntryRoundTrip(k, t, es[0], tail, lim);
      EntriesRoundTrip(k, t, acc + [SeenEntry(es[0])], es[1..], rest, lim);
      assert acc + [SeenEntry(es[0])] + SeenEntries(es[1..]) == acc + SeenEntries(es);
    }
  }

  // ----- what an empty map loses ----------------------------------------------------------

  /** No empty map in the tree has types of its own to lose. */
  predicate Intact(v: Value)
    decreases v, 1
  {
    match v
    case StructV(fs) => IntactFields(fs)
    case ListV(t, vs) => IntactItems(vs)
    case SetV(t, vs) => IntactItems(vs)
    case MapV(k, t, es) => (es == [] ==> k == Stop && t == Stop) && IntactEntries(es)
    case _ => true
  }

  predicate IntactFields(fs: seq<Field>)
    decreases fs, 0
  {
    fs == [] || (IntactField(fs[0]) && IntactFields(fs[1..]))
  }

  predicate IntactField(f: Field)
    decreases f, 2
  {
    Intact(f.value)
  }

  predicate IntactItems(vs: seq<Value>)
    decreases vs, 0
  {
    vs == [] || (Intact(vs[0]) && IntactItems(vs[1..]))
  }

  predicate IntactEntries(es: seq<Entry>)
    decreases es, 0
  {
    es == [] || (IntactEntry(es[0]) && IntactEntries(es[1..]))
  }

  predicate IntactEntry(e: Entry)
    decreases e, 2
  {
    Intact(e.k) && Intact(e.v)
  }

  /** A tree comes back unchanged exactly when no empty map in it has types to lose. */
  lemma ExactRoundTrip(v: Value, rest: seq<byte>, lim: Limits)
    requires WellFormed(v, lim)
    ensures ParseValue(TypeOf(v), Enc(v) + rest, lim) == Ok(v, rest) <==> Intact(v)
  {
    hide ParseValue, Enc, WellFormed, Seen, Intact;
    RoundTrip(v, rest, lim);
    SeenIsSame(v);
  }

  lemma {:induction false} SeenIsSame(v: Value)
    ensures Seen(v) == v <==> Intact(v)
    decreases v, 1
  {
    match v
    case StructV(fs) => FieldsSame(fs);
    case ListV(t, vs) => ItemsSame(vs);
    case SetV(t, vs) => ItemsSame(vs);
    case MapV(k, t, es) => EntriesSame(es);
    case _ =>
  }

  lemma {:induction false} FieldsSame(fs: seq<Field>)
    ensures SeenFields(fs) == fs <==> IntactFields(fs)
    decreases fs, 0
  {
    if fs != [] {
      FieldSame(fs[0]);
      FieldsSame(fs[1..]);
      SameParts(SeenField(fs[0]), SeenFields(fs[1..]), fs);
    }
  }

  lemma {:induction false} ItemsSame(vs: seq<Value>)
    ensures SeenItems(vs) == vs <==> IntactItems(vs)
    decreases vs, 0
  {
    if vs != [] {
      SeenIsSame(vs[0]);
      ItemsSame(vs[1..]);
      SameParts(Seen(vs[0]), SeenItems(vs[1..]), vs);
    }
  }

  lemma {:induction false} EntriesSame(es: seq<Entry>)
    ensures SeenEntries(es) == es <==> IntactEntries(es)
    decreases es, 0
  {
    if es != [] {
      EntrySame(es[0]);
      EntriesSame(es[1..]);
      SameParts(SeenEntry(es[0]), SeenEntries(es[1..]), es);
    }
  }

  lemma {:induction false} FieldSame(f: Field)
    ensures SeenField(f) == f <==> IntactField(f)
    decreases f, 2
  {
    SeenIsSame(f.value);
  }

  lemma {:induction false} EntrySame(e: Entry)
    ensures SeenEntry(e) == e <==> IntactEntry(e)
    decreases e, 2
  {
    SeenIsSame(e.k);
    SeenIsSame(e.v);
  }

  lemma SameParts<T>(x: T, xs: seq<T>, s: seq<T>)
    requires s != []
    ensures [x] + xs == s <==> x == s[0] && xs == s[1..]
  {
    assert s == [s[0]] + s[1..];
    assert ([x] + xs)[0] == x && ([x] + xs)[1..] == xs;
  }
}
