/** What `TProtocol::skip` consumes, and what `TApplicationException::read` keeps. */
module CompactSkip {
  import opened ThriftTypes
  import opened CompactFormat
  import opened CompactRoundTrip

  function Discard<T>(p: Parsed<T>): (r: Parsed<()>) {
    match p
    case Ok(_, rest) => Ok((), rest)
    case Fail(e) => Fail(e)
  }

  /** The switch of `skip`; its default branch, reached by `T_STOP` elements, consumes nothing. */
  function SkipValue(t: TType, s: seq<byte>, lim: Limits): (r: Parsed<()>)
    ensures r.Ok? ==> |r.rest| <= |s|
    decreases |s|, 1
  {
    match t
    case Struct => SkipFields(0, s, lim)
    case Map =>
      (match ParseMapBegin(s, lim)
       case Fail(e) => Fail(e)
       case Ok(m, s1) => SkipEntries(m.k, m.v, m.size, s1, lim))
    case Set =>
      (match ParseCollectionBegin(s, lim)
       case Fail(e) => Fail(e)
       case Ok(c, s1) => SkipItems(c.t, c.size, s1, lim))
    case List =>
      (match ParseCollectionBegin(s, lim)
       case Fail(e) => Fail(e)
       case Ok(c, s1) => SkipItems(c.t, c.size, s1, lim))
    case Stop => Ok((), s)
    case _ => Discard(ParseScalar(t, s, lim))
  }

  function SkipFields(last: i16, s: seq<byte>, lim: Limits): (r: Parsed<()>)
    ensures r.Ok? ==> |r.rest| < |s|
    decreases |s|, 0
  {
    match ParseFieldBegin(last, s)
    case Fail(e) => Fail(e)
    case Ok(h, s1) =>
      if h.t == Stop then Ok((), s1)
      else if h.flag.Some? then SkipFields(h.id, s1, lim)
      else
        match SkipValue(h.t, s1, lim)
        case Fail(e) => Fail(e)
        case Ok(_, s2) => SkipFields(h.id, s2, lim)
  }

  function SkipItems(t: TType, n: nat, s: seq<byte>, lim: Limits): (r: Parsed<()>)
    ensures r.Ok? ==> |r.rest| <= |s|
    decreases |s|, 2, n
  {
    if n == 0 then Ok((), s)
    else
      match SkipValue(t, s, lim)
      case Fail(e) => Fail(e)
      case Ok(_, s1) => SkipItems(t, n - 1, s1, lim)
  }

  function SkipEntries(k: TType, t: TType, n: nat, s: seq<byte>, lim: Limits): (r: Parsed<()>)
    ensures r.Ok? ==> |r.rest| <= |s|
    decreases |s|, 2, n
  {
    if n == 0 then Ok((), s)
    else
      match SkipValue(k, s, lim)
      case Fail(e) => Fail(e)
      case Ok(_, s1) =>
        match SkipValue(t, s1, lim)
        case Fail(e) => Fail(e)
        case Ok(_, s2) => SkipEntries(k, t, n - 1, s2, lim)
  }

  // ----- skipping agrees with reading -----------------------------------------------------

  /** On every byte stream, well formed or not: where reading succeeds, skipping succeeds and
      stops at the same byte. */
  lemma {:induction false} SkipAgreesWithRead(t: TType, s: seq<byte>, lim: Limits)
    requires ParseValue(t, s, lim).Ok?
    ensures SkipValue(t, s, lim) == Ok((), ParseValue(t, s, lim).rest)
    decreases |s|, 1
  {
    hide ParseScalar, ParseCollectionBegin, ParseMapBegin, ParseFieldBegin;
    match t
    case Struct => SkipFieldsAgrees(0, [], s, lim);
    case Map =>
      var m := ParseMapBegin(s, lim);
      SkipEntriesAgrees(m.value.k, m.value.v, m.value.size, [], m.rest, lim);
    case Set =>
      var c := ParseCollectionBegin(s, lim);
      SkipItemsAgrees(c.value.t, c.value.size, [], c.rest, lim);
    case List =>
      var c := ParseCollectionBegin(s, lim);
      SkipItemsAgrees(c.value.t, c.value.size, [], c.rest, lim);
    case Stop => assert ParseScalar(Stop, s, lim).Fail? by { StopIsNotRead(s, lim); }
    case _ =>
  }

  lemma StopIsNotRead(s: seq<byte>, lim: Limits)
    ensures ParseScalar(Stop, s, lim).Fail?
  {}

  lemma {:induction false} SkipFieldsAgrees(last: i16, acc: seq<Field>, s: seq<byte>, lim: Limits)
    requires ParseFields(last, acc, s, lim).Ok?
    ensures SkipFields(last, s, lim) == Ok((), ParseFields(last, acc, s, lim).rest)
    decreases |s|, 0
  {
    hide ParseScalar, ParseCollectionBegin, ParseMapBegin, ParseFieldBegin, ParseValue, SkipValue;
    var p := ParseFieldBegin(last, s);
    var h, s1 := p.value, p.rest;
    if h.t == Stop {
    } else if h.flag.Some? {
      SkipFieldsAgrees(h.id, acc + [Field(h.id, BoolV(h.flag.value))], s1, lim);
    } else {
      SkipAgreesWithRead(h.t, s1, lim);
      var v := ParseValue(h.t, s1, lim);
      SkipFieldsAgrees(h.id, acc + [Field(h.id, v.value)], v.rest, lim);
    }
  }

  lemma {:induction false} SkipItemsAgrees(t: TType, n: nat, acc: seq<Value>, s: seq<byte>, lim: Limits)
    requires ParseItems(t, n, acc, s, lim).Ok?
    ensures SkipItems(t, n, s, lim) == Ok((), ParseItems(t, n, acc, s, lim).rest)
    decreases |s|, 2, n
  {
    hide ParseValue, SkipValue;
    if n > 0 {
      SkipAgreesWithRead(t, s, lim);
      var v := ParseValue(t, s, lim);
      SkipItemsAgrees(t, n - 1, acc + [v.value], v.rest, lim);
    }
  }

  lemma {:induction false} SkipEntriesAgrees(k: TType, t: TType, n: nat, acc: seq<Entry>, s: seq<byte>, lim: Limits)
    requires ParseEntries(k, t, n, acc, s, lim).Ok?
    ensures SkipEntries(k, t, n, s, lim) == Ok((), ParseEntries(k, t, n, acc, s, lim).rest)
    decreases |s|, 2, n
  {
    hide ParseValue, SkipValue;
    if n > 0 {
      SkipAgreesWithRead(k, s, lim);
      var x := ParseValue(k, s, lim);
      SkipAgreesWithRead(t, x.rest, lim);
      var y := ParseValue(t, x.rest, lim);
      SkipEntriesAgrees(k, t, n - 1, acc + [Entry(x.value, y.value)], y.rest, lim);
    }
  }

  /** Skipping a value that was written consumes exactly its bytes. */
  lemma SkipWritten(v: Value, rest: seq<byte>, lim: Limits)
    requires WellFormed(v, lim)
    ensures SkipValue(TypeOf(v), Enc(v) + rest, lim) == Ok((), rest)
  {
    hide ParseValue, SkipValue;
    RoundTrip(v, rest, lim);
    SkipAgreesWithRead(TypeOf(v), Enc(v) + rest, lim);
  }

  // ----- the application exception --------------------------------------------------------

  datatype Exception = Exception(message: seq<byte>, kind: i32)

  /** The field loop of `TApplicationException::read`. */
  function ParseException(last: i16, x: Exception, s: seq<byte>, lim: Limits): (r: Parsed<Exception>)
    decreases |s|
  {
    match ParseFieldBegin(last, s)
    case Fail(e) => Fail(e)
    case Ok(h, s1) =>
      if h.t == Stop then Ok(x, s1)
      else if h.id == 1 && h.t == Str then
        match ParseBinary(s1, lim)
        case Fail(e) => Fail(e)
        case Ok(b, s2) => ParseException(h.id, x.(message := b), s2, lim)
      else if h.id == 2 && h.t == I32 then
        match ParseVarint32(s1)
        case Fail(e) => Fail(e)
        case Ok(n, s2) => ParseException(h.id, x.(kind := UnZigZag32(n)), s2, lim)
      else if h.flag.Some? then ParseException(h.id, x, s1, lim)
      else
        match SkipValue(h.t, s1, lim)
        case Fail(e) => Fail(e)
        case Ok(_, s2) => ParseException(h.id, x, s2, lim)
  }

  /** The last field 1 that is a string and the last field 2 that is an i32; anything else,
      including fields 1 and 2 of another type, is ignored. */
  function LastKnown(x: Exception, fs: seq<Field>): (r: Exception) {
    if fs == [] then x
    else
      var f := fs[|fs| - 1];
      var before := LastKnown(x, fs[..|fs| - 1]);
      if f.id == 1 && f.value.StrV? then before.(message := f.value.bytes)
      else if f.id == 2 && f.value.I32V? then before.(kind := f.value.i32)
      else before
  }

  /** The same choice made front to back, one field at a time. */
  function Update(x: Exception, f: Field): (r: Exception) {
    if f.id == 1 && f.value.StrV? then x.(message := f.value.bytes)
    else if f.id == 2 && f.value.I32V? then x.(kind := f.value.i32)
    else x
  }

  lemma {:induction false} LastKnownStep(x: Exception, fs: seq<Field>)
    requires fs != []
    ensures LastKnown(x, fs) == LastKnown(Update(x, fs[0]), fs[1..])
  {
    if |fs| > 1 {
      LastKnownStep(x, fs[..|fs| - 1]);
      assert fs[..|fs| - 1][1..] == fs[1..][..|fs| - 2];
    }
  }

  /** Whatever well-formed fields are interleaved, in any order and any number. */
  lemma {:induction false} ExceptionFromFields(last: i16, x: Exception, fs: seq<Field>, rest: seq<byte>, lim: Limits)
    requires WellFormedFields(fs, lim)
    ensures ParseException(last, x, EncFields(last, fs) + rest, lim) == Ok(LastKnown(x, fs), rest)
    decreases |fs|
  {
    hide SkipValue, ParseBinary, ParseVarint32, ParseFieldBegin, Enc, EncField, ParseValue;
    if fs == [] {
      StopRoundTrip(last, rest);
    } else {
      var f := fs[0];
      var tail := EncFields(f.id, fs[1..]) + rest;
      assert EncFields(last, fs) + rest == EncField(last, f) + tail;
      ExceptionField(last, x, f, tail, lim);
      ExceptionFromFields(f.id, Update(x, f), fs[1..], rest, lim);
      LastKnownStep(x, fs);
    }
  }

  lemma ExceptionField(last: i16, x: Exception, f: Field, tail: seq<byte>, lim: Limits)
    requires WellFormedField(f, lim)
    ensures ParseException(last, x, EncField(last, f) + tail, lim) == ParseException(f.id, Update(x, f), tail, lim)
  {
    hide SkipValue, ParseBinary, ParseVarint32, ParseFieldBegin, Enc, EncField, ParseValue, TypeOf;
    FieldRoundTrip(last, f, tail, lim);
    var h := ParseFieldBegin(last, EncField(last, f) + tail);
    if !f.value.BoolV? {
      SkipAgreesWithRead(h.value.t, h.rest, lim);
      KnownTypes(f.value, h.rest, lim);
    } else {
      assert TypeOf(f.value) == Bool by { BoolType(f.value); }
    }
  }

  lemma BoolType(v: Value)
    ensures v.BoolV? <==> TypeOf(v) == Bool
    ensures v.StrV? <==> TypeOf(v) == Str
    ensures v.I32V? <==> TypeOf(v) == I32
  {}

  /** Reading a string or an i32 as a value is reading it with its own primitive. */
  lemma KnownTypes(v: Value, s: seq<byte>, lim: Limits)
    requires ParseValue(TypeOf(v), s, lim).Ok? && ParseValue(TypeOf(v), s, lim).value == Seen(v)
    ensures v.StrV? <==> TypeOf(v) == Str
    ensures v.I32V? <==> TypeOf(v) == I32
    ensures v.StrV? ==> ParseBinary(s, lim) == Ok(v.bytes, ParseValue(TypeOf(v), s, lim).rest)
    ensures v.I32V? ==> ParseVarint32(s).Ok? && UnZigZag32(ParseVarint32(s).value) == v.i32
    ensures v.I32V? ==> ParseVarint32(s).rest == ParseValue(TypeOf(v), s, lim).rest
  {
    hide ParseBinary, ParseVarint32;
    BoolType(v);
  }
}
