/** `SL_Crypto_UrlCode`: percent-encoding (section 2.1 of RFC 3986) driven by bitmaps, and the
    decoder's state machine. */
module UrlCode {
  import opened Arithmetic
  import opened Options
  import opened ThriftTypes

  const PERCENT: byte := 0x25

  // ----- which bytes are escaped ----------------------------------------------------------

  datatype Escape = Uri | Args | UriComponent | Html | Refresh | Memcached | MailAuth

  /** The bitmap words of a class for the bytes 0x00, 0x20, 0x40, 0x60 and from 0x80 on. */
  function Map(t: Escape): (r: seq<nat>)
    ensures |r| == 5
  {
    match t
    case Uri => [0xffffffff, 0x80000029, 0x00000000, 0x80000000, 0xffffffff]
    case Args => [0xffffffff, 0x88000869, 0x00000000, 0x80000000, 0xffffffff]
    case UriComponent => [0xffffffff, 0xfc009fff, 0x78000001, 0xb8000001, 0xffffffff]
    case Html => [0xffffffff, 0x000000ad, 0x00000000, 0x80000000, 0xffffffff]
    case Refresh => [0xffffffff, 0x00000085, 0x00000000, 0x80000000, 0xffffffff]
    case Memcached => [0xffffffff, 0x00000021, 0x00000000, 0x00000000, 0x00000000]
    case MailAuth => [0xffffffff, 0x00000021, 0x00000000, 0x00000000, 0x00000000]
  }

  predicate Bit(n: nat, k: nat) { if k == 0 then n % 2 == 1 else Bit(n / 2, k - 1) }

  /** `escape[*in >> 5] & (1 << (*in & 0x1f))`. */
  predicate Escaped(t: Escape, x: byte) { Bit(Map(t)[if x < 0x80 then x / 32 else 4], x % 32) }

  lemma BitFive(n: nat)
    ensures Bit(n, 5) == (n / 32 % 2 == 1)
  {
    assert Bit(n, 5) == Bit(n / 2, 4) == Bit(n / 2 / 2, 3) == Bit(n / 2 / 2 / 2, 2) == Bit(n / 2 / 2 / 2 / 2, 1)
           == Bit(n / 2 / 2 / 2 / 2 / 2, 0);
  }

  /** Every class but `refresh` escapes the percent sign. */
  lemma EscapesPercent(t: Escape)
    ensures Escaped(t, PERCENT) <==> t != Refresh
  {
    hide Bit;
    BitFive(Map(t)[1]);
    assert PERCENT / 32 == 1 && PERCENT % 32 == 5;
  }

  lemma BitFurther(w: nat, k: nat)
    requires k >= 16
    ensures Bit(w, k) == Bit(w / 0x1_0000, k - 16)
  {
    hide Bit;
    FourBits(w, k);
    FourBits(w / 16, k - 4);
    FourBits(w / 0x100, k - 8);
    FourBits(w / 0x1000, k - 12);
    assert w / 16 / 16 == w / 0x100 && w / 0x100 / 16 == w / 0x1000 && w / 0x1000 / 16 == w / 0x1_0000;
  }

  lemma FourBits(w: nat, k: nat)
    requires k >= 4
    ensures Bit(w, k) == Bit(w / 16, k - 4)
  {
    assert Bit(w, k) == Bit(w / 2, k - 1) == Bit(w / 2 / 2, k - 2) == Bit(w / 2 / 2 / 2, k - 3)
           == Bit(w / 2 / 2 / 2 / 2, k - 4);
  }

  lemma {:induction false} ShiftedBitsClear(q: nat, n: nat, k: nat)
    requires k < n
    ensures !Bit(ShiftUp(q, n), k)
  {
    if k > 0 { ShiftedBitsClear(q, n - 1, k - 1); }
  }

  /** Ten low bits are clear. */
  lemma LowBitsClear(w: nat, k: nat)
    requires w % 1024 == 0 && k < 10
    ensures !Bit(w, k)
  {
    var q := w / 1024;
    FewShifts(q);
    ShiftedBitsClear(q, 10, k);
  }

  /** No class escapes a hexadecimal digit. */
  lemma DigitsPlain(t: Escape, x: byte)
    requires 0x30 <= x <= 0x39 || 0x41 <= x <= 0x46
    ensures !Escaped(t, x)
  {
    hide Bit;
    if x <= 0x39 {
      var w := Map(t)[1];
      BitFurther(w, x % 32);
      LowBitsClear(w / 0x1_0000, x % 32 - 16);
    } else {
      var w := Map(t)[2];
      BitOne(w, x % 32);
      LowBitsClear(w / 2, x % 32 - 1);
    }
  }

  lemma BitOne(w: nat, k: nat)
    requires k > 0
    ensures Bit(w, k) == Bit(w / 2, k - 1)
  {}

  // ----- the encoder ----------------------------------------------------------------------

  function Hex(n: nat): (r: byte)
    requires n < 16
  {
    if n < 10 then 0x30 + n else 0x41 + (n - 10)
  }

  function Piece(t: Escape, x: byte): (r: seq<byte>) {
    if Escaped(t, x) then [PERCENT, Hex(x / 16), Hex(x % 16)] else [x]
  }

  function Encoded(t: Escape, s: seq<byte>): (r: seq<byte>) {
    if s == [] then [] else Encoded(t, s[..|s| - 1]) + Piece(t, s[|s| - 1])
  }

  function EscapeCount(t: Escape, s: seq<byte>): (n: nat) {
    if s == [] then 0 else EscapeCount(t, s[..|s| - 1]) + if Escaped(t, s[|s| - 1]) then 1 else 0
  }

  lemma {:induction false} EncodedLength(t: Escape, s: seq<byte>)
    ensures |Encoded(t, s)| == |s| + 2 * EscapeCount(t, s)
  {
    hide Escaped;
    if s != [] { EncodedLength(t, s[..|s| - 1]); }
  }

  /** `encode` without an output buffer counts the bytes to be escaped. */
  method CountEscapes(input: seq<byte>, t: Escape) returns (n: nat)
    ensures |Encoded(t, input)| == |input| + 2 * n
  {
    hide Escaped;
    n := 0;
    for i := 0 to |input|
      invariant n == EscapeCount(t, input[..i])
    {
      assert input[..i + 1][..i] == input[..i];
      if Escaped(t, input[i]) { n := n + 1; }
    }
    assert input[..|input|] == input;
    EncodedLength(t, input);
  }

  /** One turn of the loop. */
  method EncodeByte(x: byte, output: array<byte>, at: nat, t: Escape) returns (pos: nat)
    requires at + |Piece(t, x)| <= output.Length
    modifies output
    ensures pos == at + |Piece(t, x)| && output[..pos] == old(output[..at]) + Piece(t, x)
    ensures forall k :: pos <= k < output.Length ==> output[k] == old(output[k])
  {
    hide Escaped, Hex;
    pos := at;
    if Escaped(t, x) {
      output[pos] := PERCENT;
      output[pos + 1] := Hex(x / 16);
      output[pos + 2] := Hex(x % 16);
      pos := pos + 3;
    } else {
      output[pos] := x;
      pos := pos + 1;
    }
  }

  lemma NothingEncoded(t: Escape, s: seq<byte>)
    ensures Encoded(t, s[..0]) == []
  {}

  lemma OneMore(t: Escape, s: seq<byte>, i: nat)
    requires i < |s|
    ensures Encoded(t, s[..i + 1]) == Encoded(t, s[..i]) + Piece(t, s[i])
  {
    assert s[..i + 1][..i] == s[..i];
  }

  method Encode(input: seq<byte>, output: array<byte>, t: Escape) returns (outLen: nat)
    requires |Encoded(t, input)| <= output.Length
    modifies output
    ensures outLen == |Encoded(t, input)| && output[..outLen] == Encoded(t, input)
    ensures output[outLen..] == old(output[outLen..])
  {
    hide Piece, Encoded;
    var pos := 0;
    assert input[..|input|] == input;
    NothingEncoded(t, input);
    for i := 0 to |input|
      invariant pos == |Encoded(t, input[..i])| <= |Encoded(t, input)| && output[..pos] == Encoded(t, input[..i])
      invariant forall k :: |Encoded(t, input)| <= k < output.Length ==> output[k] == old(output[k])
    {
      Longer(t, input, i + 1);
      OneMore(t, input, i);
      pos := EncodeByte(input[i], output, pos, t);
    }
    outLen := pos;
  }

  lemma {:induction false} Longer(t: Escape, s: seq<byte>, i: nat)
    requires i <= |s|
    ensures |Encoded(t, s[..i])| <= |Encoded(t, s)|
  {
    hide Escaped;
    if i < |s| {
      Longer(t, s[..|s| - 1], i);
      assert s[..|s| - 1][..i] == s[..i];
    } else {
      assert s[..i] == s;
    }
  }

  // ----- the decoder ----------------------------------------------------------------------

  datatype Mode = Usual | Quoted | QuotedSecond

  datatype State = State(mode: Mode, decoded: byte, out: seq<byte>)

  /** The value of a hexadecimal digit, in either case of letter. */
  function Digit(x: byte): (r: Option<nat>)
    ensures r.Some? ==> r.value < 16
  {
    var c := if x / 32 % 2 == 1 then x as int else x + 32;
    if 0x30 <= x <= 0x39 then Some(x - 0x30) else if 0x61 <= c <= 0x66 then Some(c - 0x61 + 10) else None
  }

  function Step(st: State, x: byte): (r: State) {
    match st.mode
    case Usual => if x == PERCENT then st.(mode := Quoted) else st.(out := st.out + [x])
    case Quoted =>
      (match Digit(x)
       case Some(d) => st.(decoded := d, mode := QuotedSecond)
       case None => st.(mode := Usual, out := st.out + [x]))
    case QuotedSecond =>
      (match Digit(x)
       case Some(d) => st.(mode := Usual, out := st.out + [(st.decoded * 16 + d) % 256])
       case None => st.(mode := Usual))
  }

  function Steps(st: State, s: seq<byte>): (r: State) {
    if s == [] then st else Step(Steps(st, s[..|s| - 1]), s[|s| - 1])
  }

  const START := State(Usual, 0, [])

  /** `decode`; the result says whether no escape was left unfinished. */
  method Decode(input: seq<byte>, output: array<byte>) returns (ok: bool, outLen: nat)
    requires |input| < TWO_31 && |input| <= output.Length
    modifies output
    ensures outLen <= |input| && output[..outLen] == Steps(START, input).out
    ensures ok == Steps(START, input).mode.Usual?
  {
    hide Digit;
    var mode, decoded: byte := Usual, 0;
    outLen := 0;
    for i := 0 to |input|
      invariant outLen <= i && Steps(START, input[..i]) == State(mode, decoded, output[..outLen])
    {
      assert input[..i + 1][..i] == input[..i];
      var ch := input[i];
      match mode {
        case Usual =>
          if ch == PERCENT {
            mode := Quoted;
          } else {
            output[outLen] := ch;
            outLen := outLen + 1;
          }
        case Quoted =>
          match Digit(ch) {
            case Some(d) => decoded, mode := d, QuotedSecond;
            case None =>
              mode := Usual;
              output[outLen] := ch;
              outLen := outLen + 1;
          }
        case QuotedSecond =>
          mode := Usual;
          match Digit(ch) {
            case Some(d) =>
              output[outLen] := (decoded * 16 + d) % 256;
              outLen := outLen + 1;
            case None =>
          }
      }
    }
    assert input[..|input|] == input;
    ok := mode.Usual?;
  }

  lemma {:induction false} StepsConcat(st: State, a: seq<byte>, b: seq<byte>)
    ensures Steps(st, a + b) == Steps(Steps(st, a), b)
  {
    hide Step;
    if b == [] {
      assert a + b == a;
    } else {
      StepsConcat(st, a, b[..|b| - 1]);
      assert (a + b)[..|a + b| - 1] == a + b[..|b| - 1];
    }
  }

  // ----- the round trip -------------------------------------------------------------------

  lemma HexBack(n: nat)
    requires n < 16
    ensures Digit(Hex(n)) == Some(n) && Hex(n) != PERCENT
  {}

  lemma HexOfByte(x: byte)
    ensures ((x / 16) * 16 + x % 16) % 256 == x
  {}

  /** What the decoder makes of one encoded byte, by the mode it is in. */
  lemma AfterPiece(st: State, t: Escape, x: byte)
    ensures var r := Steps(st, Piece(t, x));
            if Escaped(t, x) then
              match st.mode
              case Usual => r.mode == Usual && r.out == st.out + [x]
              case Quoted => r.mode == Usual && r.out == st.out + [PERCENT, Hex(x / 16), Hex(x % 16)]
              case QuotedSecond => r.mode == Usual && r.out == st.out + [Hex(x / 16), Hex(x % 16)]
            else r == Step(st, x)
  {
    hide Escaped, Hex, Digit, Step;
    if Escaped(t, x) {
      var h, l := Hex(x / 16), Hex(x % 16);
      HexBack(x / 16);
      HexBack(x % 16);
      HexOfByte(x);
      ThreeSteps(st, PERCENT, h, l);
      PercentIsNoDigit();
      OneStep(st, PERCENT);
      OneStep(Step(st, PERCENT), h);
      OneStep(Step(Step(st, PERCENT), h), l);
    } else {
      assert [x][..0] == [];
      assert Steps(st, [x]) == Step(Steps(st, []), x);
    }
  }

  lemma PercentIsNoDigit()
    ensures Digit(PERCENT) == None
  {}

  lemma ThreeSteps(st: State, a: byte, b: byte, c: byte)
    ensures Steps(st, [a, b, c]) == Step(Step(Step(st, a), b), c)
  {
    hide Step;
    assert [a, b, c][..2] == [a, b] && [a, b][..1] == [a] && [a][..0] == [];
    assert Steps(st, [a]) == Step(Steps(st, []), a);
    assert Steps(st, [a, b]) == Step(Steps(st, [a]), b);
  }

  /** The definition of a step, case by case. */
  lemma OneStep(st: State, x: byte)
    ensures st.mode.Usual? ==> Step(st, x) == if x == PERCENT then st.(mode := Quoted) else st.(out := st.out + [x])
    ensures st.mode.Quoted? && Digit(x).Some? ==> Step(st, x) == st.(decoded := Digit(x).value, mode := QuotedSecond)
    ensures st.mode.Quoted? && Digit(x).None? ==> Step(st, x) == st.(mode := Usual, out := st.out + [x])
    ensures st.mode.QuotedSecond? && Digit(x).Some?
            ==> Step(st, x) == st.(mode := Usual, out := st.out + [(st.decoded * 16 + Digit(x).value) % 256])
    ensures st.mode.QuotedSecond? && Digit(x).None? ==> Step(st, x) == st.(mode := Usual)
  {
    hide Digit;
  }

  /** The decoder's state after the encoding of the first `k` bytes. */
  ghost function Fed(t: Escape, s: seq<byte>, k: nat): (st: State)
    requires k <= |s|
  {
    Steps(START, Encoded(t, s[..k]))
  }

  lemma FedNext(t: Escape, s: seq<byte>, k: nat)
    requires k < |s|
    ensures Fed(t, s, k + 1) == Steps(Fed(t, s, k), Piece(t, s[k]))
  {
    hide Piece;
    assert s[..k + 1][..k] == s[..k];
    StepsConcat(START, Encoded(t, s[..k]), Piece(t, s[k]));
  }

  lemma FedNothing(t: Escape, s: seq<byte>)
    ensures Fed(t, s, 0) == START
  {
    assert s[..0] == [];
  }

  /** As long as no percent sign goes out unescaped the decoder keeps up with the input. */
  lemma {:induction false} KeepsUp(t: Escape, s: seq<byte>, k: nat)
    requires k <= |s| && forall i :: 0 <= i < k ==> s[i] != PERCENT || Escaped(t, PERCENT)
    ensures Fed(t, s, k).mode == Usual && Fed(t, s, k).out == s[..k]
  {
    hide Escaped, Step, Piece, Fed;
    if k == 0 {
      FedNothing(t, s);
    } else {
      KeepsUp(t, s, k - 1);
      FedNext(t, s, k - 1);
      AfterPiece(Fed(t, s, k - 1), t, s[k - 1]);
      OneStep(Fed(t, s, k - 1), s[k - 1]);
    }
  }

  /** Output is only ever appended. */
  lemma {:induction false} OutGrows(t: Escape, s: seq<byte>, k: nat)
    requires k <= |s|
    ensures Fed(t, s, k).out <= Fed(t, s, |s|).out
    decreases |s| - k
  {
    hide Escaped, Step, Piece, Fed, Digit;
    if k < |s| {
      OutGrows(t, s, k + 1);
      FedNext(t, s, k);
      AfterPiece(Fed(t, s, k), t, s[k]);
      OneStep(Fed(t, s, k), s[k]);
    }
  }

  /** Once a percent sign has gone out unescaped, a decoder that reproduces the input is always
      behind it: by one byte at least, and by two in the middle of an escape.  It can catch up
      only by putting out a percent sign and two digits, which the input does not hold there. */
  lemma {:induction false} Lags(t: Escape, s: seq<byte>, p: nat, k: nat)
    requires p < k <= |s| && s[p] == PERCENT && !Escaped(t, PERCENT) && Fed(t, s, |s|).out == s
    requires forall i :: 0 <= i < p ==> s[i] != PERCENT
    ensures var st := Fed(t, s, k);
            && |st.out| + (if st.mode.QuotedSecond? then 2 else 1) <= k
            && (st.mode.Quoted? ==> s[k - 1] == PERCENT)
  {
    hide Escaped, Step, Piece, Fed, Digit, Hex;
    var x := s[k - 1];
    var st := Fed(t, s, k - 1);
    FedNext(t, s, k - 1);
    AfterPiece(st, t, x);
    OneStep(st, x);
    OutGrows(t, s, k);
    if k - 1 == p {
      KeepsUp(t, s, p);
    } else {
      Lags(t, s, p, k - 1);
      if Escaped(t, x) && st.mode.Quoted? {
        var o := |st.out|;
        HexPlain(t, x / 16);
        HexBack(x / 16);
        assert Fed(t, s, k).out[o + 1] == Hex(x / 16) == s[o + 1];
      }
    }
  }

  lemma HexPlain(t: Escape, n: nat)
    requires n < 16
    ensures !Escaped(t, Hex(n))
  {
    hide Escaped;
    DigitsPlain(t, Hex(n));
  }

  /** Decoding undoes encoding, and says so, exactly if the class escapes percent signs or there
      are none. */
  lemma RoundTrip(t: Escape, s: seq<byte>)
    ensures var st := Steps(START, Encoded(t, s));
            (st.out == s && st.mode.Usual?) <==> (t != Refresh || PERCENT !in s)
  {
    hide Escaped, Steps, Encoded;
    EscapesPercent(t);
    assert s[..|s|] == s;
    if t != Refresh || PERCENT !in s {
      KeepsUp(t, s, |s|);
    } else {
      var p := First(s);
      if Fed(t, s, |s|).out == s { Lags(t, s, p, |s|); }
    }
  }

  function First(s: seq<byte>): (p: nat)
    requires PERCENT in s
    ensures p < |s| && s[p] == PERCENT && forall i :: 0 <= i < p ==> s[i] != PERCENT
  {
    if s[0] == PERCENT then 0 else 1 + First(s[1..])
  }

  lemma PlainNext(t: Escape, s: seq<byte>, x: byte)
    requires !Escaped(t, x)
    ensures Encoded(t, s + [x]) == Encoded(t, s) + [x] && Encoded(t, []) == []
  {
    hide Escaped;
    assert (s + [x])[..|s|] == s;
  }

  /** Under the refresh class the three bytes of an escaped A go out as they are, and come back as
      the one byte A. */
  lemma RefreshLosesPercent()
    ensures Encoded(Refresh, [PERCENT, 0x34, 0x31]) == [PERCENT, 0x34, 0x31]
    ensures Steps(START, [PERCENT, 0x34, 0x31]).out == [0x41]
  {
    hide Escaped, Encoded, Steps;
    EscapesPercent(Refresh);
    DigitsPlain(Refresh, 0x34);
    DigitsPlain(Refresh, 0x31);
    var p: seq<byte>, four: seq<byte>, one: seq<byte> := [PERCENT], [0x34], [0x31];
    assert [] + p == p && p + four == [PERCENT, 0x34] && p + four + one == [PERCENT, 0x34, 0x31];
    PlainNext(Refresh, [], PERCENT);
    PlainNext(Refresh, [PERCENT], 0x34);
    PlainNext(Refresh, [PERCENT, 0x34], 0x31);
    ThreeSteps(START, PERCENT, 0x34, 0x31);
  }
}
