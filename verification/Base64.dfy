/** `SL_Crypto_Base64`: Base64 with padding (section 4 of RFC 4648). */
module Base64 {
  import opened Arithmetic
  import opened ThriftTypes

  const PAD: byte := 0x3D

  // ----- the tables -----------------------------------------------------------------------

  /** `BASE64_ENCODE_TABLE`. */
  function Char(n: nat): (r: byte)
    requires n < 64
  {
    if n < 26 then 0x41 + n
    else if n < 52 then 0x61 + (n - 26)
    else if n < 62 then 0x30 + (n - 52)
    else if n == 62 then 0x2B
    else 0x2F
  }

  /** `BASE64_DECODE_TABLE`: 0xff for what is not in the alphabet. */
  function Value(x: byte): (n: byte) {
    if 0x41 <= x <= 0x5A then x - 0x41
    else if 0x61 <= x <= 0x7A then x - 0x61 + 26
    else if 0x30 <= x <= 0x39 then x - 0x30 + 52
    else if x == 0x2B then 62
    else if x == 0x2F then 63
    else 0xff
  }

  lemma ValueOfChar(n: nat)
    requires n < 64
    ensures Value(Char(n)) == n && Char(n) != PAD
  {}

  // ----- the bit operations ---------------------------------------------------------------

  /** Bitwise or. */
  function Or(a: nat, b: nat): (r: nat)
    decreases a + b
  {
    if a == 0 then b else if b == 0 then a
    else (if a % 2 == 1 || b % 2 == 1 then 1 else 0) + 2 * Or(a / 2, b / 2)
  }

  lemma {:induction false} OrAdds(a: nat, b: nat, n: nat)
    requires b < ShiftUp(1, n)
    ensures Or(ShiftUp(a, n), b) == ShiftUp(a, n) + b
  {
    if n > 0 {
      OrAdds(a, b / 2, n - 1);
      var h := ShiftUp(a, n - 1);
      if h > 0 && b > 0 { assert 2 * h / 2 == h; }
    }
  }

  /** Bits that do not meet add up. */
  lemma OrIsSum(a: nat, b: nat)
    ensures b < 4 ==> Or(4 * a, b) == 4 * a + b
    ensures b < 16 ==> Or(16 * a, b) == 16 * a + b
    ensures b < 64 ==> Or(64 * a, b) == 64 * a + b
  {
    FewShifts(a);
    FewShifts(1);
    hide Or, ShiftUp;
    if b < 4 { OrAdds(a, b, 2); }
    if b < 16 { OrAdds(a, b, 4); }
    if b < 64 { OrAdds(a, b, 6); }
  }

  // ----- groups ---------------------------------------------------------------------------

  /** Three bytes as one number of 24 bits, cut into four of six. */
  function Quad(a: byte, b: byte, c: byte): (r: seq<byte>)
    ensures |r| == 4
  {
    var v := (a as int * 0x100 + b) * 0x100 + c;
    [Char(v / 0x4_0000), Char(v / 0x1000 % 64), Char(v / 64 % 64), Char(v % 64)]
  }

  /** The shifts and masks of the encoder. */
  function Second(a: byte, b: byte): (r: nat) { Or(a % 4 * 16, b / 16) }
  function Third(b: byte, c: byte): (r: nat) { Or(b % 16 * 4, c / 64) }

  lemma ShiftsCut(a: byte, b: byte, c: byte)
    ensures Second(a, b) < 64 && Third(b, c) < 64
    ensures Quad(a, b, c) == [Char(a / 4), Char(Second(a, b)), Char(Third(b, c)), Char(c % 64)]
    ensures Second(a, 0) == a % 4 * 16 && Third(b, 0) == b % 16 * 4
  {
    hide Char, Second, Third;
    SecondIs(a, b);
    SecondIs(a, 0);
    ThirdIs(b, c);
    ThirdIs(b, 0);
    Cut(a, b, c);
  }

  lemma Cut(a: byte, b: byte, c: byte)
    ensures var v := (a as int * 0x100 + b) * 0x100 + c;
            && v / 0x4_0000 == a / 4 && v / 0x1000 % 64 == a % 4 * 16 + b / 16
            && v / 64 % 64 == b % 16 * 4 + c / 64 && v % 64 == c % 64
  {
    var v := (a as int * 0x100 + b) * 0x100 + c;
    var w := (a as int * 0x100 + b) * 4 + c / 64;
    var y := a as int * 16 + b / 16;
    SplitSix(v, w, c % 64);
    SplitSix(w, y, b % 16 * 4 + c / 64);
    SplitSix(y, a / 4, a % 4 * 16 + b / 16);
    assert v / 64 / 64 == v / 0x1000 && v / 0x1000 / 64 == v / 0x4_0000;
  }

  lemma SplitSix(v: nat, w: nat, rest: nat)
    requires v == 64 * w + rest && rest < 64
    ensures v / 64 == w && v % 64 == rest
  {}

  /** The three output bytes of the decoder for four characters, truncated as it does. */
  function Out0(x0: byte, x1: byte): (r: byte) { Or(4 * Value(x0) as int, Value(x1) / 16) % 0x100 }
  function Out1(x1: byte, x2: byte): (r: byte) { Or(Value(x1) % 16 * 16, Value(x2) / 4) % 0x100 }
  function Out2(x2: byte, x3: byte): (r: byte) { Or(Value(x2) % 4 * 64, Value(x3)) % 0x100 }

  lemma GroupBack(a: byte, b: byte, c: byte)
    ensures var q := Quad(a, b, c);
            && Out0(q[0], q[1]) == a && Out1(q[1], q[2]) == b && Out2(q[2], q[3]) == c
            && q[0] != PAD && q[1] != PAD && q[2] != PAD && q[3] != PAD
  {
    hide Char, Value, Or, Second, Third;
    ShiftsCut(a, b, c);
    ValueOfChar(a / 4);
    ValueOfChar(Second(a, b));
    ValueOfChar(Third(b, c));
    ValueOfChar(c % 64);
    ByteBack(a, b, c);
  }

  lemma ByteBack(a: byte, b: byte, c: byte)
    ensures Or(4 * (a / 4), Second(a, b) / 16) % 0x100 == a
    ensures Or(Second(a, b) % 16 * 16, Third(b, c) / 4) % 0x100 == b
    ensures Or(Third(b, c) % 4 * 64, c % 64) % 0x100 == c
  {
    hide Or, Second, Third;
    SecondIs(a, b);
    ThirdIs(b, c);
    Rejoin(a, a / 4, Second(a, b) / 16);
    Rejoin(b, Second(a, b) % 16, Third(b, c) / 4);
    Rejoin(c, Third(b, c) % 4, c % 64);
  }

  lemma SecondIs(a: byte, b: byte)
    ensures Second(a, b) == a % 4 * 16 + b / 16 && Second(a, b) / 16 == a % 4 && Second(a, b) % 16 == b / 16
  {
    hide Or;
    OrIsSum(a % 4, b / 16);
    SplitSixteen(a % 4, b / 16);
  }

  lemma SplitSixteen(x: nat, y: nat)
    requires y < 16
    ensures (x * 16 + y) / 16 == x && (x * 16 + y) % 16 == y
  {}

  lemma ThirdIs(b: byte, c: byte)
    ensures Third(b, c) == b % 16 * 4 + c / 64 && Third(b, c) / 4 == b % 16 && Third(b, c) % 4 == c / 64
  {
    hide Or;
    OrIsSum(b % 16, c / 64);
    SplitFour(b % 16, c / 64);
  }

  lemma SplitFour(x: nat, y: nat)
    requires y < 4
    ensures (x * 4 + y) / 4 == x && (x * 4 + y) % 4 == y
  {}

  lemma Rejoin(x: byte, p: nat, q: nat)
    ensures x == 4 * p + q && q < 4 ==> Or(4 * p, q) % 0x100 == x
    ensures x == 16 * p + q && q < 16 ==> Or(p * 16, q) % 0x100 == x
    ensures x == 64 * p + q && q < 64 ==> Or(p * 64, q) % 0x100 == x
  {
    hide Or;
    OrIsSum(p, q);
    Quotient(x, 0x100, 0, x);
  }

  // ----- the format -----------------------------------------------------------------------

  /** Four characters for every three bytes or part of them. */
  function EncodedSize(len: nat): (r: nat) { if len % 3 == 0 then 4 * (len / 3) else 4 * (len / 3) + 4 }

  /** `get_need_len` for encoding, in 32-bit arithmetic. */
  function EncodedLen(len: u32): (r: nat) {
    var i := len % 3;
    if i != 0 then (len + 3 - i) * 4 % TWO_32 / 3 else len * 4 % TWO_32 / 3
  }

  /** `get_need_len` for decoding. */
  function DecodedLen(len: u32): (r: nat) { len * 3 % TWO_32 / 4 }

  /** Group `j` of three bytes, as the four characters that stand for it. */
  ghost predicate GroupAt(s: seq<byte>, e: seq<byte>, j: nat) {
    3 * j + 3 <= |s| && 4 * j + 4 <= |e| && e[4 * j..4 * j + 4] == Quad(s[3 * j], s[3 * j + 1], s[3 * j + 2])
  }

  ghost predicate Groups(s: seq<byte>, e: seq<byte>, n: nat) { forall j: nat :: j < n ==> GroupAt(s, e, j) }

  /** An incomplete last group, filled up with zero bits and then with padding. */
  ghost predicate LastGroup(s: seq<byte>, e: seq<byte>) {
    && |e| >= 4
    && (|s| % 3 == 1 ==> e[|e| - 4..] == Quad(s[|s| - 1], 0, 0)[..2] + [PAD, PAD])
    && (|s| % 3 == 2 ==> e[|e| - 4..] == Quad(s[|s| - 2], s[|s| - 1], 0)[..3] + [PAD])
  }

  /** `e` is `s` in groups of four characters. */
  ghost predicate IsEncoding(s: seq<byte>, e: seq<byte>) {
    |e| == EncodedSize(|s|) && Groups(s, e, |s| / 3) && (|s| % 3 != 0 ==> LastGroup(s, e))
  }

  /** How many padding characters are at the end. */
  function Pads(e: seq<byte>): (n: nat)
    ensures n <= |e| && (n < |e| ==> e[|e| - 1 - n] != PAD) && forall k :: |e| - n <= k < |e| ==> e[k] == PAD
  {
    if e == [] || e[|e| - 1] != PAD then 0 else 1 + Pads(e[..|e| - 1])
  }

  /** Group `j` of four characters, as the three bytes the decoder makes of it. */
  ghost predicate BackAt(e: seq<byte>, d: seq<byte>, j: nat) {
    && 4 * j + 4 <= |e| && 3 * j + 3 <= |d|
    && d[3 * j] == Out0(e[4 * j], e[4 * j + 1]) && d[3 * j + 1] == Out1(e[4 * j + 1], e[4 * j + 2])
    && d[3 * j + 2] == Out2(e[4 * j + 2], e[4 * j + 3])
  }

  ghost predicate GroupsBack(e: seq<byte>, d: seq<byte>, n: nat) { forall j: nat :: j < n ==> BackAt(e, d, j) }

  /** The bytes of a last group with one or two padding characters. */
  ghost predicate LastBack(e: seq<byte>, d: seq<byte>, pad: nat) {
    && |e| >= 4 && 1 <= pad <= 2 && |d| + pad >= 3
    && d[|d| + pad - 3] == Out0(e[|e| - 4], e[|e| - 3])
    && (pad == 1 ==> d[|d| - 1] == Out1(e[|e| - 3], e[|e| - 2]))
  }

  /** What the decoder gives for a whole number of groups: one or two padding characters cost as
      many bytes of the last group, other numbers of them are not treated as padding. */
  ghost predicate IsDecoding(e: seq<byte>, d: seq<byte>) {
    var pad := Pads(e);
    && |e| % 4 == 0
    && (if pad == 1 || pad == 2 then
          |e| >= 4 && |d| + pad == |e| / 4 * 3 && GroupsBack(e, d, |e| / 4 - 1) && LastBack(e, d, pad)
        else
          |d| == |e| / 4 * 3 && GroupsBack(e, d, |e| / 4))
  }

  /** Whatever decodes an encoding gives the bytes that were encoded. */
  lemma DecodeEncode(s: seq<byte>, e: seq<byte>, d: seq<byte>)
    requires s != [] && IsEncoding(s, e) && IsDecoding(e, d)
    ensures d == s
  {
    hide Groups, GroupsBack, LastGroup, LastBack, IsEncoding, IsDecoding;
    PadsOfEncoding(s, e);
    Shape(s, e, d);
    var n := |s| / 3;
    forall j: nat | j < n ensures d[3 * j..3 * j + 3] == s[3 * j..3 * j + 3] { OneGroup(s, e, d, n, j); }
    SameGroups(s, d, n);
    if |s| > 3 * n { TailBack(s, e, d, n); }
    assert s == s[..3 * n] + s[3 * n..] && d == d[..3 * n] + d[3 * n..];
  }

  /** The parts of an encoding and of what is decoded from it. */
  lemma Shape(s: seq<byte>, e: seq<byte>, d: seq<byte>)
    requires s != [] && IsEncoding(s, e) && IsDecoding(e, d) && Pads(e) == (3 - |s| % 3) % 3
    ensures var n := |s| / 3;
            && |d| == |s| && 3 * n <= |s| <= 3 * n + 2 && Groups(s, e, n) && GroupsBack(e, d, n)
            && (|s| > 3 * n ==> LastGroup(s, e) && LastBack(e, d, 3 * n + 3 - |s|))
  {
    hide Groups, GroupsBack, LastGroup, LastBack, Pads;
  }

  lemma {:induction false} SameGroups(s: seq<byte>, d: seq<byte>, n: nat)
    requires 3 * n <= |s| && 3 * n <= |d| && forall j: nat :: j < n ==> d[3 * j..3 * j + 3] == s[3 * j..3 * j + 3]
    ensures d[..3 * n] == s[..3 * n]
  {
    if n > 0 {
      SameGroups(s, d, n - 1);
      var j := n - 1;
      assert d[..3 * n] == d[..3 * j] + d[3 * j..3 * j + 3] && s[..3 * n] == s[..3 * j] + s[3 * j..3 * j + 3];
    }
  }

  /** The last group when it is incomplete. */
  lemma TailBack(s: seq<byte>, e: seq<byte>, d: seq<byte>, n: nat)
    requires |d| == |s| && (|s| == 3 * n + 1 || |s| == 3 * n + 2) && LastGroup(s, e) && LastBack(e, d, 3 * n + 3 - |s|)
    ensures d[3 * n..] == s[3 * n..]
  {
    hide Quad, Out0, Out1, Out2;
    var last := e[|e| - 4..];
    assert last[0] == e[|e| - 4] && last[1] == e[|e| - 3] && last[2] == e[|e| - 2];
    if |s| == 3 * n + 1 {
      GroupBack(s[3 * n], 0, 0);
    } else {
      GroupBack(s[3 * n], s[3 * n + 1], 0);
    }
  }

  lemma OneGroup(s: seq<byte>, e: seq<byte>, d: seq<byte>, n: nat, j: nat)
    requires j < n && Groups(s, e, n) && GroupsBack(e, d, n)
    ensures 3 * j + 3 <= |s| && 3 * j + 3 <= |d| && d[3 * j..3 * j + 3] == s[3 * j..3 * j + 3]
  {
    hide Quad, Out0, Out1, Out2;
    assert GroupAt(s, e, j) && BackAt(e, d, j);
    GroupBack(s[3 * j], s[3 * j + 1], s[3 * j + 2]);
    var q := e[4 * j..4 * j + 4];
    assert q[0] == e[4 * j] && q[1] == e[4 * j + 1] && q[2] == e[4 * j + 2] && q[3] == e[4 * j + 3];
  }

  /** An encoding ends in the padding that its length calls for. */
  lemma PadsOfEncoding(s: seq<byte>, e: seq<byte>)
    requires s != [] && IsEncoding(s, e)
    ensures Pads(e) == (3 - |s| % 3) % 3 && |e| >= 4
  {
    hide Pads, Groups, LastGroup;
    if |s| % 3 == 0 {
      LastWhole(s, e);
      PadsIs(e, 0);
    } else {
      LastPads(s, e);
    }
  }

  lemma LastPads(s: seq<byte>, e: seq<byte>)
    requires |s| % 3 != 0 && LastGroup(s, e)
    ensures Pads(e) == 3 - |s| % 3
  {
    hide Quad, Pads;
    var last := e[|e| - 4..];
    assert last[0] == e[|e| - 4] && last[1] == e[|e| - 3] && last[2] == e[|e| - 2] && last[3] == e[|e| - 1];
    if |s| % 3 == 1 {
      QuadPlain(s[|s| - 1], 0, 0);
      PadsIs(e, 2);
    } else {
      QuadPlain(s[|s| - 2], s[|s| - 1], 0);
      PadsIs(e, 1);
    }
  }

  lemma LastWhole(s: seq<byte>, e: seq<byte>)
    requires |s| >= 3 && Groups(s, e, |s| / 3) && |e| == |s| / 3 * 4
    ensures e[|e| - 1] != PAD
  {
    hide Quad;
    var j := |s| / 3 - 1;
    assert GroupAt(s, e, j);
    QuadPlain(s[3 * j], s[3 * j + 1], s[3 * j + 2]);
    assert e[4 * j..4 * j + 4][3] == e[|e| - 1];
  }

  lemma QuadPlain(a: byte, b: byte, c: byte)
    ensures forall i :: 0 <= i < 4 ==> Quad(a, b, c)[i] != PAD
  {
    hide Quad, Out0, Out1, Out2;
    GroupBack(a, b, c);
  }

  lemma PadsIs(e: seq<byte>, k: nat)
    requires k < |e| && e[|e| - 1 - k] != PAD && forall i :: |e| - k <= i < |e| ==> e[i] == PAD
    ensures Pads(e) == k
  {
    hide Pads;
  }

  // ----- the loops ------------------------------------------------------------------------

  /** The loop over whole groups of the encoder. */
  method EncodeGroups(input: seq<byte>, n: nat, output: array<byte>)
    requires 3 * n <= |input| && 4 * n <= output.Length
    modifies output
    ensures Groups(input, output[..], n)
    ensures output[4 * n..] == old(output[4 * n..])
  {
    hide Char, Second, Third, Quad;
    for i := 0 to n
      invariant forall j: nat :: j < i ==> GroupAt(input, output[..], j)
      invariant output[4 * n..] == old(output[4 * n..])
    {
      ghost var was := output[..];
      var a, b, c := input[3 * i], input[3 * i + 1], input[3 * i + 2];
      ShiftsCut(a, b, c);
      output[4 * i] := Char(a / 4);
      output[4 * i + 1] := Char(Second(a, b));
      output[4 * i + 2] := Char(Third(b, c));
      output[4 * i + 3] := Char(c % 64);
      assert output[..][4 * i..4 * i + 4] == Quad(a, b, c);
      forall j: nat | j < i ensures GroupAt(input, output[..], j) {
        assert GroupAt(input, was, j);
        assert output[..][4 * j..4 * j + 4] == was[4 * j..4 * j + 4];
      }
    }
  }

  /** What a call comes to: -1, a read before the input, a write past the output, or a length. */
  datatype Outcome = Refused | ReadsBefore | WritesPast | Done(len: int)

  /** `encode`.  The room that is asked for is too little exactly if the predicted length is. */
  method Encode(input: seq<byte>, output: array<byte>, outLen: nat) returns (r: Outcome)
    requires 0 < |input| < TWO_32 && outLen <= output.Length
    modifies output
    ensures r.Refused? <==> outLen < EncodedLen(|input|)
    ensures r.WritesPast? <==> EncodedLen(|input|) <= outLen && output.Length < EncodedSize(|input|)
    ensures !r.ReadsBefore? && (!r.Done? ==> output[..] == old(output[..]))
    ensures r.Done? ==> r.len == EncodedLen(|input|) && IsEncoding(input, output[..EncodedSize(|input|)])
    ensures r.Done? ==> output[EncodedSize(|input|)..] == old(output[EncodedSize(|input|)..])
    ensures |input| < 0x4000_0000 ==> !r.WritesPast? && (r.Done? ==> r.len == EncodedSize(|input|))
  {
    hide Quad, Groups, EncodedLen;
    NeededLength(|input|);
    var remainder := |input| % 3;
    var needLen := EncodedLen(|input|);
    if outLen < needLen { return Refused; }
    var size := EncodedSize(|input|);
    if output.Length < size { return WritesPast; }
    var n := |input| / 3;
    EncodeGroups(input, n, output);
    ghost var was := output[..];
    if remainder != 0 { EncodeLast(input, n, output); }
    r := Done(needLen);
    RestKept(output[..], was, old(output[..]), 4 * n, size);
    SameGroup(input, was, output[..size], n);
    if remainder != 0 { assert output[..size][size - 4..] == output[4 * n..4 * n + 4]; }
  }

  lemma RestKept(out: seq<byte>, was: seq<byte>, before: seq<byte>, from: nat, to: nat)
    requires from <= to <= |out| == |was| == |before| && out[to..] == was[to..] && was[from..] == before[from..]
    ensures out[to..] == before[to..]
  {
    assert was[to..] == was[from..][to - from..] && before[to..] == before[from..][to - from..];
  }

  /** The length that is asked for is the size of the encoding exactly while three times that size
      fits 32 bits, which is below 2^30 bytes. */
  lemma NeededLength(len: nat)
    requires len < TWO_32
    ensures EncodedLen(len) == EncodedSize(len) <==> 3 * EncodedSize(len) < TWO_32
    ensures 3 * EncodedSize(len) < TWO_32 <==> len < 0x4000_0000
  {
    var k := if len % 3 == 0 then len / 3 else len / 3 + 1;
    var q, r := 12 * k / TWO_32, 12 * k % TWO_32;
    assert EncodedLen(len) == r / 3;
    if q == 0 { Quotient(12 * k, 3, 4 * k, 0); }
  }

  /** The length asked for decoding whole groups, likewise. */
  lemma NeededBack(len: nat)
    requires len < TWO_32 && len % 4 == 0
    ensures DecodedLen(len) == len / 4 * 3 <==> 3 * len < TWO_32
  {
    var k := len / 4;
    var q, r := 12 * k / TWO_32, 12 * k % TWO_32;
    assert DecodedLen(len) == r / 4;
    if q == 0 { Quotient(12 * k, 4, 3 * k, 0); }
  }

  lemma SameGroup(s: seq<byte>, e: seq<byte>, e': seq<byte>, n: nat)
    requires Groups(s, e, n) && 4 * n <= |e| && 4 * n <= |e'| && e[..4 * n] == e'[..4 * n]
    ensures Groups(s, e', n)
  {
    hide Quad;
    forall j: nat | j < n ensures GroupAt(s, e', j) {
      assert GroupAt(s, e, j);
      assert e'[4 * j..4 * j + 4] == e'[..4 * n][4 * j..4 * j + 4] == e[..4 * n][4 * j..4 * j + 4]
             == e[4 * j..4 * j + 4];
    }
  }

  /** The incomplete group at the end. */
  method EncodeLast(input: seq<byte>, n: nat, output: array<byte>)
    requires n == |input| / 3 && |input| % 3 != 0 && 4 * n + 4 <= output.Length
    modifies output
    ensures output[..4 * n] == old(output[..4 * n]) && output[4 * n + 4..] == old(output[4 * n + 4..])
    ensures |input| % 3 == 1 ==> output[4 * n..4 * n + 4] == Quad(input[|input| - 1], 0, 0)[..2] + [PAD, PAD]
    ensures |input| % 3 == 2 ==>
              output[4 * n..4 * n + 4] == Quad(input[|input| - 2], input[|input| - 1], 0)[..3] + [PAD]
  {
    hide Char, Second, Third, Quad;
    if |input| % 3 == 1 {
      var a := input[|input| - 1];
      ShiftsCut(a, 0, 0);
      output[4 * n] := Char(a / 4);
      output[4 * n + 1] := Char(a % 4 * 16);
      output[4 * n + 2] := PAD;
      output[4 * n + 3] := PAD;
    } else {
      var a, b := input[|input| - 2], input[|input| - 1];
      ShiftsCut(a, b, 0);
      output[4 * n] := Char(a / 4);
      output[4 * n + 1] := Char(Second(a, b));
      output[4 * n + 2] := Char(b % 16 * 4);
      output[4 * n + 3] := PAD;
    }
  }

  /** The loop over whole groups of the decoder. */
  method DecodeGroups(input: seq<byte>, n: nat, output: array<byte>)
    requires 4 * n <= |input| && 3 * n <= output.Length
    modifies output
    ensures GroupsBack(input, output[..], n)
    ensures output[3 * n..] == old(output[3 * n..])
  {
    hide Out0, Out1, Out2;
    for i := 0 to n
      invariant forall j: nat :: j < i ==> BackAt(input, output[..], j)
      invariant output[3 * n..] == old(output[3 * n..])
    {
      ghost var was := output[..];
      output[3 * i] := Out0(input[4 * i], input[4 * i + 1]);
      output[3 * i + 1] := Out1(input[4 * i + 1], input[4 * i + 2]);
      output[3 * i + 2] := Out2(input[4 * i + 2], input[4 * i + 3]);
      forall j: nat | j < i ensures BackAt(input, output[..], j) { assert BackAt(input, was, j); }
    }
  }

  /** How many bytes are decoded from whole groups. */
  function DecodedSize(e: seq<byte>): (n: nat) {
    var pad, whole := Pads(e), |e| / 4 * 3;
    if 1 <= pad <= 2 && whole >= pad then whole - pad else whole
  }

  /** `decode`: -1 for an incomplete group or too little room.  Past those checks the padding is
      counted back from the end, and if there is nothing else the count leaves the input. */
  method Decode(input: seq<byte>, output: array<byte>, outLen: nat) returns (r: Outcome)
    requires 0 < |input| < TWO_32 && outLen <= output.Length
    modifies output
    ensures r.Refused? <==> |input| % 4 != 0 || outLen < DecodedLen(|input|)
    ensures r.ReadsBefore? <==> !r.Refused? && Pads(input) == |input|
    ensures r.WritesPast? <==> !r.Refused? && Pads(input) < |input| && output.Length < DecodedSize(input)
    ensures !r.Done? ==> output[..] == old(output[..])
    ensures r.Done? ==> IsDecoding(input, output[..DecodedSize(input)])
    ensures r.Done? ==> output[DecodedSize(input)..] == old(output[DecodedSize(input)..])
    ensures r.Done? ==> r.len == DecodedLen(|input|) - (|input| / 4 * 3 - DecodedSize(input))
    ensures 3 * |input| < TWO_32 ==> !r.WritesPast? && (r.Done? ==> r.len == DecodedSize(input))
  {
    hide Out0, Out1, Out2, GroupsBack, Pads, LastBack, DecodedLen;
    var needLen: int := DecodedLen(|input|);
    if |input| % 4 != 0 || outLen < needLen { return Refused; }
    NeededBack(|input|);
    var paddingNumber, inside := CountPads(input);
    if !inside { return ReadsBefore; }
    var n := |input| / 4;
    if paddingNumber == 1 || paddingNumber == 2 {
      if output.Length < 3 * n - paddingNumber { return WritesPast; }
      needLen := needLen - paddingNumber;
      DecodeGroups(input, n - 1, output);
      DecodeLast(input, n, paddingNumber, output, old(output[..]));
    } else {
      if output.Length < 3 * n { return WritesPast; }
      DecodeGroups(input, n, output);
      SameBack(input, output[..], output[..3 * n], n);
    }
    r := Done(needLen);
  }

  /** The last group of the decoder when it is padded. */
  method DecodeLast(input: seq<byte>, n: nat, pad: nat, output: array<byte>, ghost before: seq<byte>)
    requires |input| == 4 * n && n > 0 && 1 <= pad <= 2 && 3 * n - pad <= output.Length == |before|
    requires GroupsBack(input, output[..], n - 1) && output[3 * n - 3..] == before[3 * n - 3..]
    modifies output
    ensures GroupsBack(input, output[..3 * n - pad], n - 1) && LastBack(input, output[..3 * n - pad], pad)
    ensures output[3 * n - pad..] == before[3 * n - pad..]
  {
    hide Out0, Out1, Out2, GroupsBack;
    ghost var was := output[..];
    output[3 * n - 3] := Out0(input[4 * n - 4], input[4 * n - 3]);
    if pad == 1 { output[3 * n - 2] := Out1(input[4 * n - 3], input[4 * n - 2]); }
    SameBack(input, was, output[..3 * n - pad], n - 1);
    RestKept(output[..], was, before, 3 * n - 3, 3 * n - pad);
  }

  lemma SameBack(e: seq<byte>, d: seq<byte>, d': seq<byte>, n: nat)
    requires GroupsBack(e, d, n) && 3 * n <= |d| && 3 * n <= |d'| && d[..3 * n] == d'[..3 * n]
    ensures GroupsBack(e, d', n)
  {
    hide Out0, Out1, Out2;
    forall j: nat | j < n ensures BackAt(e, d', j) {
      assert BackAt(e, d, j);
      assert d'[3 * j] == d'[..3 * n][3 * j] && d'[3 * j + 1] == d'[..3 * n][3 * j + 1]
             && d'[3 * j + 2] == d'[..3 * n][3 * j + 2];
      assert d[3 * j] == d[..3 * n][3 * j] && d[3 * j + 1] == d[..3 * n][3 * j + 1]
             && d[3 * j + 2] == d[..3 * n][3 * j + 2];
    }
  }

  /** The loop that counts padding from the end; it leaves the input if nothing else is in it. */
  method CountPads(input: seq<byte>) returns (n: nat, inside: bool)
    ensures n == Pads(input) && inside == (n < |input|)
  {
    hide Pads;
    n := 0;
    assert input[..|input|] == input;
    while n < |input| && input[|input| - 1 - n] == PAD
      invariant n <= |input| && Pads(input) == n + Pads(input[..|input| - n])
      decreases |input| - n
    {
      OnePad(input[..|input| - n]);
      assert input[..|input| - n][..|input| - n - 1] == input[..|input| - n - 1];
      n := n + 1;
    }
    OnePad(input[..|input| - n]);
    inside := n < |input|;
  }

  lemma OnePad(e: seq<byte>)
    ensures Pads(e) == if e == [] || e[|e| - 1] != PAD then 0 else 1 + Pads(e[..|e| - 1])
  {}

  /** Four padding characters and room for three bytes: the count runs out of the input. */
  method PaddingOnly() returns (r: Outcome)
    ensures r == ReadsBefore
  {
    var output := new byte[3];
    r := Decode([PAD, PAD, PAD, PAD], output, 3);
    AllPads();
    Quotient(12, TWO_32, 0, 12);
  }

  lemma AllPads()
    ensures Pads([PAD, PAD, PAD, PAD]) == 4
  {
    var e := [PAD, PAD, PAD, PAD];
    hide Pads;
    assert e[..3] == [PAD, PAD, PAD] && e[..3][..2] == [PAD, PAD] && [PAD, PAD][..1] == [PAD] && [PAD][..0] == [];
    OnePad(e);
    OnePad([PAD, PAD, PAD]);
    OnePad([PAD, PAD]);
    OnePad([PAD]);
    OnePad([]);
  }

  /** For 0x55555558 characters, three times the length wraps to 8: room for two bytes is enough to
      be let in, and 0x40000002 bytes are decoded. */
  lemma WrappedLength(e: seq<byte>)
    requires |e| == 0x5555_5558 && Pads(e) == 0
    ensures DecodedLen(|e|) == 2 && DecodedSize(e) == 0x4000_0002
  {
    Quotient(3 * |e|, TWO_32, 1, 8);
  }

  /** Encoding and decoding through buffers of the predicted sizes. */
  method RoundTrip(message: seq<byte>) returns (back: seq<byte>)
    requires 0 < |message| < 0x4000_0000
    ensures back == message
  {
    hide IsEncoding, IsDecoding, Pads, DecodedLen, DecodedSize;
    NeededLength(|message|);
    var size := EncodedLen(|message|);
    hide EncodedLen;
    var encoded := new byte[size](_ => 0);
    var n := Encode(message, encoded, size);
    var e := encoded[..size];
    PadsOfEncoding(message, e);
    var decoded := new byte[DecodedLen(|e|)](_ => 0);
    var m := Decode(e, decoded, decoded.Length);
    SizeBack(message, e);
    DecodeEncode(message, e, decoded[..DecodedSize(e)]);
    back := decoded[..m.len];
  }

  lemma SizeBack(s: seq<byte>, e: seq<byte>)
    requires s != [] && |e| == EncodedSize(|s|)
    ensures |e| % 4 == 0 && |e| > 0
  {
    Quotient(|e|, 4, if |s| % 3 == 0 then |s| / 3 else |s| / 3 + 1, 0);
  }
}
