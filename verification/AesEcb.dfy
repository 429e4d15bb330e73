/** `SL_Crypto_AES` without OpenSSL: whole messages in ECB mode, behind one byte that counts the
    padding of the last block. */
module AesEcb {
  import opened GaloisField
  import opened SBox
  import opened AesTables
  import opened AesCipher
  import opened AesRounds
  import opened AesKeySchedule
  import opened Aes

  // ----- the format -----------------------------------------------------------------------

  function Block(s: seq<Byte>, k: nat): (r: seq<Byte>)
    requires 16 * k + 16 <= |s|
    ensures |r| == 16
  {
    s[16 * k..16 * k + 16]
  }

  /** The first `n` blocks of `e` are those of `s`, encrypted. */
  ghost predicate Enciphered(rk: seq<Word>, nr: nat, s: seq<Byte>, e: seq<Byte>, n: nat) {
    && nr > 0 && 4 * nr + 4 <= |rk| && 16 * n <= |s| && 16 * n <= |e|
    && forall k: nat :: k < n ==> Load(Block(e, k)) == Cipher(rk, nr, Load(Block(s, k)))
  }

  /** The first `n` blocks of `p` are those of `e`, decrypted. */
  ghost predicate Deciphered(dk: seq<Word>, nr: nat, e: seq<Byte>, p: seq<Byte>, n: nat) {
    && nr > 0 && 4 * nr + 4 <= |dk| && 16 * n <= |e| && 16 * n <= |p|
    && forall k: nat :: k < n ==> Load(Block(p, k)) == InvCipher(dk, nr, Load(Block(e, k)))
  }

  lemma DecipheredEnciphered(rk: seq<Word>, dk: seq<Word>, nr: nat, s: seq<Byte>, e: seq<Byte>, p: seq<Byte>, n: nat)
    requires InverseSchedule(rk, dk, nr) && Enciphered(rk, nr, s, e, n) && Deciphered(dk, nr, e, p, n)
    ensures p[..16 * n] == s[..16 * n]
  {
    hide InverseSchedule, Cipher, InvCipher, Store, Load, Block;
    forall k: nat | k < n ensures Block(p, k) == Block(s, k) {
      InvCipherCipher(rk, dk, nr, Load(Block(s, k)));
      StoreLoad(Block(s, k));
      StoreLoad(Block(p, k));
    }
    SameBlocks(p, s, n);
  }

  lemma {:induction false} SameBlocks(p: seq<Byte>, s: seq<Byte>, n: nat)
    requires 16 * n <= |p| && 16 * n <= |s| && forall k: nat :: k < n ==> Block(p, k) == Block(s, k)
    ensures p[..16 * n] == s[..16 * n]
  {
    if n > 0 {
      SameBlocks(p, s, n - 1);
      assert p[..16 * n] == p[..16 * (n - 1)] + Block(p, n - 1);
      assert s[..16 * n] == s[..16 * (n - 1)] + Block(s, n - 1);
    }
  }

  function BlockCount(len: nat): (n: nat)
    ensures len <= 16 * n < len + 16
  {
    (len + 15) / 16
  }

  function Pad(len: nat): (p: nat)
    ensures p < 16 && len + p == 16 * BlockCount(len)
  {
    16 * BlockCount(len) - len
  }

  function Zeros(n: nat): (r: seq<Byte>)
    ensures |r| == n
  {
    seq(n, i requires 0 <= i < n => ZERO)
  }

  /** An encrypted message: the pad count, then the padded blocks. */
  ghost predicate Sealed(rk: seq<Word>, nr: nat, s: seq<Byte>, e: seq<Byte>) {
    && |e| == 16 * BlockCount(|s|) + 1 && e[0] == ByteOf(Pad(|s|))
    && Enciphered(rk, nr, s + Zeros(Pad(|s|)), e[1..], BlockCount(|s|))
  }

  /** Dropping the pad count's number of bytes from the decrypted blocks gives the message. */
  lemma SealedOpens(rk: seq<Word>, dk: seq<Word>, nr: nat, s: seq<Byte>, e: seq<Byte>, p: seq<Byte>)
    requires InverseSchedule(rk, dk, nr) && Sealed(rk, nr, s, e) && |p| == |e| - 1
    requires Deciphered(dk, nr, e[1..], p, BlockCount(|s|))
    ensures |e| - 1 - Val(e[0]) == |s| && p[..|s|] == s
  {
    hide InverseSchedule, Enciphered, Deciphered, Val, ByteOf;
    ValOf(Pad(|s|));
    var padded := s + Zeros(Pad(|s|));
    DecipheredEnciphered(rk, dk, nr, padded, e[1..], p, BlockCount(|s|));
    assert p[..16 * BlockCount(|s|)][..|s|] == padded[..16 * BlockCount(|s|)][..|s|];
  }

  /** Two expansions of one key invert the same schedule. */
  lemma SameSchedule(rk: seq<Word>, rk': seq<Word>, dk: seq<Word>, key: seq<Byte>, nk: nat, nr: nat)
    requires 0 < nk && 4 * nk <= |key|
    requires Expanded(rk, key, nk, 4 * nr + 4) && Expanded(rk', key, nk, 4 * nr + 4) && InverseSchedule(rk', dk, nr)
    ensures InverseSchedule(rk, dk, nr)
  {
    hide InvMix, Temp, GetWord, XorW;
    ExpansionUnique(rk, rk', key, nk, 4 * nr + 4, 4 * nr + 4);
    forall j | 0 <= j <= nr ensures Key(rk, j) == Key(rk', j) {
      var part, part' := rk[..4 * nr + 4], rk'[..4 * nr + 4];
      assert part[4 * j] == part'[4 * j] && part[4 * j + 1] == part'[4 * j + 1];
      assert part[4 * j + 2] == part'[4 * j + 2] && part[4 * j + 3] == part'[4 * j + 3];
    }
  }

  /** What one block written at `o` leaves alone. */
  lemma Placed(out: seq<Byte>, was: seq<Byte>, base: nat, i: nat, b: seq<Byte>)
    requires |b| == 16 && Replaced(out, was, base + 16 * i, b)
    ensures 16 * i + 16 <= |out[base..]| && Block(out[base..], i) == b
    ensures forall k: nat :: k < i ==> Block(out[base..], k) == Block(was[base..], k)
  {
    var o := base + 16 * i;
    assert Block(out[base..], i) == out[o..o + 16];
    forall k: nat | k < i ensures Block(out[base..], k) == Block(was[base..], k) {
      assert Block(out[base..], k) == out[..o][base + 16 * k..base + 16 * k + 16];
      assert Block(was[base..], k) == was[..o][base + 16 * k..base + 16 * k + 16];
    }
  }

  lemma MoreEnciphered(rk: seq<Word>, nr: nat, s: seq<Byte>, out: seq<Byte>, was: seq<Byte>, i: nat)
    requires 16 * i + 16 <= |s| && |was| > 0 && Enciphered(rk, nr, s, was[1..], i)
    requires Replaced(out, was, 1 + 16 * i, Store(Cipher(rk, nr, Load(Block(s, i)))))
    ensures Enciphered(rk, nr, s, out[1..], i + 1)
  {
    hide Cipher, Load, Store, Block, Replaced;
    Placed(out, was, 1, i, Store(Cipher(rk, nr, Load(Block(s, i)))));
  }

  lemma MoreDeciphered(dk: seq<Word>, nr: nat, e: seq<Byte>, out: seq<Byte>, was: seq<Byte>, i: nat)
    requires 16 * i + 16 <= |e| && Deciphered(dk, nr, e, was, i)
    requires Replaced(out, was, 16 * i, Store(InvCipher(dk, nr, Load(Block(e, i)))))
    ensures Deciphered(dk, nr, e, out, i + 1)
  {
    hide InvCipher, Load, Store, Block, Replaced;
    Placed(out, was, 0, i, Store(InvCipher(dk, nr, Load(Block(e, i)))));
    assert out[0..] == out && was[0..] == was;
  }

  /** Bytes past the block stay, and so does the one in front of the blocks. */
  lemma Kept(out: seq<Byte>, was: seq<Byte>, o: nat, b: seq<Byte>, end: nat)
    requires Replaced(out, was, o, b) && o + |b| <= end <= |out|
    ensures out[end..] == was[end..] && (o > 0 ==> out[0] == was[0])
  {
    assert out[end..] == out[o + |b|..][end - o - |b|..] && was[end..] == was[o + |b|..][end - o - |b|..];
    if o > 0 { assert out[..o][0] == was[..o][0]; }
  }

  lemma IsSealed(rk: seq<Word>, nr: nat, s: seq<Byte>, out: seq<Byte>)
    requires 16 * BlockCount(|s|) + 1 <= |out| && out[0] == ByteOf(Pad(|s|))
    requires Enciphered(rk, nr, s + Zeros(Pad(|s|)), out[1..], BlockCount(|s|))
    ensures Sealed(rk, nr, s, out[..16 * BlockCount(|s|) + 1])
  {
    hide Cipher, Load, ByteOf;
    var n := BlockCount(|s|);
    var e := out[..16 * n + 1];
    assert e[1..] == out[1..][..16 * n];
    forall k: nat | k < n ensures Block(e[1..], k) == Block(out[1..], k) {}
  }

  /** Blocks of what follows the pad count. */
  lemma BlockBehind(input: seq<Byte>, s: seq<Byte>, len: nat, i: nat)
    requires len <= |input| && 16 * i + 17 <= len && s == input[1..len]
    ensures Block(s, i) == input[16 * i + 1..16 * i + 17]
  {
    SliceOfSlice(input, 1, len, 16 * i, 16 * i + 16);
  }

  lemma SliceOfSlice<T>(s: seq<T>, from: nat, to: nat, i: nat, j: nat)
    requires from <= to <= |s| && i <= j <= to - from
    ensures s[from..to][i..j] == s[from + i..from + j]
  {
    var part := s[from..to];
    forall k | 0 <= k < j - i ensures part[i..j][k] == s[from + i..from + j][k] {
      assert part[i..j][k] == part[i + k] == s[from + (i + k)];
    }
    assert part[i..j] == s[from + i..from + j];
  }

  lemma DecipheredPrefix(dk: seq<Word>, nr: nat, e: seq<Byte>, p: seq<Byte>, n: nat)
    requires Deciphered(dk, nr, e, p, n)
    ensures Deciphered(dk, nr, e, p[..16 * n], n)
  {
    hide InvCipher, Load;
    forall k: nat | k < n ensures Block(p[..16 * n], k) == Block(p, k) {}
  }

  // ----- the class ------------------------------------------------------------------------

  /** `get_need_len`: for encryption and for decryption. */
  function NeedLen(len: nat, encrypt: bool): (r: int)
    ensures encrypt ==> r == 16 * BlockCount(len) + 1
    ensures !encrypt ==> r == len - 1
  {
    if encrypt then
      var rest := len - 16 * (len / 16);
      if rest != 0 then len - rest + 17 else len + 1
    else len - 1
  }

  class Ecb {
    const encryptKey: Context
    const decryptKey: Context

    ghost predicate Valid() {
      && encryptKey.Valid() && decryptKey.Valid() && encryptKey != decryptKey
      && encryptKey.erk != decryptKey.erk && encryptKey.erk != decryptKey.drk
      && encryptKey.drk != decryptKey.erk && encryptKey.drk != decryptKey.drk
    }

    ghost function Footprint(): set<object> {
      {encryptKey, encryptKey.erk, encryptKey.drk, decryptKey, decryptKey.erk, decryptKey.drk}
    }

    /** Both contexts are keyed, and with one schedule. */
    ghost predicate Keyed()
      reads Footprint()
    {
      && Valid() && encryptKey.Keyed() && decryptKey.Keyed()
      && decryptKey.nr == encryptKey.nr && InverseSchedule(encryptKey.erk[..], decryptKey.drk[..], encryptKey.nr)
    }

    constructor (t: TableSet)
      requires t.Ready()
      ensures Valid() && forall x <- Footprint() :: fresh(x)
    {
      encryptKey := new Context(t);
      decryptKey := new Context(t);
    }

    /** `init`, which ignores what `aes_set_key` returns. */
    method Init(key: seq<Byte>, keyLen: nat)
      requires Valid() && |key| >= keyLen
      modifies Footprint()
      ensures KeySize(8 * keyLen) ==> Keyed()
    {
      hide InverseSchedule, Expanded;
      var r := encryptKey.SetKey(key, 8 * keyLen);
      var r' := decryptKey.SetKey(key, 8 * keyLen);
      if KeySize(8 * keyLen) {
        SameSchedule(encryptKey.erk[..], decryptKey.erk[..], decryptKey.drk[..], key, keyLen / 4, encryptKey.nr);
      }
    }

    /** The loop over the whole blocks. */
    method EncryptBlocks(input: array<Byte>, n: nat, output: array<Byte>, ghost s: seq<Byte>, ghost end: nat)
      requires encryptKey.Keyed() && input != output && 16 * n <= input.Length && 16 * n < end <= output.Length
      requires 16 * n <= |s| && s[..16 * n] == input[..16 * n]
      modifies output
      ensures encryptKey.Keyed() && Enciphered(encryptKey.erk[..], encryptKey.nr, s, output[1..], n)
      ensures output[end..] == old(output[end..])
    {
      hide InverseSchedule, Cipher, Key, InvMixState, Store, Load, TableSet.Ready, Replaced, Enciphered;
      ghost var rk, nr := encryptKey.erk[..], encryptKey.nr;
      NothingEnciphered(rk, nr, s, output[1..]);
      for i := 0 to n
        invariant encryptKey.Keyed() && output[end..] == old(output[end..])
        invariant Enciphered(rk, nr, s, output[1..], i)
      {
        ghost var was := output[..];
        assert was[1..] == output[1..] && was[end..] == output[end..];
        assert Block(s, i) == s[..16 * n][16 * i..16 * i + 16] == input[16 * i..16 * i + 16];
        encryptKey.Encrypt(input, 16 * i, output, 1 + 16 * i);
        MoreEnciphered(rk, nr, s, output[..], was, i);
        Kept(output[..], was, 1 + 16 * i, Store(Cipher(rk, nr, Load(Block(s, i)))), end);
        assert output[..][1..] == output[1..] && output[..][end..] == output[end..];
      }
    }

    /** The block at the end, filled up with zeros. */
    method EncryptEnd(input: array<Byte>, n: nat, rest: nat, output: array<Byte>, ghost s: seq<Byte>, ghost end: nat)
      requires Keyed() && input != output && 0 < rest < 16 && 16 * n + rest <= input.Length
      requires s == input[..16 * n + rest] + Zeros(16 - rest) && end == 16 * n + 17 <= output.Length
      requires Enciphered(encryptKey.erk[..], encryptKey.nr, s, output[1..], n)
      modifies output
      ensures Keyed() && Enciphered(encryptKey.erk[..], encryptKey.nr, s, output[1..], n + 1)
      ensures output[end..] == old(output[end..])
    {
      hide InverseSchedule, Cipher, Key, InvMixState, Store, Load, TableSet.Ready, Replaced, Enciphered;
      ghost var rk, nr, was := encryptKey.erk[..], encryptKey.nr, output[..];
      assert was[1..] == output[1..] && was[end..] == output[end..];
      var endBlock := EndBlock(input, 16 * n, rest);
      assert Block(s, n) == endBlock[0..16];
      encryptKey.Encrypt(endBlock, 0, output, 1 + 16 * n);
      MoreEnciphered(rk, nr, s, output[..], was, n);
      Kept(output[..], was, 1 + 16 * n, Store(Cipher(rk, nr, Load(Block(s, n)))), end);
      assert output[..][1..] == output[1..] && output[..][end..] == output[end..];
    }

    /** `encrypt`. */
    method Encrypt(input: array<Byte>, len: nat, output: array<Byte>, outLen: nat) returns (r: int)
      requires Keyed() && input != output && 0 < len <= input.Length && outLen <= output.Length
      modifies output
      ensures Keyed()
      ensures outLen < NeedLen(len, true) ==> r == -1 && output[..] == old(output[..])
      ensures outLen >= NeedLen(len, true) ==> r == NeedLen(len, true) && output[r..] == old(output[r..])
      ensures outLen >= NeedLen(len, true) ==> Sealed(encryptKey.erk[..], encryptKey.nr, input[..len], output[..r])
    {
      hide InverseSchedule, Cipher, Key, InvMixState, Store, Load, TableSet.Ready, Replaced, Enciphered, ByteOf, Sealed;
      var blockCount := len / 16;
      var endBlockLen := len - 16 * blockCount;
      var needLen := if endBlockLen != 0 then len - endBlockLen + 17 else len + 1;
      if outLen < needLen { return -1; }
      ghost var rk, nr, s := encryptKey.erk[..], encryptKey.nr, input[..len] + Zeros(Pad(len));
      assert s[..16 * blockCount] == input[..16 * blockCount];
      EncryptBlocks(input, blockCount, output, s, needLen);
      if endBlockLen > 0 { EncryptEnd(input, blockCount, endBlockLen, output, s, needLen); }
      output[0] := ByteOf(if endBlockLen > 0 then 16 - endBlockLen else 0);
      r := needLen;
      assert output[..][1..] == output[1..] && output[..][..r] == output[..r];
      IsSealed(rk, nr, input[..len], output[..]);
    }

    /** `decrypt`. */
    method Decrypt(input: array<Byte>, len: nat, output: array<Byte>, outLen: nat) returns (r: int)
      requires Keyed() && input != output && 16 < len <= input.Length && outLen <= output.Length
      modifies output
      ensures Keyed()
      ensures (len - 1) % 16 != 0 || outLen < len - 1 ==> r == -1 && output[..] == old(output[..])
      ensures (len - 1) % 16 == 0 && outLen >= len - 1
              ==> r == len - 1 - Val(input[0]) && output[len - 1..] == old(output[len - 1..])
      ensures (len - 1) % 16 == 0 && outLen >= len - 1 ==>
        Deciphered(decryptKey.drk[..], decryptKey.nr, input[1..len], output[..len - 1], (len - 1) / 16)
    {
      hide InverseSchedule, InvCipher, Key, InvMixState, Store, Load, TableSet.Ready, Val, Replaced, Deciphered;
      var blockCount := (len - 1) / 16;
      var dataLen := 16 * blockCount;
      if outLen < dataLen || dataLen + 1 != len { return -1; }
      ghost var dk, nr, s := decryptKey.drk[..], decryptKey.nr, input[1..len];
      NothingDeciphered(dk, nr, s, output[..]);
      for i := 0 to blockCount
        invariant Keyed() && output[dataLen..] == old(output[dataLen..])
        invariant Deciphered(dk, nr, s, output[..], i)
      {
        ghost var was := output[..];
        assert was[dataLen..] == output[dataLen..];
        BlockBehind(input[..], s, len, i);
        decryptKey.Decrypt(input, 16 * i + 1, output, 16 * i);
        MoreDeciphered(dk, nr, s, output[..], was, i);
        Kept(output[..], was, 16 * i, Store(InvCipher(dk, nr, Load(Block(s, i)))), dataLen);
        assert output[..][dataLen..] == output[dataLen..];
      }
      DecipheredPrefix(dk, nr, s, output[..], blockCount);
      assert output[..][..dataLen] == output[..dataLen];
      r := len - Val(input[0]) - 1;
    }

    /** Encrypting a message and decrypting the result gives it back. */
    method SealAndOpen(message: array<Byte>) returns (back: seq<Byte>)
      requires Keyed() && 0 < message.Length
      ensures back == message[..]
    {
      hide Sealed, Deciphered, InverseSchedule, Context.Keyed, TableSet.Ready, Val;
      var n := message.Length;
      var sealed := new Byte[NeedLen(n, true)](_ => ZERO);
      var k := Encrypt(message, n, sealed, sealed.Length);
      assert message[..n] == message[..] && sealed[..k] == sealed[..];
      ghost var e := sealed[..];
      var plain := new Byte[NeedLen(sealed.Length, false)](_ => ZERO);
      k := Decrypt(sealed, sealed.Length, plain, plain.Length);
      assert sealed[1..sealed.Length] == e[1..] && plain[..sealed.Length - 1] == plain[..];
      SealedOpens(encryptKey.erk[..], decryptKey.drk[..], encryptKey.nr, message[..], e, plain[..]);
      back := plain[..k];
      assert back == plain[..][..n];
    }
  }

  /** The last block of a message, filled up with zeros. */
  method EndBlock(input: array<Byte>, i: nat, rest: nat) returns (endBlock: array<Byte>)
    requires 0 < rest < 16 && i + rest <= input.Length
    ensures fresh(endBlock) && endBlock.Length == 16 && endBlock[..] == input[i..i + rest] + Zeros(16 - rest)
  {
    endBlock := new Byte[16](_ => ZERO);
    for j := 0 to rest
      invariant endBlock[..] == input[i..i + j] + Zeros(16 - j)
    {
      endBlock[j] := input[i + j];
    }
  }

  lemma NothingEnciphered(rk: seq<Word>, nr: nat, s: seq<Byte>, e: seq<Byte>)
    requires nr > 0 && 4 * nr + 4 <= |rk|
    ensures Enciphered(rk, nr, s, e, 0)
  {}

  lemma NothingDeciphered(dk: seq<Word>, nr: nat, e: seq<Byte>, p: seq<Byte>)
    requires nr > 0 && 4 * nr + 4 <= |dk|
    ensures Deciphered(dk, nr, e, p, 0)
  {}

  /** The same from the generation of the tables on, with any key of 16, 24 or 32 bytes. */
  method RoundTrip(key: seq<Byte>, message: array<Byte>) returns (back: seq<Byte>)
    requires KeySize(8 * |key|) && 0 < message.Length
    ensures back == message[..]
  {
    hide Ecb.Keyed, TableSet.Ready;
    var t := MakeTables();
    var cipher := new Ecb(t);
    cipher.Init(key, |key|);
    back := cipher.SealAndOpen(message);
  }
}
