/** The ends of a transport stack: an upstream that delivers bytes in pieces of its own choosing,
    a downstream that records what it is given, and `readAll`. */
module Transport {
  import opened Arithmetic
  import opened ThriftTypes

  /** `was` with `bytes` written over it from `at`. */
  function Overwrite(was: seq<byte>, at: nat, bytes: seq<byte>): (r: seq<byte>)
    requires at + |bytes| <= |was|
    ensures |r| == |was| && r[..at] == was[..at] && r[at..at + |bytes|] == bytes
            && r[at + |bytes|..] == was[at + |bytes|..]
  {
    was[..at] + bytes + was[at + |bytes|..]
  }

  /** `memcpy`. */
  method Copy(buf: array<byte>, at: nat, bytes: seq<byte>)
    requires at + |bytes| <= buf.Length
    modifies buf
    ensures buf[..] == Overwrite(old(buf[..]), at, bytes)
  {
    for i := 0 to |bytes|
      invariant buf[..] == Overwrite(old(buf[..]), at, bytes[..i])
    {
      buf[at + i] := bytes[i];
    }
    assert bytes[..|bytes|] == bytes;
  }

  class Upstream {
    var data: seq<byte>

    constructor (data: seq<byte>)
      ensures this.data == data
    {
      this.data := data;
    }

    /** `read`: at least one byte if there are any and any are wanted. */
    method Read(buf: array<byte>, at: nat, len: nat) returns (n: nat)
      requires at + len <= buf.Length
      modifies this, buf
      ensures n <= len && n <= |old(data)| && (n == 0 ==> len == 0 || old(data) == [])
      ensures data == old(data)[n..] && buf[..] == Overwrite(old(buf[..]), at, old(data)[..n])
    {
      n :| 0 <= n <= len && n <= |data| && (n == 0 ==> len == 0 || data == []) by {
        var most := if len < |data| then len else |data|;
        assert 0 <= most <= len && most <= |data| && (most == 0 ==> len == 0 || data == []);
      }
      Copy(buf, at, data[..n]);
      data := data[n..];
    }

    /** `readAll`: everything asked for, or an exception when the stream ends first. */
    method ReadAll(buf: array<byte>, at: nat, len: nat) returns (ok: bool)
      requires at + len <= buf.Length
      modifies this, buf
      ensures ok == (len <= |old(data)|)
      ensures ok ==> data == old(data)[len..] && buf[..] == Overwrite(old(buf[..]), at, old(data)[..len])
      ensures !ok ==> data == [] && buf[..] == Overwrite(old(buf[..]), at, old(data))
    {
      hide Overwrite;
      var have := 0;
      OverwriteNothing(buf[..], at);
      while have < len
        invariant have <= len && have <= |old(data)|
        invariant data == old(data)[have..] && buf[..] == Overwrite(old(buf[..]), at, old(data)[..have])
      {
        ghost var was := buf[..];
        var get := Read(buf, at + have, len - have);
        if get == 0 {
          assert old(data)[..have] == old(data);
          OverwriteNothing(was, at + have);
          return false;
        }
        TwoCopies(old(buf[..]), at, old(data), have, get);
        have := have + get;
      }
      ok := true;
    }
  }

  lemma Regrouped(a: seq<byte>, b: seq<byte>, c: seq<byte>)
    ensures a + b + c == a + (b + c)
  {}

  /** What stands before the new bytes, and the new bytes behind it. */
  lemma OverwriteEnds(was: seq<byte>, at: nat, bytes: seq<byte>, from: nat)
    requires from <= at && at + |bytes| <= |was|
    ensures var r := Overwrite(was, at, bytes);
            r[..at] == was[..at] && r[from..at + |bytes|] == was[from..at] + bytes
  {}

  lemma OverwriteAll(was: seq<byte>, bytes: seq<byte>)
    requires |was| == |bytes|
    ensures Overwrite(was, 0, bytes) == bytes
  {}

  lemma OverwriteNothing(was: seq<byte>, at: nat)
    requires at <= |was|
    ensures Overwrite(was, at, []) == was
  {}

  lemma TwoCopies(was: seq<byte>, at: nat, data: seq<byte>, have: nat, get: nat)
    requires have + get <= |data| && at + have + get <= |was|
    ensures Overwrite(Overwrite(was, at, data[..have]), at + have, data[have..][..get])
            == Overwrite(was, at, data[..have + get])
  {
    assert data[..have + get] == data[..have] + data[have..][..get];
  }

  class Downstream {
    var written: seq<byte>
    var flushes: nat

    constructor ()
      ensures written == [] && flushes == 0
    {
      written, flushes := [], 0;
    }

    method Write(bytes: seq<byte>)
      modifies this
      ensures written == old(written) + bytes && flushes == old(flushes)
    {
      written := written + bytes;
    }

    method Flush()
      modifies this
      ensures written == old(written) && flushes == old(flushes) + 1
    {
      flushes := flushes + 1;
    }
  }

  // ----- doubling a buffer ----------------------------------------------------------------

  /** `n` doubled `k` times in 32 bits. */
  function Doubled(n: nat, k: nat): (r: nat)
    requires n < TWO_32
    ensures r < TWO_32
  {
    if k == 0 then n else 2 * Doubled(n, k - 1) % TWO_32
  }

  lemma DoubledOnce(n: nat, k: nat)
    requires n < TWO_32
    ensures Doubled(n, 0) == n && Doubled(n, k + 1) == Doubled(n, k) * 2 % TWO_32
  {}

  /** Doubling at some point gives at least `total`. */
  ghost predicate Reaches(n: nat, total: nat)
    requires n < TWO_32
  {
    exists k: nat :: k < 32 && Doubled(n, k) >= total
  }

  lemma ReachedAlready(n: nat, total: nat)
    requires total <= n < TWO_32
    ensures Reaches(n, total)
  {
    assert Doubled(n, 0) == n;
  }

  lemma {:induction false} DoubledIsMultiple(n: nat, k: nat) returns (m: nat)
    requires n < TWO_32 && k <= 32
    ensures Doubled(n, k) == m * Pow2(k)
  {
    if k == 0 {
      m := n;
      assert Pow2(0) == 1;
    } else {
      Pow2Next(k - 1);
      hide Pow2;
      m := DoubledIsMultiple(n, k - 1);
      var rest := PowerRest(k);
      m := HalfUp(Doubled(n, k - 1), m, Pow2(k - 1), rest);
    }
  }

  /** Doubling a multiple of `p` in 32 bits gives a multiple of `2p`. */
  lemma HalfUp(d: nat, m: nat, p: nat, rest: nat) returns (r: nat)
    requires d < TWO_32 && d == m * p && p > 0 && rest * (2 * p) == TWO_32
    ensures 2 * d % TWO_32 == r * (2 * p)
  {
    DoubleMultiple(m, p);
    if 2 * d >= TWO_32 { r := LessMultiple(m, rest, 2 * p); } else { r := m; }
  }

  lemma DoubleMultiple(m: nat, p: nat)
    ensures 2 * (m * p) == m * (2 * p)
  {}

  /** 2^32 is a multiple of the smaller powers. */
  lemma {:induction false} PowerRest(k: nat) returns (rest: nat)
    requires k <= 32
    ensures rest * Pow2(k) == TWO_32
    decreases 32 - k
  {
    Pow2Next(k);
    hide Pow2;
    if k == 32 {
      LargePowers();
      rest := 1;
      assert 1 * Pow2(32) == TWO_32;
    } else {
      rest := PowerRest(k + 1);
      DoubleMultiple(rest, Pow2(k));
      rest := 2 * rest;
    }
  }

  lemma LessMultiple(m: nat, rest: nat, p: nat) returns (d: nat)
    requires m * p >= rest * p && p > 0
    ensures d * p == m * p - rest * p
  {
    if m < rest { TimesMonotone(m, rest, p); }
    d := m - rest;
  }

  lemma TimesMonotone(m: nat, rest: nat, p: nat)
    requires m < rest && p > 0
    ensures m * p < rest * p
  {}

  /** After 32 doublings nothing is left. */
  lemma {:induction false} DoubledAway(n: nat, k: nat)
    requires n < TWO_32 && k >= 32
    ensures Doubled(n, k) == 0
    decreases k
  {
    if k == 32 {
      var m := DoubledIsMultiple(n, 32);
      LargePowers();
      assert m == 0;
    } else {
      DoubledAway(n, k - 1);
    }
  }

  /** So if no size that 32 doublings go through is large enough, none ever is. */
  lemma NeverReaches(n: nat, total: nat, k: nat)
    requires n < TWO_32 && 0 < total && !Reaches(n, total)
    ensures Doubled(n, k) < total
  {
    if k >= 32 { DoubledAway(n, k); }
  }

  /** Sizes from 1 on reach every total up to 2^31. */
  lemma {:induction false} ReachesSmall(n: nat, total: nat) returns (k: nat)
    requires 0 < n < TWO_32 && total <= TWO_31
    ensures k < 32 && Doubled(n, k) >= total && forall j: nat :: j < k ==> n <= Doubled(n, j) < total
    ensures Reaches(n, total)
  {
    hide Doubled, Pow2;
    k := 0;
    DoubledOnce(n, 0);
    Pow2Next(0);
    while Doubled(n, k) < total
      invariant k < 32 && Doubled(n, k) >= Pow2(k) && n <= Doubled(n, k)
      invariant forall j: nat :: j < k ==> n <= Doubled(n, j) < total
      decreases 32 - k
    {
      DoubledOnce(n, k);
      Pow2Next(k);
      Quotient(Doubled(n, k) * 2, TWO_32, 0, Doubled(n, k) * 2);
      if k == 31 { LargePowers(); }
      k := k + 1;
    }
  }

  /** A power of two goes through the larger ones and is then gone. */
  lemma {:induction false} PowerDoubled(j: nat, k: nat)
    requires j < 32 && Pow2(j) < TWO_32
    ensures Doubled(Pow2(j), k) == if j + k < 32 then Pow2(j + k) else 0
  {
    hide Doubled, Pow2;
    if k == 0 {
      DoubledOnce(Pow2(j), 0);
    } else {
      PowerDoubled(j, k - 1);
      DoubledOnce(Pow2(j), k - 1);
      LargePowers();
      Pow2Next(j + k - 1);
      if j + k < 32 {
        PowerBelow(j + k);
        Quotient(Pow2(j + k), TWO_32, 0, Pow2(j + k));
      }
    }
  }

  lemma {:induction false} PowerBelow(k: nat)
    requires k < 32
    ensures Pow2(k) <= TWO_31
    decreases 32 - k
  {
    if k == 31 { LargePowers(); } else { PowerBelow(k + 1); }
  }

  /** So a buffer whose size is a power of two, as by default, never reaches more than 2^31. */
  lemma PowerNeverReaches(j: nat, total: nat)
    requires j < 32 && Pow2(j) < TWO_32 && total > TWO_31
    ensures !Reaches(Pow2(j), total)
  {
    forall k: nat | k < 32 ensures Doubled(Pow2(j), k) < total {
      PowerDoubled(j, k);
      if j + k < 32 { PowerBelow(j + k); }
    }
  }

  /** Other sizes may: by doubling once, or around the end of 32 bits. */
  lemma OthersMayReach()
    ensures Reaches(0x6000_0000, 0xa000_0000) && Reaches(0x8f00_0000, 0xe000_0000)
  {
    assert Doubled(0x6000_0000, 1) == 0xc000_0000;
    assert Doubled(0x8f00_0000, 1) == 0x1e00_0000 && Doubled(0x8f00_0000, 2) == 0x3c00_0000;
    assert Doubled(0x8f00_0000, 3) == 0x7800_0000 && Doubled(0x8f00_0000, 4) == 0xf000_0000;
  }
}
