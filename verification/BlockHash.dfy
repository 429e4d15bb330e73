/** What SHA-256 and MD5 share: a compression function folded over blocks of 64 bytes, fed from
    pieces of any size. */
module BlockHash {
  import opened Arithmetic
  import opened Bits

  type Block = b: seq<Octet> | |b| == 64 witness seq(64, _ => seq(8, _ => false))

  /** The chaining value after the whole blocks of `m`. */
  function Fold<S>(f: (S, Block) -> S, s: S, m: seq<Octet>): (r: S) {
    if |m| < 64 then s else Fold(f, f(s, m[..64]), m[64..])
  }

  lemma {:induction false} FoldConcat<S>(f: (S, Block) -> S, s: S, a: seq<Octet>, b: seq<Octet>)
    requires |a| % 64 == 0
    ensures Fold(f, s, a + b) == Fold(f, Fold(f, s, a), b)
    decreases |a|
  {
    if a == [] {
      assert a + b == b;
    } else {
      assert (a + b)[..64] == a[..64] && (a + b)[64..] == a[64..] + b;
      FoldConcat(f, f(s, a[..64]), a[64..], b);
    }
  }

  /** The chaining value after the first `done` bytes. */
  ghost function Chained<S>(f: (S, Block) -> S, s: S, m: seq<Octet>, done: nat): (r: S)
    requires done <= |m|
  {
    Fold(f, s, m[..done])
  }

  /** One block more. */
  lemma ChainedNext<S>(f: (S, Block) -> S, s: S, m: seq<Octet>, done: nat)
    requires done % 64 == 0 && done + 64 <= |m|
    ensures Chained(f, s, m, done + 64) == f(Chained(f, s, m, done), m[done..done + 64])
  {
    var b := m[done..done + 64];
    FoldConcat(f, s, m[..done], b);
    assert m[..done + 64] == m[..done] + b && b[..64] == b && b[64..] == [];
  }

  lemma ChainedNothing<S>(f: (S, Block) -> S, s: S, m: seq<Octet>)
    ensures Chained(f, s, m, 0) == s
  {}

  lemma ChainedAll<S>(f: (S, Block) -> S, s: S, m: seq<Octet>)
    ensures Chained(f, s, m, |m|) == Fold(f, s, m)
  {
    assert m[..|m|] == m;
  }

  /** Several blocks more. */
  lemma ChainedMore<S>(f: (S, Block) -> S, s: S, m: seq<Octet>, done: nat, n: nat)
    requires done % 64 == 0 && done + n <= |m|
    ensures Chained(f, s, m, done + n) == Fold(f, Chained(f, s, m, done), m[done..done + n])
  {
    FoldConcat(f, s, m[..done], m[done..done + n]);
    assert m[..done + n] == m[..done] + m[done..done + n];
  }

  lemma ChainedPrefix<S>(f: (S, Block) -> S, s: S, m: seq<Octet>, m': seq<Octet>, done: nat)
    requires done <= |m| && done <= |m'| && m[..done] == m'[..done]
    ensures Chained(f, s, m, done) == Chained(f, s, m', done)
  {}

  /** The chaining value of the whole blocks of a message, and its unfinished block in a buffer. */
  ghost predicate Held<S>(f: (S, Block) -> S, s: S, m: seq<Octet>, state: S, buffer: seq<Octet>) {
    var left := |m| % 64;
    |buffer| == 64 && state == Chained(f, s, m, |m| - left) && buffer[..left] == m[|m| - left..]
  }

  lemma HeldWhole<S>(f: (S, Block) -> S, s: S, m: seq<Octet>, state: S, buffer: seq<Octet>)
    requires Held(f, s, m, state, buffer) && |m| % 64 == 0
    ensures state == Fold(f, s, m)
  {
    hide Chained;
    ChainedAll(f, s, m);
  }

  /** A stretch of a message that begins before the new input and ends in it. */
  lemma Across(fed: seq<Octet>, input: seq<Octet>, left: nat, n: nat)
    requires left <= |fed| && n <= |input|
    ensures var all, done := fed + input, |fed| - left;
            all[done..done + left + n] == all[done..|fed|] + input[..n] && all[|fed| + n..] == input[n..]
  {}

  lemma BlocksAdd(a: nat, b: nat)
    requires a % 64 == 0 && b % 64 == 0
    ensures (a + b) % 64 == 0
  {
    Quotient(a + b, 64, a / 64 + b / 64, 0);
  }

  /** The whole blocks of `n` bytes. */
  lemma WholeBlocks(n: nat)
    ensures (n - n % 64) % 64 == 0 && n - n % 64 <= n && (n >= 64 ==> n - n % 64 >= 64)
  {
    Quotient(n - n % 64, 64, n / 64, 0);
  }

  lemma SameTails(all: seq<Octet>, done: nat, data: seq<Octet>, at: nat, n: nat)
    requires done <= |all| && at + n <= |data| && all[done..] == data[at..]
    ensures data[at..at + n] == all[done..done + n] && data[at + n..] == all[done + n..]
  {
    assert all[done..][..n] == data[at..][..n];
    assert all[done..][n..] == data[at..][n..];
  }

  /** Before more is fed. */
  lemma HeldPrefix<S>(f: (S, Block) -> S, s: S, m: seq<Octet>, all: seq<Octet>, state: S, buffer: seq<Octet>)
    requires Held(f, s, m, state, buffer) && m <= all
    ensures var left := |m| % 64; var done := |m| - left;
            done % 64 == 0 && state == Chained(f, s, all, done) && buffer[..left] == all[done..|m|]
  {
    hide Chained;
    ChainedPrefix(f, s, m, all, |m| - |m| % 64);
    assert all[..|m|] == m;
  }

  /** After it has been. */
  lemma HeldNow<S>(f: (S, Block) -> S, s: S, all: seq<Octet>, done: nat, state: S, buffer: seq<Octet>)
    requires done % 64 == 0 && done <= |all| < done + 64 && |buffer| == 64
    requires state == Chained(f, s, all, done) && buffer[..|all| - done] == all[done..]
    ensures Held(f, s, all, state, buffer)
  {
    hide Chained;
    Quotient(|all|, 64, done / 64, |all| - done);
  }

  function Zeros(n: nat): (r: seq<Octet>)
    ensures |r| == n
  {
    seq(n, i requires 0 <= i < n => seq(8, j requires 0 <= j < 8 => false))
  }

  const MARK: Octet := [false, false, false, false, false, false, false, true]  // 0x80

  /** The bytes between a message of `n` bytes and its length field (section 5.1.1 of FIPS 180-2,
      section 3.1 of RFC 1321): a one bit, and zeros up to 56 modulo 64. */
  function Padding(n: nat): (r: seq<Octet>)
    ensures 1 <= |r| <= 64 && (n + |r|) % 64 == 56
  {
    var left := n % 64;
    PaddingSize(n);
    [MARK] + Zeros(if left < 56 then 55 - left else 119 - left)
  }

  lemma PaddingSize(n: nat)
    ensures var left := n % 64; (n + if left < 56 then 56 - left else 120 - left) % 64 == 56
  {
    var q, left := n / 64, n % 64;
    if left < 56 { Quotient(n + 56 - left, 64, q, 56); } else { Quotient(n + 120 - left, 64, q + 1, 56); }
  }

  /** The first `n` pieces of a message, one after the other. */
  function Joined(pieces: seq<seq<Octet>>, n: nat): (r: seq<Octet>)
    requires n <= |pieces|
  {
    if n == 0 then [] else Joined(pieces, n - 1) + pieces[n - 1]
  }

  lemma {:induction false} JoinedGrows(pieces: seq<seq<Octet>>, n: nat)
    requires n <= |pieces|
    ensures |Joined(pieces, n)| <= |Joined(pieces, |pieces|)|
    decreases |pieces| - n
  {
    if n < |pieces| { JoinedGrows(pieces, n + 1); }
  }
}
