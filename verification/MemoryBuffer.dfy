/** `TMemoryBuffer`: a byte queue in one growing block of memory, with a read bound that is only
    brought up to date when a fast path fails. */
module MemoryBuffer {
  import opened Arithmetic
  import opened Options
  import opened ThriftTypes
  import opened Transport

  const DEFAULT_SIZE := 1024

  function Least(a: nat, b: nat): (r: nat) { if a < b then a else b }

  /** `available_write`, an unsigned difference. */
  function Room(n: nat, wBase: nat): (r: nat) { (n - wBase) % TWO_32 }

  /** The doubling loop stops after `k` turns, and then there really is room for `len` bytes. */
  ghost predicate GrowsAt(n: nat, wBase: nat, len: nat, k: nat)
    requires n < TWO_32
  {
    wBase + len <= Doubled(n, k) && forall j: nat :: j < k ==> Room(Doubled(n, j), wBase) < len
  }

  ghost predicate Grows(n: nat, wBase: nat, len: nat)
    requires n < TWO_32
  {
    exists k: nat :: k < 32 && GrowsAt(n, wBase, len, k)
  }

  lemma RoomIs(n: nat, wBase: nat, len: nat)
    requires wBase + len <= n < TWO_32
    ensures Room(n, wBase) >= len
  {}

  lemma SameFront(b: seq<byte>, c: seq<byte>, m: nat, from: nat, to: nat)
    requires from <= to <= m <= |b| && m <= |c| && b[..m] == c[..m]
    ensures b[from..to] == c[from..to]
  {
    Within(b, from, to, m);
    Within(c, from, to, m);
  }

  lemma Within(b: seq<byte>, from: nat, to: nat, m: nat)
    requires from <= to <= m <= |b|
    ensures b[..m][from..to] == b[from..to]
  {}

  lemma Sliced(b: seq<byte>, from: nat, to: nat, n: nat)
    requires from + n <= to <= |b|
    ensures b[from..to][..n] == b[from..from + n] && b[from..to][n..] == b[from + n..to]
  {}

  /** Non-empty memory grows up to 2^31 bytes. */
  lemma GrowsSmall(n: nat, wBase: nat, len: nat)
    requires 0 < n < TWO_32 && wBase <= n && wBase + len <= TWO_31
    ensures Grows(n, wBase, len)
  {
    hide Doubled, Reaches;
    var k := ReachesSmall(n, wBase + len);
    forall j: nat | j < k ensures Room(Doubled(n, j), wBase) < len { assert n <= Doubled(n, j) < wBase + len; }
    assert GrowsAt(n, wBase, len, k);
  }

  /** Otherwise, as long as the loop goes on, and when it stops, there is too little room. */
  lemma NeverGrows(n: nat, wBase: nat, len: nat, k: nat)
    requires n < TWO_32 && 0 < wBase + len && !Grows(n, wBase, len)
    requires forall j: nat :: j < k ==> Room(Doubled(n, j), wBase) < len
    ensures Doubled(n, k) < wBase + len
  {
    if k >= 32 { DoubledAway(n, k); } else { assert !GrowsAt(n, wBase, len, k); }
  }

  /** Empty memory of the default size and a write of more than 2^31 bytes: the loop never ends. */
  lemma LoopsForEver(k: nat)
    ensures !Grows(DEFAULT_SIZE, 0, TWO_31 + 1) && Room(Doubled(DEFAULT_SIZE, k), 0) < TWO_31 + 1
  {
    hide Doubled, Pow2;
    DefaultIsPower();
    PowerNeverReaches(10, TWO_31 + 1);
    NeverReaches(DEFAULT_SIZE, TWO_31 + 1, k);
    Quotient(Doubled(DEFAULT_SIZE, k), TWO_32, 0, Doubled(DEFAULT_SIZE, k));
  }

  lemma DefaultIsPower()
    ensures Pow2(10) == DEFAULT_SIZE
  {
    hide Pow2;
    Pow2Next(0);
    Pow2Add(1, 1);
    Pow2Add(2, 2);
    Pow2Add(4, 4);
    Pow2Add(8, 2);
  }

  /** Memory of 2^31 bytes that is full, and one byte more: the size doubles to zero, the room that
      is then computed seems enough, and the write goes past the end. */
  lemma StopsAtNothing()
    ensures !Grows(TWO_31, TWO_31, 1) && Doubled(TWO_31, 1) == 0 && Room(0, TWO_31) >= 1
  {
    Quotient(0 - TWO_31, TWO_32, -1, TWO_31);
    Quotient(0, TWO_32, 0, 0);
    assert Doubled(TWO_31, 0) == TWO_31;
    assert Doubled(TWO_31, 1) == 0;
    forall k: nat | k < 32 ensures !GrowsAt(TWO_31, TWO_31, 1, k) {
      if k > 1 { assert Room(Doubled(TWO_31, 1), TWO_31) >= 1; }
    }
  }

  class TMemoryBuffer {
    var buffer: array<byte>
    var bufferSize: nat
    var owner: bool
    // Pointers, counted from the start of the buffer.
    var rBase: nat
    var rBound: nat
    var wBase: nat
    var wBound: nat

    /** The order of the pointers; memory that is only observed has no room for writing. */
    ghost predicate Valid()
      reads this
    {
      && rBase <= rBound <= wBase <= wBound == bufferSize <= buffer.Length < TWO_32
      && (if owner then bufferSize == buffer.Length else wBase == wBound)
    }

    /** The queue: everything written and not yet read. */
    ghost function Contents(): (r: seq<byte>)
      reads this, buffer
    {
      if rBase <= wBase <= buffer.Length then buffer[rBase..wBase] else []
    }

    /** A buffer of a given size that the object owns. */
    constructor (sz: u32)
      ensures Valid() && owner && fresh(buffer) && bufferSize == sz && Contents() == []
    {
      buffer := new byte[sz];
      bufferSize, owner, rBase, rBound, wBase, wBound := sz, true, 0, 0, 0, sz;
    }

    /** The caller's memory as the contents, observed or taken over. */
    constructor Wrap(memory: array<byte>, own: bool)
      requires memory.Length < TWO_32
      ensures Valid() && buffer == memory && owner == own && Contents() == memory[..]
    {
      buffer, owner := memory, own;
      bufferSize, rBase, rBound, wBase, wBound := memory.Length, 0, memory.Length, memory.Length, memory.Length;
      new;
      assert memory[0..memory.Length] == memory[..];
    }

    /** `computeRead`. */
    method ComputeRead(len: nat) returns (start: nat, give: nat)
      requires Valid()
      modifies this`rBase, this`rBound
      ensures Valid() && start == old(rBase) && rBase == start + give
      ensures give == Least(len, |old(Contents())|)
    {
      rBound := wBase;
      start, give := rBase, Least(len, wBase - rBase);
      rBase := rBase + give;
    }

    /** `read`: the first bytes of the queue, as many as there are up to `len`. */
    method Read(len: u32) returns (out: seq<byte>)
      requires Valid()
      modifies this`rBase, this`rBound
      ensures Valid() && var n := Least(len, |old(Contents())|);
                         out == old(Contents())[..n] && Contents() == old(Contents())[n..]
    {
      if rBase + len <= rBound {
        Sliced(buffer[..], rBase, wBase, len);
        out := buffer[rBase..rBase + len];
        rBase := rBase + len;
      } else {
        out := ReadSlow(len);
      }
    }

    method ReadSlow(len: u32) returns (out: seq<byte>)
      requires Valid()
      modifies this`rBase, this`rBound
      ensures Valid() && var n := Least(len, |old(Contents())|);
                         out == old(Contents())[..n] && Contents() == old(Contents())[n..]
    {
      var start, give := ComputeRead(len);
      Sliced(buffer[..], start, wBase, give);
      out := buffer[start..start + give];
    }

    /** `borrow`: at least `len` bytes from the front of the queue, without taking them. */
    method Borrow(len: u32) returns (r: Option<seq<byte>>)
      requires Valid()
      modifies this`rBound
      ensures Valid() && Contents() == old(Contents()) && (r.None? <==> |Contents()| < len)
      ensures r.Some? ==> len <= |r.value| == rBound - rBase && r.value <= Contents()
    {
      if len <= rBound - rBase {
        return Some(buffer[rBase..rBound]);
      }
      rBound := wBase;
      r := if wBase - rBase >= len then Some(buffer[rBase..wBase]) else None;
    }

    /** `consume`: false is the exception, for more than the read bound covers. */
    method Consume(len: u32) returns (ok: bool)
      requires Valid()
      modifies this`rBase
      ensures Valid() && ok == (len <= rBound - old(rBase))
      ensures Contents() == if ok then old(Contents())[len..] else old(Contents())
    {
      ok := len <= rBound - rBase;
      if ok { rBase := rBase + len; }
    }

    /** `ensureCanWrite`: doubles the memory until `len` more bytes fit; false is the exception
        for memory of someone else's. */
    method EnsureCanWrite(len: nat) returns (ok: bool)
      requires Valid() && len < TWO_32 && (owner ==> Grows(bufferSize, wBase, len))
      modifies this`buffer, this`bufferSize, this`wBound
      ensures Valid() && ok == (owner || len == 0) && Contents() == old(Contents())
      ensures ok ==> wBase + len <= wBound
      ensures buffer == old(buffer) || (owner && fresh(buffer))
      ensures !owner ==> bufferSize == old(bufferSize)
      ensures bufferSize >= old(bufferSize)
    {
      var avail := wBound - wBase;
      if len <= avail { return true; }
      if !owner { return false; }
      DoubleSize(len, avail);
      Reallocate();
      ok := true;
    }

    /** `realloc`: new memory with the front of the old. */
    method Reallocate()
      requires rBase <= wBase <= buffer.Length && wBase <= bufferSize
      modifies this`buffer
      ensures fresh(buffer) && buffer.Length == bufferSize && Contents() == old(Contents())
    {
      hide Overwrite;
      var newBuffer := new byte[bufferSize];
      var kept := buffer[..Least(buffer.Length, bufferSize)];
      OverwriteEnds(newBuffer[..], 0, kept, 0);
      Copy(newBuffer, 0, kept);
      SameFront(newBuffer[..], buffer[..], |kept|, rBase, wBase);
      buffer := newBuffer;
    }

    /** The doubling loop. */
    method DoubleSize(len: nat, avail0: nat)
      requires bufferSize < TWO_32 && avail0 == Room(bufferSize, wBase) < len && Grows(bufferSize, wBase, len)
      modifies this`bufferSize, this`wBound
      ensures wBase + len <= bufferSize == wBound < TWO_32
    {
      hide Doubled, Room;
      var avail := avail0;
      ghost var n, k := bufferSize, 0;
      ghost var last: nat :| last < 32 && GrowsAt(n, wBase, len, last);
      DoubledOnce(n, 0);
      RoomIs(Doubled(n, last), wBase, len);
      while len > avail
        invariant k <= last && bufferSize == Doubled(n, k) && avail == Room(bufferSize, wBase)
        invariant k > 0 ==> wBound == bufferSize
        decreases last - k
      {
        DoubledOnce(n, k);
        bufferSize := bufferSize * 2 % TWO_32;
        wBound := bufferSize;
        avail := Room(wBound, wBase);
        k := k + 1;
      }
    }

    /** `write`: to the end of the queue, and never into memory of someone else's. */
    method Write(bytes: seq<byte>) returns (ok: bool)
      requires Valid() && |bytes| < TWO_32 && (owner ==> Grows(bufferSize, wBase, |bytes|))
      modifies this`buffer, this`bufferSize, this`wBound, this`wBase, buffer
      ensures Valid() && ok == (owner || bytes == [])
      ensures Contents() == if ok then old(Contents()) + bytes else old(Contents())
      ensures buffer == old(buffer) || (owner && fresh(buffer))
      ensures !owner ==> buffer[..] == old(buffer[..])
      ensures bufferSize >= old(bufferSize) && wBase == old(wBase) + if ok then |bytes| else 0
    {
      hide Overwrite, Grows;
      if wBase + |bytes| > wBound {
        ok := EnsureCanWrite(|bytes|);
        if !ok { return; }
      }
      OverwriteEnds(buffer[..], wBase, bytes, rBase);
      Copy(buffer, wBase, bytes);
      wBase := wBase + |bytes|;
      ok := true;
    }

    /** `getWritePtr`: room for `len` bytes at the end of the queue. */
    method GetWritePtr(len: u32) returns (at: Option<nat>)
      requires Valid() && len < TWO_32 && (owner ==> Grows(bufferSize, wBase, len))
      modifies this`buffer, this`bufferSize, this`wBound
      ensures Valid() && Contents() == old(Contents()) && at.Some? == (owner || len == 0)
      ensures at.Some? ==> at.value == wBase && wBase + len <= wBound
      ensures bufferSize >= old(bufferSize)
      ensures buffer == old(buffer) || (owner && fresh(buffer))
    {
      var ok := EnsureCanWrite(len);
      at := if ok then Some(wBase) else None;
    }

    /** `wroteBytes`: what the client has put there joins the queue. */
    method WroteBytes(len: u32) returns (ok: bool)
      requires Valid()
      modifies this`wBase
      ensures Valid() && ok == (old(wBase) + len <= wBound)
      ensures ok ==> Contents() == old(Contents()) + buffer[old(wBase)..old(wBase) + len]
      ensures !ok ==> Contents() == old(Contents())
    {
      ok := len <= wBound - wBase;
      if ok { wBase := wBase + len; }
    }

    /** `resetBuffer`: empty, with the default capacity if asked for. */
    method ResetBuffer(resetCapacity: bool)
      requires Valid() && (resetCapacity ==> owner)
      modifies this
      ensures Valid() && Contents() == [] && wBase == 0 && owner == old(owner)
      ensures if resetCapacity then fresh(buffer) && bufferSize == DEFAULT_SIZE else buffer == old(buffer)
      ensures owner && !resetCapacity ==> bufferSize == old(bufferSize)
    {
      if resetCapacity {
        buffer := new byte[DEFAULT_SIZE];
        bufferSize := DEFAULT_SIZE;
        wBound := bufferSize;
      }
      rBase, rBound, wBase := 0, 0, 0;
      if !owner {
        wBound := wBase;
        bufferSize := 0;
      }
    }

    /** `readEnd`: starts from the front of the memory again once everything is read. */
    method ReadEnd()
      requires Valid()
      modifies this
      ensures Valid() && Contents() == old(Contents()) && owner == old(owner) && buffer == old(buffer)
      ensures |old(Contents())| == 0 ==> wBase == 0
      ensures wBase <= old(wBase) && (owner ==> bufferSize == old(bufferSize))
    {
      if rBase == wBase {
        assert |Contents()| == 0;
        ResetBuffer(false);
      }
    }
  }

  /** A borrowed view can be consumed, in whole or in part. */
  method BorrowThenConsume(m: TMemoryBuffer, len: u32, n: u32) returns (r: Option<seq<byte>>)
    requires m.Valid() && n <= len <= |m.Contents()|
    modifies m
    ensures m.Valid() && r == Some(old(m.Contents())[..n]) && m.Contents() == old(m.Contents())[n..]
  {
    var view := m.Borrow(len);
    var ok := m.Consume(n);
    assert view.value[..n] == old(m.Contents())[..n];
    r := Some(view.value[..n]);
  }

  // ----- whole runs -----------------------------------------------------------------------

  /** What a client does.  `Place` stands for `getWritePtr`, a copy by the client and `wroteBytes`. */
  datatype Call = Read(len: u32) | Borrow(len: u32) | Consume(len: u32) | Write(bytes: seq<byte>)
                | Place(bytes: seq<byte>) | ReadEnd

  function BytesOf(call: Call): (r: seq<byte>) { if call.Write? || call.Place? then call.bytes else [] }

  /** Everything offered for writing, in order. */
  function Offered(calls: seq<Call>): (r: seq<byte>) {
    if calls == [] then [] else Offered(calls[..|calls| - 1]) + BytesOf(calls[|calls| - 1])
  }

  lemma {:induction false} OfferedSoFar(calls: seq<Call>, k: nat)
    requires k < |calls|
    ensures Offered(calls[..k + 1]) == Offered(calls[..k]) + BytesOf(calls[k])
    ensures |Offered(calls[..k + 1])| <= |Offered(calls)| && calls[..|calls|] == calls
    decreases |calls| - k
  {
    assert calls[..k + 1][..k] == calls[..k];
    if k + 1 < |calls| { OfferedSoFar(calls, k + 1); } else { assert calls[..k + 1] == calls; }
  }

  /** The bytes that join the queue. */
  function Accepted(owner: bool, bytes: seq<byte>): (r: seq<byte>) { if owner then bytes else [] }

  /** One call: the bytes it takes, and those it adds. */
  method Do(m: TMemoryBuffer, call: Call) returns (ghost taken: seq<byte>)
    requires m.Valid() && |BytesOf(call)| < TWO_32
    requires m.owner ==> m.bufferSize > 0 && m.wBase + |BytesOf(call)| <= TWO_31
    modifies m, m.buffer
    ensures m.Valid() && m.owner == old(m.owner) && (m.buffer == old(m.buffer) || fresh(m.buffer))
    ensures m.owner ==> m.bufferSize > 0
    ensures m.wBase <= old(m.wBase) + |BytesOf(call)|
    ensures taken + m.Contents() == old(m.Contents()) + Accepted(m.owner, BytesOf(call))
  {
    hide Grows, Overwrite, TMemoryBuffer.Contents, Accepted;
    ghost var held := m.Contents();
    Nothing(held, m.owner);
    match call
    case Read(len) =>
      var out := m.Read(len);
      taken := out;
      Cut(held, Least(len, |held|));
    case Borrow(len) =>
      var view := m.Borrow(len);
      taken := [];
    case Consume(len) => taken := DoConsume(m, len);
    case Write(bytes) =>
      WriteBytes(m, bytes);
      taken := [];
      Nothing(m.Contents(), m.owner);
    case Place(bytes) =>
      PlaceBytes(m, bytes);
      taken := [];
      Nothing(m.Contents(), m.owner);
    case ReadEnd =>
      m.ReadEnd();
      taken := [];
  }

  method DoConsume(m: TMemoryBuffer, len: u32) returns (ghost taken: seq<byte>)
    requires m.Valid()
    modifies m`rBase
    ensures m.Valid() && taken + m.Contents() == old(m.Contents())
  {
    ghost var held := m.Contents();
    var ok := m.Consume(len);
    if ok { Cut(held, len); } else { Nothing(held, m.owner); }
    taken := if ok then held[..len] else [];
  }

  lemma Cut(s: seq<byte>, n: nat)
    requires n <= |s|
    ensures s[..n] + s[n..] == s
  {}

  lemma Nothing(s: seq<byte>, owner: bool)
    ensures [] + s == s && s + Accepted(owner, []) == s
  {}

  method WriteBytes(m: TMemoryBuffer, bytes: seq<byte>)
    requires m.Valid() && |bytes| < TWO_32 && (m.owner ==> m.bufferSize > 0 && m.wBase + |bytes| <= TWO_31)
    modifies m, m.buffer
    ensures m.Valid() && m.owner == old(m.owner) && (m.buffer == old(m.buffer) || fresh(m.buffer))
    ensures m.bufferSize >= old(m.bufferSize) && m.wBase <= old(m.wBase) + |bytes|
    ensures m.Contents() == old(m.Contents()) + Accepted(m.owner, bytes)
  {
    hide Grows;
    Nothing(m.Contents(), m.owner);
    if m.owner { GrowsSmall(m.bufferSize, m.wBase, |bytes|); }
    var ok := m.Write(bytes);
  }

  /** The client writes through the pointer it was given. */
  method PlaceBytes(m: TMemoryBuffer, bytes: seq<byte>)
    requires m.Valid() && |bytes| < TWO_32 && (m.owner ==> m.bufferSize > 0 && m.wBase + |bytes| <= TWO_31)
    modifies m, m.buffer
    ensures m.Valid() && m.owner == old(m.owner) && (m.buffer == old(m.buffer) || fresh(m.buffer))
    ensures m.bufferSize >= old(m.bufferSize) && m.wBase <= old(m.wBase) + |bytes|
    ensures m.Contents() == old(m.Contents()) + Accepted(m.owner, bytes)
  {
    hide Grows;
    Nothing(m.Contents(), m.owner);
    if m.owner { GrowsSmall(m.bufferSize, m.wBase, |bytes|); }
    var at := m.GetWritePtr(|bytes|);
    if at.Some? { FillIn(m, at.value, bytes); }
  }

  method FillIn(m: TMemoryBuffer, at: nat, bytes: seq<byte>)
    requires m.Valid() && |bytes| < TWO_32 && at == m.wBase && at + |bytes| <= m.wBound
    modifies m`wBase, m.buffer
    ensures m.Valid() && m.wBase == at + |bytes| && m.Contents() == old(m.Contents()) + bytes
  {
    hide Overwrite;
    OverwriteEnds(m.buffer[..], at, bytes, m.rBase);
    Copy(m.buffer, at, bytes);
    var ok := m.WroteBytes(|bytes|);
  }

  /** A run of any calls on a buffer: the bytes taken, and then those left, are the ones that were
      there and then those written; memory of someone else takes none. */
  method Run(m: TMemoryBuffer, calls: seq<Call>) returns (ghost taken: seq<byte>)
    requires m.Valid()
    requires if m.owner then m.bufferSize > 0 && m.wBase + |Offered(calls)| <= TWO_31
             else forall k :: 0 <= k < |calls| ==> |BytesOf(calls[k])| < TWO_32
    modifies m, m.buffer
    ensures m.Valid() && m.owner == old(m.owner)
    ensures taken + m.Contents() == old(m.Contents()) + Accepted(m.owner, Offered(calls))
  {
    hide BytesOf, Accepted, TMemoryBuffer.Contents;
    taken := [];
    ghost var start := m.Contents();
    NothingOffered(start, m.owner, calls);
    for k := 0 to |calls|
      invariant m.Valid() && m.owner == old(m.owner) && (m.buffer == old(m.buffer) || fresh(m.buffer))
      invariant m.owner ==> m.bufferSize > 0 && m.wBase <= old(m.wBase) + |Offered(calls[..k])|
      invariant taken + m.Contents() == start + Accepted(m.owner, Offered(calls[..k]))
    {
      OfferedSoFar(calls, k);
      ghost var was := m.Contents();
      ghost var more := Do(m, calls[k]);
      Chained(taken, more, was, m.Contents(), start, m.owner, Offered(calls[..k]), BytesOf(calls[k]));
      taken := taken + more;
    }
    assert calls[..|calls|] == calls;
  }

  lemma NothingOffered(start: seq<byte>, owner: bool, calls: seq<Call>)
    ensures [] + start == start + Accepted(owner, Offered(calls[..0])) && Offered(calls[..0]) == []
  {}

  lemma Chained(taken: seq<byte>, more: seq<byte>, was: seq<byte>, now: seq<byte>, start: seq<byte>, owner: bool,
                before: seq<byte>, added: seq<byte>)
    requires taken + was == start + Accepted(owner, before) && more + now == was + Accepted(owner, added)
    ensures taken + more + now == start + Accepted(owner, before + added)
  {
    assert taken + more + now == taken + (more + now) == taken + was + Accepted(owner, added);
  }
}
