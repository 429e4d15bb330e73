/** `TFramedTransport`: writes are collected and sent as one frame behind its length; reads open
    one frame after another. */
module FramedTransport {
  import opened Arithmetic
  import opened ThriftTypes
  import opened Transport

  // ----- the format -----------------------------------------------------------------------

  /** `htonl`, as bytes. */
  function BigEndian(n: u32): (r: seq<byte>)
    ensures |r| == 4
  {
    [n / 0x100 / 0x100 / 0x100, n / 0x100 / 0x100 % 0x100, n / 0x100 % 0x100, n % 0x100]
  }

  function FromBigEndian(s: seq<byte>): (n: u32)
    requires |s| == 4
  {
    var (a: int, b: int, c: int) := (s[0], s[1], s[2]);
    ((a * 0x100 + b) * 0x100 + c) * 0x100 + s[3]
  }

  lemma BigEndianBack(n: u32)
    ensures FromBigEndian(BigEndian(n)) == n
  {}

  /** High byte first, and a frame in numbers. */
  lemma FrameBytes()
    ensures BigEndian(0x01020304) == [1, 2, 3, 4] && Frame([0x61, 0x62, 0x63]) == [0, 0, 0, 3, 0x61, 0x62, 0x63]
  {}

  function Concat(ps: seq<seq<byte>>): (r: seq<byte>) { if ps == [] then [] else ps[0] + Concat(ps[1..]) }

  /** What one flush sends; a flush of nothing sends nothing. */
  function Frame(p: seq<byte>): (r: seq<byte>)
    requires |p| < TWO_31
  {
    if p == [] then [] else BigEndian(|p|) + p
  }

  ghost predicate Sendable(ps: seq<seq<byte>>) { forall i :: 0 <= i < |ps| ==> |ps[i]| < TWO_31 }

  function Frames(ps: seq<seq<byte>>): (r: seq<byte>)
    requires Sendable(ps)
  {
    if ps == [] then [] else Frame(ps[0]) + Frames(ps[1..])
  }

  /** The payloads that a reader finds in `s`, one after the other. */
  function Payload(s: seq<byte>): (r: seq<byte>) {
    if WholeFrame(s) then s[4..4 + Size(s)] + Payload(s[4 + Size(s)..]) else []
  }

  function Size(s: seq<byte>): (n: u32)
    requires |s| >= 4
  {
    FromBigEndian(s[..4])
  }

  predicate WholeFrame(s: seq<byte>) { |s| >= 4 && Size(s) < TWO_31 && 4 + Size(s) <= |s| }

  /** Complete frames, none of them empty, and nothing after them. */
  predicate OnlyFrames(s: seq<byte>) { s == [] || (WholeFrame(s) && Size(s) > 0 && OnlyFrames(s[4 + Size(s)..])) }

  lemma FrameIsWhole(p: seq<byte>, rest: seq<byte>)
    requires 0 < |p| < TWO_31
    ensures var s := Frame(p) + rest;
            WholeFrame(s) && Size(s) == |p| && s[4..4 + |p|] == p && s[4 + |p|..] == rest
  {
    var s := Frame(p) + rest;
    assert s[..4] == BigEndian(|p|);
    BigEndianBack(|p|);
  }

  /** A reader of flushed frames finds their payloads, whatever they were cut into. */
  lemma {:induction false} FramesCarryPayloads(ps: seq<seq<byte>>)
    requires Sendable(ps)
    ensures Payload(Frames(ps)) == Concat(ps) && OnlyFrames(Frames(ps))
  {
    hide Frame, WholeFrame, Size;
    if ps != [] {
      FramesCarryPayloads(ps[1..]);
      FrameInFront(ps[0], Frames(ps[1..]));
    } else {
      NoFrames();
    }
  }

  lemma NoFrames()
    ensures Payload([]) == [] && OnlyFrames([])
  {}

  lemma FrameInFront(p: seq<byte>, rest: seq<byte>)
    requires |p| < TWO_31
    ensures Payload(Frame(p) + rest) == p + Payload(rest)
    ensures OnlyFrames(rest) ==> OnlyFrames(Frame(p) + rest)
  {
    hide Frame, Size;
    if p != [] {
      FrameIsWhole(p, rest);
    } else {
      assert Frame(p) == [] by { EmptyFrame(); }
      assert Frame(p) + rest == rest;
    }
  }

  lemma EmptyFrame()
    ensures Frame([]) == []
  {}

  /** A flush after earlier ones. */
  lemma {:induction false} FramesAppend(ps: seq<seq<byte>>, p: seq<byte>)
    requires Sendable(ps) && |p| < TWO_31
    ensures Sendable(ps + [p]) && Frames(ps + [p]) == Frames(ps) + Frame(p)
  {
    hide Frame, Frames;
    FirstFrame(ps + [p]);
    if ps == [] {
      assert ps + [p] == [p] && [p][1..] == [];
      FirstFrame([]);
    } else {
      FirstFrame(ps);
      FramesAppend(ps[1..], p);
      assert (ps + [p])[1..] == ps[1..] + [p];
      Regrouped(Frame(ps[0]), Frames(ps[1..]), Frame(p));
    }
  }

  lemma FirstFrame(ps: seq<seq<byte>>)
    requires Sendable(ps)
    ensures Frames(ps) == if ps == [] then [] else Frame(ps[0]) + Frames(ps[1..])
  {
    hide Frame;
  }

  lemma {:induction false} ConcatAppend(ps: seq<seq<byte>>, p: seq<byte>)
    ensures Concat(ps + [p]) == Concat(ps) + p && Concat(ps) + p + [] == Concat(ps) + p
  {
    hide Concat;
    FirstPart(ps + [p]);
    FirstPart(ps);
    if ps == [] {
      assert ps + [p] == [p] && [p][1..] == [];
    } else {
      ConcatAppend(ps[1..], p);
      assert (ps + [p])[1..] == ps[1..] + [p];
      Regrouped(ps[0], Concat(ps[1..]), p);
    }
  }

  lemma FirstPart(ps: seq<seq<byte>>)
    ensures Concat(ps) == if ps == [] then [] else ps[0] + Concat(ps[1..])
  {}

  /** What a read of a frame can throw. */
  datatype Outcome<T> = Done(value: T) | NegativeSize | EndOfFile

  // ----- the writer -----------------------------------------------------------------------

  class FrameWriter {
    const sink: Downstream
    var wBuf: array<byte>
    var wBufSize: nat
    var wBase: nat
    ghost var start: seq<byte>
    ghost var flushed: seq<seq<byte>>

    /** Four bytes are kept for the length, and what went out is the frames flushed so far. */
    ghost predicate Valid()
      reads this, sink
    {
      && 0 < wBufSize == wBuf.Length < TWO_32 && 4 <= wBase <= wBufSize
      && Sendable(flushed) && sink.written == start + Frames(flushed)
    }

    /** What has been written since the last flush. */
    ghost function Pending(): (r: seq<byte>)
      reads this, wBuf
    {
      if 4 <= wBase <= wBuf.Length then wBuf[4..wBase] else []
    }

    constructor (sink: Downstream, sz: u32)
      requires sz > 0
      ensures Valid() && fresh(wBuf) && this.sink == sink && Pending() == [] && flushed == [] && start == sink.written
      ensures wBufSize == FirstSize(sz)
    {
      this.sink := sink;
      wBuf := new byte[sz];
      wBufSize, wBase := sz, 0;
      start, flushed := sink.written, [];
      new;
      if 4 <= wBufSize {
        Copy(wBuf, 0, [0, 0, 0, 0]);
        wBase := 4;
      } else {
        ghost var k := ReachesSmall(wBufSize, 4);
        k := Grow(4);
        FirstSizeIs(sz, k);
        wBase := 4;
      }
    }

    /** Doubles the buffer until `len` more bytes fit, which has to happen some time, and moves what
        it holds.  A total that wraps around 32 bits is less than what is held, and the size stays. */
    method Grow(len: u32) returns (ghost k: nat)
      requires wBufSize == wBuf.Length < TWO_32 && wBase <= wBuf.Length && wBufSize < wBase + len
      requires wBase + len < TWO_32 ==> Reaches(wBufSize, wBase + len)
      modifies this`wBuf, this`wBufSize
      ensures fresh(wBuf) && wBufSize == wBuf.Length == Doubled(old(wBufSize), k) && wBase <= wBufSize
      ensures wBase + len < TWO_32 ==> wBase + len <= wBufSize
      ensures wBase + len < TWO_32 ==> forall j: nat :: j < k ==> Doubled(old(wBufSize), j) < wBase + len
      ensures wBase + len >= TWO_32 ==> wBufSize == old(wBufSize)
      ensures wBuf[..wBase] == old(wBuf[..wBase])
    {
      hide Doubled, Reaches, Overwrite;
      var total := (len + wBase) % TWO_32;
      if len + wBase < TWO_32 {
        Quotient(len + wBase, TWO_32, 0, len + wBase);
      } else {
        Quotient(len + wBase, TWO_32, 1, len + wBase - TWO_32);
        ReachedAlready(wBufSize, total);
      }
      k := DoubleSize(total);
      var newBuf := new byte[wBufSize];
      OverwriteEnds(newBuf[..], 0, wBuf[..wBase], 0);
      Copy(newBuf, 0, wBuf[..wBase]);
      wBuf := newBuf;
    }

    /** The doubling loop stops at the first size that is enough. */
    method DoubleSize(total: nat) returns (ghost k: nat)
      requires wBufSize < TWO_32 && Reaches(wBufSize, total)
      modifies this`wBufSize
      ensures total <= wBufSize == Doubled(old(wBufSize), k) < TWO_32
      ensures forall j: nat :: j < k ==> Doubled(old(wBufSize), j) < total
      ensures total <= old(wBufSize) ==> wBufSize == old(wBufSize)
    {
      hide Doubled;
      k := 0;
      ghost var enough: nat :| enough < 32 && Doubled(wBufSize, enough) >= total;
      DoubledOnce(wBufSize, 0);
      while wBufSize < total
        invariant k <= enough && wBufSize == Doubled(old(wBufSize), k)
        invariant forall j: nat :: j < k ==> Doubled(old(wBufSize), j) < total
        invariant k > 0 ==> old(wBufSize) < total
        decreases enough - k
      {
        DoubledOnce(old(wBufSize), k);
        wBufSize := wBufSize * 2 % TWO_32;
        k := k + 1;
      }
    }

    /** `write`.  False stands for a copy past the end of the memory, which happens exactly if the
        total wraps around 32 bits. */
    method Write(buf: seq<byte>) returns (ok: bool)
      requires Valid() && |buf| < TWO_32 && (wBase + |buf| < TWO_32 ==> Reaches(wBufSize, wBase + |buf|))
      modifies this`wBuf, this`wBufSize, this`wBase, wBuf
      ensures Valid() && ok == (old(wBase) + |buf| < TWO_32) && flushed == old(flushed)
      ensures Pending() == if ok then old(Pending()) + buf else old(Pending())
      ensures (wBuf == old(wBuf) || fresh(wBuf)) && wBufSize >= old(wBufSize) && start == old(start)
      ensures old(wBase) + |buf| <= old(wBufSize) ==> wBufSize == old(wBufSize)
    {
      hide Overwrite, Reaches, Frames, Sendable;
      if wBase + |buf| > wBufSize {
        ghost var k := Grow(|buf|);
        assert wBuf[4..wBase] == wBuf[..wBase][4..];
        if wBase + |buf| > wBufSize { return false; }
      }
      OverwriteEnds(wBuf[..], wBase, buf, 4);
      Copy(wBuf, wBase, buf);
      wBase := wBase + |buf|;
      ok := true;
    }

    /** `flush`.  False is the failing assertion that the buffer is longer than the length field.
        A payload from 2^31 bytes on, whose size is negative as a signed number, is not sent. */
    method Flush() returns (ok: bool)
      requires Valid()
      modifies this`wBase, this`flushed, wBuf, sink
      ensures Valid() && ok == (wBufSize > 4) && start == old(start)
      ensures var p := old(Pending());
              if ok && |p| < TWO_31 then
                Pending() == [] && flushed == old(flushed) + [p] && sink.written == old(sink.written) + Frame(p)
              else Pending() == p && flushed == old(flushed) && sink.written == old(sink.written)
      ensures sink.flushes == old(sink.flushes) + if ok then 1 else 0
    {
      hide Frames, Sendable, Concat, BigEndian;
      if wBufSize <= 4 { return false; }
      ghost var payload := Pending();
      var size := wBase - 4;
      PutSize(size);
      if size < TWO_31 {
        FramesAppend(flushed, payload);
        flushed := flushed + [payload];
      }
      if 0 < size < TWO_31 {
        wBase := 4;
        sink.Write(wBuf[..4 + size]);
      }
      sink.Flush();
      ok := true;
    }

    /** The frame size goes into the start of the buffer. */
    method PutSize(size: nat)
      requires wBuf.Length < TWO_32 && 4 + size <= wBuf.Length
      modifies wBuf
      ensures wBuf[..4 + size] == BigEndian(size) + old(wBuf[4..4 + size])
              && wBuf[4..4 + size] == old(wBuf[4..4 + size])
    {
      hide BigEndian;
      ghost var was := wBuf[..];
      Copy(wBuf, 0, BigEndian(size));
      assert wBuf[..] == BigEndian(size) + was[4..];
      assert wBuf[4..4 + size] == wBuf[..][4..][..size] == was[4..][..size];
    }
  }

  /** The size of a new writer's buffer, once it holds the four bytes. */
  function FirstSize(sz: nat): (r: nat) { if sz >= 4 then sz else if sz == 3 then 6 else 4 }

  lemma FirstSizeIs(sz: nat, k: nat)
    requires 0 < sz < 4 && Doubled(sz, k) >= 4 && forall j: nat :: j < k ==> Doubled(sz, j) < 4
    ensures Doubled(sz, k) == FirstSize(sz)
  {
    hide Doubled;
    DoubledOnce(sz, 0);
    DoubledOnce(sz, 1);
    assert k <= 2;
  }

  lemma NextFrame(s: seq<byte>)
    ensures WholeFrame(s) ==> Payload(s) == s[4..4 + Size(s)] + Payload(s[4 + Size(s)..])
    ensures OnlyFrames(s) && s != [] ==> WholeFrame(s) && Size(s) > 0 && OnlyFrames(s[4 + Size(s)..])
  {
    hide FromBigEndian;
  }

  // ----- the reader -----------------------------------------------------------------------

  class FrameReader {
    const source: Upstream
    var rBuf: array<byte>
    var rBufSize: nat
    var rBase: nat
    var rBound: nat

    ghost predicate Valid()
      reads this
    {
      rBufSize == rBuf.Length < TWO_31 && rBase <= rBound <= rBuf.Length
    }

    ghost function Buffered(): (r: seq<byte>)
      reads this, rBuf
    {
      if rBase <= rBound <= rBuf.Length then rBuf[rBase..rBound] else []
    }

    /** What is left of the open frame, and the payloads of those to come. */
    ghost function Rest(): (r: seq<byte>)
      reads this, rBuf, source
    {
      Buffered() + Payload(source.data)
    }

    constructor (source: Upstream, sz: u32)
      requires sz < TWO_31
      ensures Valid() && fresh(rBuf) && this.source == source && Rest() == Payload(source.data) && Buffered() == []
    {
      this.source := source;
      rBuf := new byte[sz];
      rBufSize, rBase, rBound := sz, 0, 0;
    }

    /** The length field of the next frame. */
    method ReadSize() returns (ok: bool, sz: u32)
      modifies source
      ensures ok == (|old(source.data)| >= 4)
      ensures ok ==> sz == Size(old(source.data)) && source.data == old(source.data)[4..]
      ensures !ok ==> source.data == []
    {
      hide FromBigEndian, Overwrite;
      var size := new byte[4];
      ghost var blank, data := size[..], source.data;
      ok := source.ReadAll(size, 0, 4);
      if !ok { return false, 0; }
      OverwriteAll(blank, data[..4]);
      sz := FromBigEndian(size[..]);
    }

    /** `readFrame`: the next frame replaces what is buffered. */
    method ReadFrame() returns (r: Outcome<()>)
      requires Valid()
      modifies this`rBuf, this`rBufSize, this`rBase, this`rBound, rBuf, source
      ensures Valid() && (rBuf == old(rBuf) || fresh(rBuf))
      ensures r.Done? <==> WholeFrame(old(source.data))
      ensures r.NegativeSize? <==> |old(source.data)| >= 4 && Size(old(source.data)) >= TWO_31
      ensures r.Done? ==> Buffered() == old(source.data)[4..4 + Size(old(source.data))]
      ensures r.Done? ==> source.data == old(source.data)[4 + Size(old(source.data))..]
      ensures r.Done? ==> Rest() == Payload(old(source.data))
      ensures OnlyFrames(old(source.data))
              ==> OnlyFrames(source.data) && (if r.Done? then Buffered() != [] else old(source.data) == [])
      ensures old(source.data) == [] ==> Buffered() == old(Buffered()) && source.data == []
    {
      hide Payload, Size, OnlyFrames, Overwrite;
      ghost var data := source.data;
      NextFrame(data);
      NoFrames();
      var ok, sz := ReadSize();
      if !ok { return EndOfFile; }
      if sz >= TWO_31 { return NegativeSize; }
      if sz > rBufSize {
        rBuf := new byte[sz];
        rBufSize := sz;
        rBase, rBound := 0, 0;
      }
      ghost var was := rBuf[..];
      ok := source.ReadAll(rBuf, 0, sz);
      if !ok { return EndOfFile; }
      OverwriteEnds(was, 0, data[4..][..sz], 0);
      rBase, rBound := 0, sz;
      r := Done(());
    }

    /** The next `n` buffered bytes. */
    method Take(n: nat) returns (out: seq<byte>)
      requires Valid() && rBase + n <= rBound
      modifies this`rBase
      ensures Valid() && |out| == n && out + Rest() == old(Rest()) && rBase == old(rBase) + n
    {
      hide Payload;
      out := rBuf[rBase..rBase + n];
      rBase := rBase + n;
      assert out + Buffered() == old(Buffered());
      Regrouped(out, Buffered(), Payload(source.data));
    }

    /** `read`: from the open frame, and if it holds too little from the next one as well. */
    method Read(len: u32) returns (r: Outcome<seq<byte>>)
      requires Valid()
      modifies this`rBuf, this`rBufSize, this`rBase, this`rBound, rBuf, source
      ensures Valid() && (rBuf == old(rBuf) || fresh(rBuf))
      ensures r.Done? ==> |r.value| <= len && r.value + Rest() == old(Rest())
      ensures r.Done? <==> len <= |old(Buffered())| || WholeFrame(old(source.data))
      ensures OnlyFrames(old(source.data)) ==> OnlyFrames(source.data)
      ensures OnlyFrames(old(source.data)) && r.Done? && r.value == [] ==> len == 0
      ensures OnlyFrames(old(source.data)) && !r.Done? ==> Rest() == old(Rest()) == old(Buffered()) == Buffered()
    {
      if rBase + len <= rBound {
        var out := Take(len);
        return Done(out);
      }
      r := ReadSlow(len);
    }

    method ReadSlow(len: u32) returns (r: Outcome<seq<byte>>)
      requires Valid() && rBound - rBase < len
      modifies this`rBuf, this`rBufSize, this`rBase, this`rBound, rBuf, source
      ensures Valid() && (rBuf == old(rBuf) || fresh(rBuf))
      ensures r.Done? ==> |r.value| <= len && r.value + Rest() == old(Rest())
      ensures r.Done? <==> WholeFrame(old(source.data))
      ensures OnlyFrames(old(source.data)) ==> OnlyFrames(source.data)
      ensures OnlyFrames(old(source.data)) && r.Done? ==> r.value != []
      ensures OnlyFrames(old(source.data)) && !r.Done? ==> Rest() == old(Rest()) == old(Buffered()) == Buffered()
    {
      hide OnlyFrames, WholeFrame, Payload, Size;
      var want := len;
      var have := rBuf[rBase..rBound];
      want := want - |have|;
      var frame := ReadFrame();
      match frame {
        case NegativeSize => NoFrames(); return NegativeSize;
        case EndOfFile => NoFrames(); return EndOfFile;
        case Done(_) =>
      }
      var more := Take(if want < rBound - rBase then want else rBound - rBase);
      r := Done(have + more);
      Regrouped(have, more, Rest());
    }

    /** `readAll` over this transport. */
    method ReadAll(len: u32) returns (r: Outcome<seq<byte>>)
      requires Valid() && OnlyFrames(source.data)
      modifies this`rBuf, this`rBufSize, this`rBase, this`rBound, rBuf, source
      ensures Valid() && (rBuf == old(rBuf) || fresh(rBuf)) && OnlyFrames(source.data)
      ensures r.Done? <==> len <= |old(Rest())|
      ensures r.Done? ==> |r.value| == len && r.value + Rest() == old(Rest())
    {
      hide Rest, OnlyFrames, WholeFrame, Buffered;
      ghost var all := Rest();
      var have: seq<byte> := [];
      while |have| < len
        invariant Valid() && (rBuf == old(rBuf) || fresh(rBuf)) && OnlyFrames(source.data)
        invariant |have| <= len && have + Rest() == all
        decreases len - |have|
      {
        var get := Read(len - |have|);
        match get {
          case NegativeSize => return NegativeSize;
          case EndOfFile => return EndOfFile;
          case Done(bytes) =>
            Regrouped(have, bytes, Rest());
            have := have + bytes;
        }
      }
      r := Done(have);
    }
  }

  // ----- whole runs -----------------------------------------------------------------------

  /** What a client of the writer does: any writes and flushes, in any order. */
  datatype Call = Write(bytes: seq<byte>) | Flush

  function Front<T>(s: seq<T>): (r: seq<T>)
    requires s != []
  {
    s[..|s| - 1]
  }

  /** Everything written, in order. */
  function Written(calls: seq<Call>): (r: seq<byte>) {
    if calls == [] then []
    else
      match calls[|calls| - 1]
      case Write(bytes) => Written(Front(calls)) + bytes
      case Flush => Written(Front(calls))
  }

  /** What was written after the last flush. */
  function Unsent(calls: seq<Call>): (r: seq<byte>) {
    if calls == [] then []
    else
      match calls[|calls| - 1]
      case Write(bytes) => Unsent(Front(calls)) + bytes
      case Flush => []
  }

  /** What was written before each flush and after the one before it. */
  function Payloads(calls: seq<Call>): (r: seq<seq<byte>>) {
    if calls == [] then []
    else
      match calls[|calls| - 1]
      case Write(_) => Payloads(Front(calls))
      case Flush => Payloads(Front(calls)) + [Unsent(Front(calls))]
  }

  /** The payloads and the rest are what was written, in order, and nothing else. */
  lemma {:induction false} AllWritten(calls: seq<Call>)
    ensures Concat(Payloads(calls)) + Unsent(calls) == Written(calls)
  {
    hide Concat;
    if calls == [] {
      NothingInAll();
    } else {
      var before := Front(calls);
      AllWritten(before);
      match calls[|calls| - 1]
      case Write(bytes) => assert Concat(Payloads(before)) + (Unsent(before) + bytes) == Written(before) + bytes;
      case Flush => ConcatAppend(Payloads(before), Unsent(before));
    }
  }

  lemma NothingInAll()
    ensures Concat([]) == []
  {}

  /** No unsent bytes are ever too many for the signed length of a frame. */
  ghost predicate Fit(calls: seq<Call>) { forall k :: 0 <= k <= |calls| ==> |Unsent(calls[..k])| + 4 <= TWO_31 }

  predicate AnyBytes(calls: seq<Call>) { exists k :: 0 <= k < |calls| && calls[k].Write? && calls[k].bytes != [] }

  /** When a run meets no failing assertion: before every flush the buffer is longer than four
      bytes, from the start or because something was written. */
  predicate Flushes(calls: seq<Call>, wsz: nat) {
    forall k :: 0 <= k < |calls| && calls[k].Flush? ==> FirstSize(wsz) > 4 || AnyBytes(calls[..k])
  }

  lemma AnyMore(calls: seq<Call>, k: nat)
    requires k < |calls|
    ensures AnyBytes(calls[..k + 1]) <==> AnyBytes(calls[..k]) || (calls[k].Write? && calls[k].bytes != [])
  {
    var now, next := calls[..k], calls[..k + 1];
    if AnyBytes(now) {
      var j :| 0 <= j < |now| && now[j].Write? && now[j].bytes != [];
      assert next[j] == now[j];
    }
    if calls[k].Write? && calls[k].bytes != [] { assert next[k] == calls[k]; }
    if AnyBytes(next) {
      var j :| 0 <= j < |next| && next[j].Write? && next[j].bytes != [];
      assert j < k ==> now[j] == next[j];
    }
  }

  /** One call on the writer, which knows of the ones before it. */
  method Do(writer: FrameWriter, calls: seq<Call>, k: nat) returns (ok: bool)
    requires writer.Valid() && k < |calls| && Fit(calls)
    requires writer.flushed == Payloads(calls[..k]) && writer.Pending() == Unsent(calls[..k])
    modifies writer, writer.wBuf, writer.sink
    ensures writer.Valid() && writer.start == old(writer.start)
            && (writer.wBuf == old(writer.wBuf) || fresh(writer.wBuf))
    ensures ok == (calls[k].Flush? ==> old(writer.wBufSize) > 4)
    ensures ok ==> writer.flushed == Payloads(calls[..k + 1]) && writer.Pending() == Unsent(calls[..k + 1])
    ensures ok ==> if calls[k].Write? && calls[k].bytes != [] then writer.wBufSize > 4
                   else writer.wBufSize == old(writer.wBufSize)
  {
    hide Frames, Sendable, Reaches, Frame;
    ghost var now, next := calls[..k], calls[..k + 1];
    assert next[..k] == now && |Unsent(next)| + 4 <= TWO_31 && |Unsent(now)| + 4 <= TWO_31;
    match calls[k]
    case Write(bytes) =>
      ghost var enough := ReachesSmall(writer.wBufSize, writer.wBase + |bytes|);
      ok := writer.Write(bytes);
    case Flush =>
      ok := writer.Flush();
  }

  /** A client that writes and flushes as it likes, until it meets the assertion. */
  method SendAll(calls: seq<Call>, wsz: u32) returns (ok: bool, sent: seq<byte>)
    requires 0 < wsz && Fit(calls)
    ensures ok == Flushes(calls, wsz)
    ensures Sendable(Payloads(calls)) && (ok ==> sent == Frames(Payloads(calls)))
  {
    hide Frames, Concat, Reaches, Unsent, Payloads, AnyBytes, Frame;
    var sink := new Downstream();
    var writer := new FrameWriter(sink, wsz);
    NoCalls(calls);
    for k := 0 to |calls|
      invariant writer.Valid() && writer.sink == sink && writer.start == [] && fresh(writer) && fresh(writer.wBuf)
      invariant writer.flushed == Payloads(calls[..k]) && writer.Pending() == Unsent(calls[..k])
      invariant writer.wBufSize > 4 <==> FirstSize(wsz) > 4 || AnyBytes(calls[..k])
      invariant forall j :: 0 <= j < k && calls[j].Flush? ==> FirstSize(wsz) > 4 || AnyBytes(calls[..j])
    {
      AnyMore(calls, k);
      var done := Do(writer, calls, k);
      if !done {
        PayloadsFit(calls, |calls|);
        return false, [];
      }
    }
    assert calls[..|calls|] == calls;
    ok, sent := true, sink.written;
    assert sent == [] + Frames(Payloads(calls));
  }

  lemma NoCalls(calls: seq<Call>)
    ensures Payloads(calls[..0]) == [] && Unsent(calls[..0]) == [] && !AnyBytes(calls[..0])
  {}

  lemma {:induction false} PayloadsFit(calls: seq<Call>, k: nat)
    requires k <= |calls| && Fit(calls)
    ensures Sendable(Payloads(calls[..k])) && calls[..|calls|] == calls
  {
    if k > 0 {
      PayloadsFit(calls, k - 1);
      assert calls[..k][..k - 1] == calls[..k - 1];
      assert |Unsent(calls[..k - 1])| + 4 <= TWO_31;
    }
  }

  /** A writer of size four flushed before any write: the assertion fails. */
  method FlushThatFails() returns (ok: bool)
    ensures !ok
  {
    var sink := new Downstream();
    var writer := new FrameWriter(sink, 4);
    ok := writer.Flush();
  }

  /** An empty buffer of eight that is given 2^32 - 1 bytes: the total wraps, and the copy runs past
      the end. */
  method WriteThatOverruns(bytes: seq<byte>) returns (ok: bool)
    requires |bytes| == TWO_32 - 1
    ensures !ok
  {
    var sink := new Downstream();
    var writer := new FrameWriter(sink, 8);
    ok := writer.Write(bytes);
  }

  /** Both ends together: whatever is written and flushed, in any order, the peer reads back what was
      written before the last flush as one stream, for any sizes of the two buffers, unless the
      assertion fails. */
  method Exchange(calls: seq<Call>, wsz: u32, rsz: u32) returns (ok: bool, r: Outcome<seq<byte>>)
    requires 0 < wsz && rsz < TWO_31 && Fit(calls) && |Written(calls)| < TWO_32
    ensures ok == Flushes(calls, wsz)
    ensures ok ==> r.Done? && r.value + Unsent(calls) == Written(calls)
  {
    hide Payload, OnlyFrames, Frames, Concat, Payloads, Unsent, Written, Fit, Flushes;
    var sent;
    ok, sent := SendAll(calls, wsz);
    if !ok { return false, EndOfFile; }
    var payloads := Payloads(calls);
    AllWritten(calls);
    FramesCarryPayloads(payloads);
    var peer := new Upstream(sent);
    var reader := new FrameReader(peer, rsz);
    r := reader.ReadAll(|Concat(payloads)|);
    assert r.value + reader.Rest() == Concat(payloads) && reader.Rest() == [];
    assert r.value + [] == r.value;
  }
}
