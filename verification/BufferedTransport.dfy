/** `TBufferedTransport`: fast paths over a read and a write buffer, and the slow paths behind
    them. */
module BufferedTransport {
  import opened ThriftTypes
  import opened Transport

  /** What `borrow` gives: a null pointer, the buffered bytes, or an end-of-file exception. */
  datatype Borrowed = Null | Bytes(bytes: seq<byte>) | EndOfFile

  /** A write of `len` bytes behind `have` buffered ones is mistaken for a small one, because
      `have_bytes + len` wraps around 32 bits. */
  predicate WrapsAround(have: nat, len: nat, bufSize: nat) {
    0 < have && TWO_32 <= have + len && bufSize < TWO_31 && have + len - TWO_32 < 2 * bufSize
  }

  class TBufferedTransport {
    const source: Upstream
    const sink: Downstream
    const rBuf: array<byte>
    const wBuf: array<byte>
    // Pointers, counted from the start of their buffer; writes always end at the end of `wBuf`.
    var rBase: nat
    var rBound: nat
    var wBase: nat

    ghost predicate Valid()
      reads this
    {
      && rBuf != wBuf && rBuf.Length < TWO_31 && wBuf.Length < TWO_32 && rBase <= rBound <= rBuf.Length
      && wBase <= wBuf.Length
    }

    /** The bytes still to be delivered: those buffered and then those upstream. */
    ghost function Stream(): (r: seq<byte>)
      reads this, rBuf, source
    {
      Buffered() + source.data
    }

    ghost function Buffered(): (r: seq<byte>)
      reads this, rBuf
    {
      if rBase <= rBound <= rBuf.Length then rBuf[rBase..rBound] else []
    }

    /** The bytes accepted for writing: those passed on and then those still buffered. */
    ghost function Accepted(): (r: seq<byte>)
      reads this, wBuf, sink
    {
      sink.written + if wBase <= wBuf.Length then wBuf[..wBase] else []
    }

    constructor (source: Upstream, sink: Downstream, rsz: u32, wsz: u32)
      requires rsz < TWO_31
      ensures Valid() && fresh(rBuf) && fresh(wBuf) && rBuf.Length == rsz && wBuf.Length == wsz
      ensures this.source == source && this.sink == sink
      ensures Stream() == source.data && Accepted() == sink.written
    {
      this.source, this.sink := source, sink;
      rBuf, wBuf := new byte[rsz], new byte[wsz];
      rBase, rBound, wBase := 0, 0, 0;
    }

    // ----- reading ------------------------------------------------------------------------

    method Fill()
      requires Valid()
      modifies this`rBase, this`rBound, rBuf, source
      ensures Valid() && rBase == 0 && Stream() == old(source.data)
      ensures rBound == 0 ==> rBuf.Length == 0 || old(source.data) == []
    {
      var n := source.Read(rBuf, 0, rBuf.Length);
      rBase, rBound := 0, n;
      assert old(source.data) == old(source.data)[..n] + old(source.data)[n..];
    }

    /** `read`: the next bytes of the stream, at least one if there are any. */
    method Read(len: u32) returns (out: seq<byte>)
      requires Valid()
      modifies this`rBase, this`rBound, rBuf, source
      ensures Valid() && |out| <= len && out + Stream() == old(Stream())
      ensures out == [] ==> len == 0 || rBuf.Length == 0 || old(Stream()) == []
      ensures len <= |old(Buffered())| ==> |out| == len
    {
      if rBase + len <= rBound {
        out := Take(len);
      } else {
        out := ReadSlow(len);
      }
    }

    /** The next `n` buffered bytes. */
    method Take(n: nat) returns (out: seq<byte>)
      requires Valid() && rBase + n <= rBound
      modifies this`rBase
      ensures Valid() && |out| == n && out + Stream() == old(Stream())
      ensures out == old(Buffered())[..n] && rBase == old(rBase) + n
    {
      out := rBuf[rBase..rBase + n];
      rBase := rBase + n;
      assert out + Buffered() == old(Buffered());
      Regrouped(out, Buffered(), source.data);
    }

    /** What is buffered, and then as much as one more read from upstream gives. */
    method ReadSlow(len: u32) returns (out: seq<byte>)
      requires Valid() && rBound - rBase < len
      modifies this`rBase, this`rBound, rBuf, source
      ensures Valid() && |out| <= len && out + Stream() == old(Stream())
      ensures out == [] ==> rBuf.Length == 0 || old(Stream()) == []
    {
      hide Stream, Buffered;
      var want := len;
      var have := Take(rBound - rBase);
      want := want - |have|;
      StreamIsUpstream();
      Fill();
      var more := Take(if want < rBound then want else rBound);
      out := have + more;
      Regrouped(have, more, Stream());
    }

    lemma StreamIsUpstream()
      requires Valid() && rBase == rBound
      ensures Stream() == source.data
    {}

    /** `peek`: are there any more bytes? */
    method Peek() returns (r: bool)
      requires Valid()
      modifies this`rBase, this`rBound, rBuf, source
      ensures Valid() && Stream() == old(Stream())
      ensures rBuf.Length > 0 ==> r == (old(Stream()) != [])
    {
      if rBase == rBound { Fill(); }
      r := rBound > rBase;
    }

    /** `borrow`: a view of at least `len` bytes without taking any, unless `len` is more than
        the buffer and what it holds, or the stream ends too soon. */
    method Borrow(len: u32) returns (r: Borrowed)
      requires Valid()
      modifies this`rBase, this`rBound, rBuf, source
      ensures Valid()
      ensures r.Null? <==> rBuf.Length < len
      ensures r.EndOfFile? <==> |old(Stream())| < len <= rBuf.Length
      ensures r.Bytes? ==> r.bytes == Buffered() && len <= |r.bytes| && Stream() == old(Stream())
      ensures r.Null? ==> Stream() == old(Stream())
      ensures r.EndOfFile? ==> source.data == [] && Stream() <= old(Stream())
    {
      if len <= rBound - rBase {
        return Bytes(rBuf[rBase..rBound]);
      }
      r := BorrowSlow(len);
    }

    method BorrowSlow(len: u32) returns (r: Borrowed)
      requires Valid() && rBound - rBase < len
      modifies this`rBase, this`rBound, rBuf, source
      ensures Valid()
      ensures r.Null? <==> rBuf.Length < len
      ensures r.EndOfFile? <==> |old(Stream())| < len <= rBuf.Length
      ensures r.Bytes? ==> r.bytes == Buffered() && len <= |r.bytes| && Stream() == old(Stream())
      ensures r.Null? ==> Stream() == old(Stream())
      ensures r.EndOfFile? ==> source.data == [] && Stream() <= old(Stream())
    {
      if len > rBuf.Length { return Null; }
      var have := rBound - rBase;
      var need := len - have;
      var offset := rBound;
      if offset > rBuf.Length / 2 || offset + need > rBuf.Length {
        ShiftDown();
        offset := have;
      }
      ghost var all := Stream();
      var got := More(rBuf.Length - offset);
      need := need - got;
      if need > 0 {
        var ok := MoreAll(need);
        if !ok { return EndOfFile; }
      }
      r := Bytes(rBuf[rBase..rBound]);
    }

    /** Moves the buffered bytes to the start of the buffer. */
    method ShiftDown()
      requires Valid()
      modifies this`rBase, this`rBound, rBuf
      ensures Valid() && rBase == 0 && Buffered() == old(Buffered())
    {
      var have := rBuf[rBase..rBound];
      Copy(rBuf, 0, have);
      rBase, rBound := 0, |have|;
    }

    /** Reads up to `len` more bytes to the end of those buffered. */
    method More(len: nat) returns (got: nat)
      requires Valid() && rBound + len <= rBuf.Length
      modifies this`rBound, rBuf, source
      ensures Valid() && Stream() == old(Stream()) && got <= len && rBound == old(rBound) + got
    {
      ghost var was, data := rBuf[..], source.data;
      got := source.Read(rBuf, rBound, len);
      assert rBuf[..][rBase..rBound + got] == was[rBase..rBound] + data[..got];
      rBound := rBound + got;
      assert Buffered() == old(Buffered()) + data[..got];
      assert data == data[..got] + source.data;
    }

    /** Reads exactly `need` more, or fails and loses what was left. */
    method MoreAll(need: nat) returns (ok: bool)
      requires Valid() && rBound + need <= rBuf.Length
      modifies this`rBound, rBuf, source
      ensures Valid() && ok == (need <= |old(source.data)|)
      ensures ok ==> Stream() == old(Stream()) && rBound == old(rBound) + need
      ensures !ok ==> source.data == [] && Buffered() == old(Buffered()) && rBound == old(rBound)
    {
      ghost var was, data := rBuf[..], source.data;
      ok := source.ReadAll(rBuf, rBound, need);
      if ok {
        assert rBuf[..][rBase..rBound + need] == was[rBase..rBound] + data[..need];
        rBound := rBound + need;
        assert Buffered() == old(Buffered()) + data[..need];
        assert data == data[..need] + source.data;
      } else {
        assert rBuf[..][rBase..rBound] == was[rBase..rBound];
      }
    }

    /** `consume`: takes bytes that were borrowed; false is the exception. */
    method Consume(len: u32) returns (ok: bool)
      requires Valid()
      modifies this`rBase
      ensures Valid() && ok == (len <= |old(Buffered())|)
      ensures Stream() == if ok then old(Stream())[len..] else old(Stream())
    {
      ok := len <= rBound - rBase;
      if ok { rBase := rBase + len; }
    }

    // ----- writing ------------------------------------------------------------------------

    /** `write`.  False is the failing assertion that the rest fits the buffer. */
    method Write(buf: seq<byte>) returns (ok: bool)
      requires Valid() && |buf| < TWO_32
      modifies this`wBase, wBuf, sink
      ensures Valid() && ok == !WrapsAround(old(wBase), |buf|, wBuf.Length)
      ensures ok ==> Accepted() == old(Accepted()) + buf
      ensures old(sink.written) <= sink.written
      ensures old(wBase) + |buf| <= wBuf.Length ==> wBase == old(wBase) + |buf| && sink.written == old(sink.written)
    {
      if wBase + |buf| <= wBuf.Length {
        hide Overwrite;
        OverwriteEnds(wBuf[..], wBase, buf, 0);
        Copy(wBuf, wBase, buf);
        Regrouped(sink.written, wBuf[..wBase], buf);
        wBase := wBase + |buf|;
        ok := true;
      } else {
        ok := WriteSlow(buf);
      }
    }

    /** Two writes when there is much to write or nothing buffered; otherwise the buffer is
        filled, written out, and the rest buffered. */
    method WriteSlow(buf: seq<byte>) returns (ok: bool)
      requires Valid() && |buf| < TWO_32 && wBuf.Length - wBase < |buf|
      modifies this`wBase, wBuf, sink
      ensures Valid() && ok == !WrapsAround(old(wBase), |buf|, wBuf.Length)
      ensures ok ==> Accepted() == old(Accepted()) + buf
      ensures old(sink.written) <= sink.written
    {
      var haveBytes := wBase;
      var space := wBuf.Length - wBase;
      ghost var start := sink.written;
      if (haveBytes + |buf|) % TWO_32 >= (2 * wBuf.Length) % TWO_32 || haveBytes == 0 {
        if haveBytes > 0 { sink.Write(wBuf[..haveBytes]); }
        sink.Write(buf);
        wBase := 0;
        return true;
      }
      ok := WriteFilled(buf);
    }

    method WriteFilled(buf: seq<byte>) returns (ok: bool)
      requires Valid() && wBuf.Length - wBase < |buf|
      modifies this`wBase, wBuf, sink
      ensures Valid() && ok == (old(wBase) + |buf| < 2 * wBuf.Length)
      ensures ok ==> Accepted() == old(Accepted()) + buf
      ensures old(sink.written) <= sink.written
    {
      var space := wBuf.Length - wBase;
      ghost var start, held := sink.written, wBuf[..wBase];
      Copy(wBuf, wBase, buf[..space]);
      assert wBuf[..] == held + buf[..space];
      sink.Write(wBuf[..]);
      var rest := buf[space..];
      if |rest| >= wBuf.Length { return false; }
      Copy(wBuf, 0, rest);
      wBase := |rest|;
      assert wBuf[..wBase] == rest;
      AcceptedAll(start, held, buf, space);
      ok := true;
    }

    /** `flush`: everything accepted has been passed on. */
    method Flush()
      requires Valid()
      modifies this`wBase, sink
      ensures Valid() && wBase == 0 && sink.written == old(Accepted()) && Accepted() == old(Accepted())
      ensures sink.flushes == old(sink.flushes) + 1
    {
      var haveBytes := wBase;
      if haveBytes > 0 {
        wBase := 0;
        sink.Write(wBuf[..haveBytes]);
      }
      sink.Flush();
    }
  }

  lemma AcceptedAll(start: seq<byte>, held: seq<byte>, buf: seq<byte>, space: nat)
    requires space <= |buf|
    ensures start + (held + buf[..space]) + buf[space..] == start + held + buf
  {
    assert buf == buf[..space] + buf[space..];
  }

  /** A buffer of ten that holds one byte, and 2^32 - 1 more: the assertion fails. */
  method WriteThatFails(first: byte, rest: seq<byte>) returns (ok: bool)
    requires |rest| == TWO_32 - 1
    ensures !ok
  {
    var source := new Upstream([]);
    var sink := new Downstream();
    var t := new TBufferedTransport(source, sink, 10, 10);
    ok := t.Write([first]);
    assert t.wBase == 1;
    ok := t.Write(rest);
  }

  // ----- whole runs -----------------------------------------------------------------------

  /** What a client does, in any order. */
  datatype Call = Read(len: u32) | Peek | Borrow(len: u32) | Consume(len: u32) | Write(bytes: seq<byte>) | Flush

  /** How a run ends: with its last call, when a borrow meets the end of the stream, or at the
      failing assertion of a write. */
  datatype End = Finished | StreamEnded | AssertionFailed

  function BytesOf(call: Call): (r: seq<byte>) { if call.Write? then call.bytes else [] }

  /** Everything written, in order. */
  function Written(calls: seq<Call>): (r: seq<byte>) {
    if calls == [] then [] else Written(calls[..|calls| - 1]) + BytesOf(calls[|calls| - 1])
  }

  /** One call, and the bytes it takes from the stream. */
  method Do(t: TBufferedTransport, call: Call) returns (ghost taken: seq<byte>, end: End)
    requires t.Valid() && |BytesOf(call)| < TWO_32
    modifies t, t.rBuf, t.wBuf, t.source, t.sink
    ensures t.Valid()
    ensures !end.StreamEnded? ==> taken + t.Stream() == old(t.Stream())
    ensures end.StreamEnded? ==> t.source.data == [] && t.Stream() <= old(t.Stream())
    ensures !end.Finished? ==> taken == []
    ensures end.StreamEnded? <==> call.Borrow? && |old(t.Stream())| < call.len <= t.rBuf.Length
    ensures end.AssertionFailed? <==> call.Write? && WrapsAround(old(t.wBase), |call.bytes|, t.wBuf.Length)
    ensures !end.AssertionFailed? ==> t.Accepted() == old(t.Accepted()) + BytesOf(call)
    ensures call.Flush? ==> t.sink.written == t.Accepted()
  {
    hide WrapsAround, TBufferedTransport.Stream, TBufferedTransport.Accepted;
    ghost var stream, accepted := t.Stream(), t.Accepted();
    Nothing(stream);
    Nothing(accepted);
    end := Finished;
    taken := [];
    match call
    case Read(len) =>
      var out := t.Read(len);
      SameAccepted(t);
      taken := out;
    case Peek =>
      var more := t.Peek();
      SameAccepted(t);
    case Borrow(len) =>
      var view := t.Borrow(len);
      SameAccepted(t);
      if view.EndOfFile? { end := StreamEnded; }
    case Consume(len) =>
      BufferedFirst(t);
      var ok := t.Consume(len);
      SameAccepted(t);
      if ok {
        taken := stream[..len];
        assert stream[..len] + stream[len..] == stream;
      }
    case Write(bytes) =>
      var ok := t.Write(bytes);
      SameStream(t);
      if !ok { end := AssertionFailed; }
    case Flush =>
      t.Flush();
      SameStream(t);
  }

  lemma Nothing(s: seq<byte>)
    ensures [] + s == s && s + [] == s
  {}

  lemma BufferedFirst(t: TBufferedTransport)
    ensures |t.Buffered()| <= |t.Stream()|
  {}

  /** Reading leaves what was written alone, and writing what is to be read. */
  twostate lemma SameAccepted(t: TBufferedTransport)
    requires t.wBase == old(t.wBase) && t.wBuf[..] == old(t.wBuf[..]) && t.sink.written == old(t.sink.written)
    ensures t.Accepted() == old(t.Accepted())
  {}

  twostate lemma SameStream(t: TBufferedTransport)
    requires t.rBase == old(t.rBase) && t.rBound == old(t.rBound) && t.rBuf[..] == old(t.rBuf[..])
    requires t.source.data == old(t.source.data)
    ensures t.Stream() == old(t.Stream())
  {}

  /** Any calls in any order: what is delivered, and then what is still to come, is the stream there
      was; what is accepted is what was accepted and then all that was written.  Only a borrow at
      the end of the stream loses bytes, and a run stops there or where the assertion fails. */
  method Run(t: TBufferedTransport, calls: seq<Call>) returns (ghost taken: seq<byte>, done: nat, end: End)
    requires t.Valid() && forall k :: 0 <= k < |calls| ==> |BytesOf(calls[k])| < TWO_32
    modifies t, t.rBuf, t.wBuf, t.source, t.sink
    ensures t.Valid() && done <= |calls| && (end.Finished? <==> done == |calls|)
    ensures !end.StreamEnded? ==> taken + t.Stream() == old(t.Stream())
    ensures end.StreamEnded? ==> calls[done].Borrow? && t.source.data == [] && taken + t.Stream() <= old(t.Stream())
    ensures end.AssertionFailed? ==> calls[done].Write?
    ensures !end.AssertionFailed? ==> t.Accepted() == old(t.Accepted()) + Written(calls[..done])
  {
    hide WrapsAround, TBufferedTransport.Stream, TBufferedTransport.Accepted, BytesOf, Written;
    ghost var stream, accepted := t.Stream(), t.Accepted();
    Nothing(stream);
    Nothing(accepted);
    NothingWritten(calls);
    taken, done, end := [], 0, Finished;
    while done < |calls|
      invariant t.Valid() && done <= |calls| && end.Finished?
      invariant taken + t.Stream() == stream && t.Accepted() == accepted + Written(calls[..done])
    {
      WrittenNext(calls, done);
      ghost var more;
      ghost var before := t.Stream();
      more, end := Do(t, calls[done]);
      Regrouped(taken, more, t.Stream());
      Regrouped(accepted, Written(calls[..done]), BytesOf(calls[done]));
      if !end.Finished? {
        Nothing(Written(calls[..done]));
        Nothing(t.Stream());
        if end.StreamEnded? { Shorter(taken, before, t.Stream()); }
        return;
      }
      taken := taken + more;
      done := done + 1;
    }
  }

  lemma NothingWritten(calls: seq<Call>)
    ensures Written(calls[..0]) == []
  {}

  lemma WrittenNext(calls: seq<Call>, k: nat)
    requires k < |calls|
    ensures Written(calls[..k + 1]) == Written(calls[..k]) + BytesOf(calls[k])
    ensures !calls[k].Write? ==> BytesOf(calls[k]) == []
  {
    assert calls[..k + 1][..k] == calls[..k];
  }

  lemma Shorter(a: seq<byte>, b: seq<byte>, c: seq<byte>)
    requires c <= b
    ensures a + c <= a + b
  {}
}
