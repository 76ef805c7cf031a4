/**
 * The two stream adapters of `io.go`: a stream with no backing storage, and
 * a writer decorator that reports the byte count of every write to a
 * callback. The wrapped writer and the callback are objects that record the
 * calls they receive.
 */
module Io {
  import opened Os

  type byte = bv8

  /** A Go byte slice: its length fits Go's `int`. */
  type Buffer = b: seq<byte> | |b| < TwoTo63

  /** The `(n int, err error)` pair of Read and Write. */
  datatype IoResult = IoResult(n: int64, err: Option<Error>)

  /** A Read call's results and the contents of the buffer afterwards. */
  datatype ReadOutcome = ReadOutcome(n: int64, err: Option<Error>, after: Buffer)

  /** `emptyStream`, the type of `DevNull`: reads and writes succeed in full
      without touching any storage, and closing always succeeds. */
  datatype EmptyStream = EmptyStream {

    /** `Read(buf)`: reports the whole buffer as read and leaves its
        contents as they were. */
    function Read(buf: Buffer): (r: ReadOutcome)
      ensures r.n == |buf| && r.err == None
      ensures r.after == buf
    {
      ReadOutcome(|buf| as int64, None, buf)
    }

    /** `Write(buf)`: reports the whole buffer as written. */
    function Write(buf: Buffer): (r: IoResult)
      ensures r.n == |buf| && r.err == None
    {
      IoResult(|buf| as int64, None)
    }

    /** `Close()`: nil. */
    function Close(): (r: Option<Error>)
      ensures r == None
    {
      None
    }
  }

  /** The wrapped `io.Writer`. Its answer to a buffer may depend on every
      buffer it was given before; it records each call. */
  class Writer {
    const reply: (seq<Buffer>, Buffer) -> IoResult
    var received: seq<Buffer>

    constructor (reply: (seq<Buffer>, Buffer) -> IoResult)
      ensures this.reply == reply && received == []
    {
      this.reply := reply;
      received := [];
    }

    method Write(buf: Buffer) returns (n: int64, err: Option<Error>)
      modifies this
      ensures received == old(received) + [buf]
      ensures IoResult(n, err) == reply(old(received), buf)
    {
      var r := reply(received, buf);
      received := received + [buf];
      n, err := r.n, r.err;
    }
  }

  /** The `progress func(written int64)` callback; it records each call. */
  class Progress {
    var reported: seq<int64>

    constructor ()
      ensures reported == []
    {
      reported := [];
    }

    method Report(written: int64)
      modifies this
      ensures reported == old(reported) + [written]
    {
      reported := reported + [written];
    }
  }

  /** `progressStream`: the writer `w` and the callback `fn`, never reassigned. */
  class ProgressStream {
    const w: Writer
    const fn: Progress

    constructor (w: Writer, fn: Progress)
      ensures this.w == w && this.fn == fn
    {
      this.w := w;
      this.fn := fn;
    }

    /** `Write(buf)`: hands the whole buffer to `w` once, then calls `fn` once
        with the byte count `w` reported (`int64(n)`, the same value), even
        when `w` failed and whatever its sign; returns `w`'s answer as it is. */
    method Write(buf: Buffer) returns (n: int64, err: Option<Error>)
      modifies w, fn
      ensures w.received == old(w.received) + [buf]
      ensures IoResult(n, err) == w.reply(old(w.received), buf)
      ensures fn.reported == old(fn.reported) + [n]
    {
      n, err := w.Write(buf);
      fn.Report(n);
    }
  }

  /** `NewProgressWriter(w, progress)`: a new stream holding exactly `w` and
      `progress`. */
  method NewProgressWriter(w: Writer, progress: Progress) returns (s: ProgressStream)
    ensures fresh(s) && s.w == w && s.fn == progress
  {
    s := new ProgressStream(w, progress);
  }

  /** A client: a progress writer wrapping the empty stream reports the
      full length of the buffer to its callback and returns no error. */
  method DiscardWithProgress(progress: Progress, buf: Buffer) returns (n: int64, err: Option<Error>)
    modifies progress
    ensures n == |buf| && err == None
    ensures progress.reported == old(progress.reported) + [|buf| as int64]
  {
    var devNull: EmptyStream := EmptyStream;
    var sink := new Writer((seen: seq<Buffer>, b: Buffer) => devNull.Write(b));
    var s := NewProgressWriter(sink, progress);
    n, err := s.Write(buf);
  }
}
