/** The download engine of internal/downloader/downloader.go: the choice
    between one stream and ranged segments, the partition of the file into
    segments, the read/write loop of one segment with its shared byte
    counter, `ProgressWriter`, and the status checks. HTTP exchanges are
    inputs (a response is its status and the reads its body yields); the
    goroutines run one after another here, in segment order. */
module Downloader {

  import opened Wrappers
  import opened Strings

  newtype byte = x: int | 0 <= x < 256

  // ---------------------------------------------------------------------
  // Mode selection

  const MiB := 1024 * 1024

  datatype Mode = Single | Segmented

  /** Ranged segments only when the server accepts byte ranges, the length
      is known and at least 1 MiB, and more than one thread is asked for. */
  function SelectMode(acceptRanges: string, contentLength: int, threads: int): (m: Mode)
    ensures m == Segmented <==>
              acceptRanges == "bytes" && contentLength > 0 && threads > 1 && contentLength >= MiB
  {
    if acceptRanges != "bytes" || contentLength <= 0 || threads <= 1 || contentLength < MiB then Single
    else Segmented
  }

  /** Small files always go through a single stream, whatever the server
      offers. */
  lemma SmallFilesSingle(acceptRanges: string, contentLength: int, threads: int)
    requires contentLength < MiB
    ensures SelectMode(acceptRanges, contentLength, threads) == Single
  {
  }

  // ---------------------------------------------------------------------
  // Segments

  /** An inclusive byte range, as sent in a `Range: bytes=start-end`
      header. */
  datatype Segment = Segment(start: int, end: int)

  function Length(s: Segment): int {
    s.end - s.start + 1
  }

  /** Each segment starts right after the previous one ends. */
  predicate Contiguous(segs: seq<Segment>) {
    forall i :: 0 <= i < |segs| - 1 ==> segs[i + 1].start == segs[i].end + 1
  }

  function TotalLength(segs: seq<Segment>): int {
    if segs == [] then 0 else TotalLength(segs[..|segs| - 1]) + Length(segs[|segs| - 1])
  }

  /** Contiguous segments cover exactly the bytes from the first start to
      the last end. */
  lemma {:induction false} ContiguousTotal(segs: seq<Segment>)
    requires segs != [] && Contiguous(segs)
    ensures TotalLength(segs) == segs[|segs| - 1].end + 1 - segs[0].start
    decreases |segs|
  {
    if |segs| > 1 {
      var init := segs[..|segs| - 1];
      assert Contiguous(init);
      ContiguousTotal(init);
    }
  }

  /** What the segment loop of `DownloadFile` computes: `threads` segments
      of `contentLength / threads` bytes each, the last one running to the
      final byte. */
  method PlanSegments(contentLength: int, threads: int) returns (segs: seq<Segment>)
    requires contentLength >= 0 && threads >= 1
    ensures |segs| == threads
    ensures segs[0].start == 0 && segs[threads - 1].end == contentLength - 1
    ensures Contiguous(segs)
    ensures forall i :: 0 <= i < threads ==> Length(segs[i]) >= 0 && segs[i].start >= 0
    ensures forall i :: 0 <= i < threads - 1 ==> Length(segs[i]) == contentLength / threads
    ensures forall i :: 0 <= i < threads ==> segs[i].start == i * (contentLength / threads)
    ensures TotalLength(segs) == contentLength
  {
    var chunkSize := contentLength / threads;
    ChunkFits(contentLength, threads);
    segs := [];
    var i := 0;
    while i < threads
      invariant 0 <= i <= threads && |segs| == i
      invariant forall k :: 0 <= k < i ==> segs[k].start == k * chunkSize >= 0
      invariant forall k :: 0 <= k < i && k < threads - 1 ==> segs[k].end == k * chunkSize + chunkSize - 1
      invariant i == threads ==> segs[threads - 1].end == contentLength - 1
    {
      var start := i * chunkSize;
      var end := start + chunkSize - 1;
      if i == threads - 1 {
        end := contentLength - 1;
      }
      segs := segs + [Segment(start, end)];
      i := i + 1;
    }
    forall k | 0 <= k < threads - 1
      ensures segs[k + 1].start == segs[k].end + 1
    {
      assert (k + 1) * chunkSize == k * chunkSize + chunkSize;
    }
    ContiguousTotal(segs);
  }

  /** `threads` chunks of `contentLength / threads` fit in the file, so the
      last segment is never shorter than the others. */
  lemma ChunkFits(contentLength: int, threads: int)
    requires contentLength >= 0 && threads >= 1
    ensures contentLength / threads >= 0
    ensures (threads - 1) * (contentLength / threads) + contentLength / threads <= contentLength
  {
    var c := contentLength / threads;
    assert contentLength == threads * c + contentLength % threads;
    assert (threads - 1) * c + c == threads * c;
  }

  // ---------------------------------------------------------------------
  // Response bodies

  /** One `Read` of a response body: the bytes it returned and whether the
      body goes on, ended, or failed. */
  datatype ReadEnd = More | EOF | ReadError(message: string)
  datatype Read = Read(data: seq<byte>, end: ReadEnd)

  /** A body that eventually ends or fails. */
  predicate Ends(body: seq<Read>) {
    exists k :: 0 <= k < |body| && body[k].end != More
  }

  /** The index of the read that stops a read loop. */
  function Stop(body: seq<Read>): (k: nat)
    requires Ends(body)
    ensures k < |body| && body[k].end != More
    ensures forall j :: 0 <= j < k ==> body[j].end == More
  {
    if body[0].end != More then 0
    else
      assert Ends(body[1..]) by {
        var k :| 0 <= k < |body| && body[k].end != More;
        assert body[1..][k - 1] == body[k];
      }
      1 + Stop(body[1..])
  }

  /** The bytes of the first `n` reads, in order. */
  function Received(body: seq<Read>, n: nat): seq<byte>
    requires n <= |body|
  {
    if n == 0 then [] else Received(body, n - 1) + body[n - 1].data
  }

  // ---------------------------------------------------------------------
  // Progress

  datatype Progress = Progress(total: int, downloaded: int)

  /** The reports the first `n` reads cause: one per non-empty read,
      carrying the running count of bytes, which starts at `from`. */
  function Reports(total: int, from: int, body: seq<Read>, n: nat): (r: seq<Progress>)
    requires n <= |body|
    ensures |r| <= n
  {
    if n == 0 then []
    else if body[n - 1].data == [] then Reports(total, from, body, n - 1)
    else Reports(total, from, body, n - 1) + [Progress(total, from + |Received(body, n)|)]
  }

  /** Running counts that never go down and stay within [lo, hi]. */
  predicate Rising(r: seq<Progress>, lo: int, hi: int) {
    forall i, j :: 0 <= i <= j < |r| ==> lo <= r[i].downloaded <= r[j].downloaded <= hi
  }

  /** The running counts reported never go down and stay between the
      starting count and the count after the last read. */
  lemma {:induction false} ReportsMonotone(total: int, from: int, body: seq<Read>, n: nat)
    requires n <= |body|
    ensures Rising(Reports(total, from, body, n), from, from + |Received(body, n)|)
  {
    if n > 0 {
      ReportsMonotone(total, from, body, n - 1);
      var r0 := Reports(total, from, body, n - 1);
      var r := Reports(total, from, body, n);
      var hi := from + |Received(body, n)|;
      assert hi >= from + |Received(body, n - 1)|;
      if body[n - 1].data != [] {
        assert r == r0 + [Progress(total, hi)];
        forall i, j | 0 <= i <= j < |r|
          ensures from <= r[i].downloaded <= r[j].downloaded <= hi
        {
          if j < |r0| {
            assert r[i] == r0[i] && r[j] == r0[j];
          } else if i < |r0| {
            assert r[i] == r0[i];
            assert 0 <= i <= i < |r0|;
          }
        }
      } else {
        assert r == r0;
      }
    }
  }

  /** `ProgressWriter`: counts the bytes passing through and reports the
      running total after each write. */
  class ProgressWriter {
    var total: int
    var downloaded: int

    constructor (total: int)
      ensures this.total == total && downloaded == 0
    {
      this.total := total;
      downloaded := 0;
    }

    /** `Write`: the whole chunk is accepted, without error, and the new
        running total is reported. */
    method Write(p: seq<byte>) returns (n: int, err: Option<string>, report: Progress)
      modifies this
      ensures n == |p| && err == None
      ensures total == old(total) && downloaded == old(downloaded) + |p|
      ensures report == Progress(total, downloaded)
    {
      n := |p|;
      downloaded := downloaded + n;
      report := Progress(total, downloaded);
      err := None;
    }
  }

  // ---------------------------------------------------------------------
  // The destination file and the shared state

  /** One `WriteAt` call. */
  datatype Write = Write(offset: int, data: seq<byte>)

  /** The writes the first `n` reads of a loop make from `start` on: one
      per non-empty read, each at the offset the bytes before it have
      reached. */
  function Placed(start: int, body: seq<Read>, n: nat): (w: seq<Write>)
    requires n <= |body|
    ensures |w| <= n
  {
    if n == 0 then []
    else if body[n - 1].data == [] then Placed(start, body, n - 1)
    else Placed(start, body, n - 1) + [Write(start + |Received(body, n - 1)|, body[n - 1].data)]
  }

  /** `w` tiles the file from `start` over `total` bytes: each write
      begins where the previous one ended, none is empty, the first begins
      at `start` and the last ends at `start + total`. */
  predicate Tiles(w: seq<Write>, start: int, total: nat) {
    && (forall i :: 0 <= i < |w| ==> w[i].data != [])
    && (forall i :: 0 <= i < |w| - 1 ==> w[i + 1].offset == w[i].offset + |w[i].data|)
    && (w != [] ==> w[0].offset == start && w[|w| - 1].offset + |w[|w| - 1].data| == start + total)
    && (w == [] ==> total == 0)
  }

  lemma TilesSnoc(w: seq<Write>, start: int, total: nat, d: seq<byte>)
    requires Tiles(w, start, total) && d != []
    ensures Tiles(w + [Write(start + total, d)], start, total + |d|)
  {
    var w' := w + [Write(start + total, d)];
    assert forall i :: 0 <= i < |w| ==> w'[i] == w[i];
  }

  /** The writes of a read loop tile the file from `start` to `start` plus
      the bytes read, and together they hold exactly the bytes received. */
  lemma {:induction false} PlacedTiles(start: int, body: seq<Read>, n: nat)
    requires n <= |body|
    ensures Tiles(Placed(start, body, n), start, |Received(body, n)|)
  {
    if n > 0 {
      PlacedTiles(start, body, n - 1);
      var w := Placed(start, body, n - 1);
      var total := |Received(body, n - 1)|;
      var d := body[n - 1].data;
      assert |Received(body, n)| == total + |d|;
      if d != [] {
        TilesSnoc(w, start, total, d);
        assert Placed(start, body, n) == w + [Write(start + total, d)];
      } else {
        assert Placed(start, body, n) == w;
      }
    }
  }

  /** The destination file: its size and the writes made to it since it
      was last created. */
  class Dest {
    var size: int
    var writes: seq<Write>

    constructor ()
      ensures size == 0 && writes == []
    {
      size := 0;
      writes := [];
    }

    /** `WriteAt`: the file grows when writing past its end. */
    method WriteAt(data: seq<byte>, offset: int)
      modifies this
      ensures writes == old(writes) + [Write(offset, data)]
      ensures size == if offset + |data| > old(size) then offset + |data| else old(size)
    {
      writes := writes + [Write(offset, data)];
      if offset + |data| > size {
        size := offset + |data|;
      }
    }

    /** `Truncate`: the file gets exactly `n` bytes. */
    method Truncate(n: int)
      modifies this
      ensures size == n && writes == old(writes)
    {
      size := n;
    }

    /** `os.Create`: an existing file is emptied. */
    method Recreate()
      modifies this
      ensures size == 0 && writes == []
    {
      size := 0;
      writes := [];
    }
  }

  /** The byte counter the segments share. */
  class Counter {
    var value: int

    constructor ()
      ensures value == 0
    {
      value := 0;
    }
  }

  /** The progress channel: what was offered to it and whether it was
      closed. */
  class Channel {
    var sent: seq<Progress>
    var closed: bool

    constructor ()
      ensures sent == [] && !closed
    {
      sent := [];
      closed := false;
    }

    method Send(p: Progress)
      modifies this
      ensures sent == old(sent) + [p] && closed == old(closed)
    {
      sent := sent + [p];
    }

    method Close()
      modifies this
      ensures closed && sent == old(sent)
    {
      closed := true;
    }
  }

  // ---------------------------------------------------------------------
  // One segment

  /** A response to a GET: the transport error, if any, the status, the
      announced length and the reads its body yields. */
  datatype Response = Response(requestError: Option<string>, status: int, length: int, body: seq<Read>)

  predicate Complete(resp: Response) {
    resp.requestError.Some? || Ends(resp.body)
  }

  /** How a read loop ends: nil at EOF, the read error otherwise. */
  function EndOutcome(body: seq<Read>): (r: Outcome)
    requires Ends(body)
    ensures r.Pass? <==> body[Stop(body)].end == EOF
  {
    match body[Stop(body)].end
    case EOF => Pass
    case ReadError(e) => Fail(e)
  }

  /** The outcome of a segment download: transport error, status check,
      then how the body ended. */
  function SegmentOutcome(resp: Response): (r: Outcome)
    requires Complete(resp)
    ensures resp.requestError.None? && resp.status != 206 && resp.status != 200 ==>
              r == Fail("segment HTTP " + IntToString(resp.status))
    ensures r.Pass? <==> resp.requestError.None? && (resp.status == 206 || resp.status == 200)
                         && resp.body[Stop(resp.body)].end == EOF
  {
    if resp.requestError.Some? then Fail(resp.requestError.value)
    else if resp.status != 206 && resp.status != 200 then Fail("segment HTTP " + IntToString(resp.status))
    else EndOutcome(resp.body)
  }

  /** Whether a segment download reaches its read loop. */
  predicate Accepted(resp: Response) {
    resp.requestError.None? && (resp.status == 206 || resp.status == 200)
  }

  /** Handles one read of a segment: its bytes, if any, are written at
      `offset`, added to the shared counter, and the counter's new value is
      offered. */
  method Absorb(data: seq<byte>, offset: int, totalSize: int, out: Dest, downloaded: Counter, ch: Channel)
    modifies out, downloaded, ch
    ensures out.writes == old(out.writes) + (if data == [] then [] else [Write(offset, data)])
    ensures out.size >= old(out.size)
    ensures downloaded.value == old(downloaded.value) + |data|
    ensures ch.sent == old(ch.sent) + (if data == [] then [] else [Progress(totalSize, downloaded.value)])
    ensures ch.closed == old(ch.closed)
  {
    if |data| > 0 {
      out.WriteAt(data, offset);
      downloaded.value := downloaded.value + |data|;
      ch.Send(Progress(totalSize, downloaded.value));
    }
  }

  /** `downloadSegment` for the range [start, end]: the bytes go to the file
      from `start` on, the counter grows by their number and each non-empty
      read offers the counter's new value. The offset is not bounded by
      `end`: a server that sends more than asked writes past it. */
  method DownloadSegment(resp: Response, start: int, end: int, totalSize: int,
                         out: Dest, downloaded: Counter, ch: Channel) returns (r: Outcome)
    requires Complete(resp) && start >= 0
    modifies out, downloaded, ch
    ensures r == SegmentOutcome(resp)
    ensures !Accepted(resp) ==>
              out.writes == old(out.writes) && downloaded.value == old(downloaded.value) && ch.sent == old(ch.sent)
    ensures Accepted(resp) ==>
              out.writes == old(out.writes) + Placed(start, resp.body, Stop(resp.body) + 1)
              && downloaded.value == old(downloaded.value) + |Received(resp.body, Stop(resp.body) + 1)|
              && ch.sent == old(ch.sent) + Reports(totalSize, old(downloaded.value), resp.body, Stop(resp.body) + 1)
    ensures ch.closed == old(ch.closed) && out.size >= old(out.size)
  {
    if resp.requestError.Some? {
      return Fail(resp.requestError.value);
    }
    if resp.status != 206 && resp.status != 200 {
      return Fail("segment HTTP " + IntToString(resp.status));
    }
    r := ReadSegment(resp.body, start, totalSize, out, downloaded, ch);
  }

  /** The read loop of `downloadSegment`: the offset starts at `start` and
      advances by each read's length. */
  method ReadSegment(body: seq<Read>, start: int, totalSize: int, out: Dest, downloaded: Counter, ch: Channel)
    returns (r: Outcome)
    requires Ends(body)
    modifies out, downloaded, ch
    ensures r == EndOutcome(body)
    ensures out.writes == old(out.writes) + Placed(start, body, Stop(body) + 1)
    ensures downloaded.value == old(downloaded.value) + |Received(body, Stop(body) + 1)|
    ensures ch.sent == old(ch.sent) + Reports(totalSize, old(downloaded.value), body, Stop(body) + 1)
    ensures ch.closed == old(ch.closed) && out.size >= old(out.size)
  {
    ghost var writes0 := out.writes;
    ghost var count0 := downloaded.value;
    ghost var sent0 := ch.sent;
    var offset, i := ReadWhileMore(body, start, totalSize, out, downloaded, ch);
    SegmentStep(body, i, offset, start, totalSize, out, downloaded, ch, writes0, count0, sent0);
    r := EndOutcome(body);
  }

  /** The reads that return more to come, handled one after another; stops
      at the read that ends the body. */
  method ReadWhileMore(body: seq<Read>, start: int, totalSize: int, out: Dest, downloaded: Counter, ch: Channel)
    returns (offset: int, i: nat)
    requires Ends(body)
    modifies out, downloaded, ch
    ensures i == Stop(body)
    ensures offset == start + |Received(body, i)|
    ensures downloaded.value == old(downloaded.value) + |Received(body, i)|
    ensures out.writes == old(out.writes) + Placed(start, body, i)
    ensures ch.sent == old(ch.sent) + Reports(totalSize, old(downloaded.value), body, i)
    ensures ch.closed == old(ch.closed) && out.size >= old(out.size)
  {
    ghost var stop := Stop(body);
    ghost var writes0 := out.writes;
    ghost var count0 := downloaded.value;
    ghost var sent0 := ch.sent;
    offset := start;
    i := 0;
    while body[i].end == More
      invariant 0 <= i <= stop
      invariant downloaded.value == count0 + |Received(body, i)|
      invariant offset == start + |Received(body, i)|
      invariant out.writes == writes0 + Placed(start, body, i)
      invariant out.size >= old(out.size)
      invariant ch.sent == sent0 + Reports(totalSize, count0, body, i)
      invariant ch.closed == old(ch.closed)
      decreases stop - i
    {
      MoreBeforeStop(body, i);
      SegmentStep(body, i, offset, start, totalSize, out, downloaded, ch, writes0, count0, sent0);
      offset := offset + |body[i].data|;
      i := i + 1;
    }
  }

  /** A read that promises more comes before the one that stops the loop. */
  lemma MoreBeforeStop(body: seq<Read>, i: nat)
    requires Ends(body) && i <= Stop(body) && body[i].end == More
    ensures i < Stop(body)
  {
  }

  /** One pass of the read loop of `downloadSegment`, in terms of the reads
      handled so far. */
  method SegmentStep(body: seq<Read>, i: nat, offset: int, start: int, totalSize: int,
                     out: Dest, downloaded: Counter, ch: Channel,
                     ghost writes0: seq<Write>, ghost count0: int, ghost sent0: seq<Progress>)
    requires i < |body| && offset == start + |Received(body, i)|
    requires downloaded.value == count0 + |Received(body, i)|
    requires out.writes == writes0 + Placed(start, body, i)
    requires ch.sent == sent0 + Reports(totalSize, count0, body, i)
    modifies out, downloaded, ch
    ensures downloaded.value == count0 + |Received(body, i + 1)|
    ensures out.writes == writes0 + Placed(start, body, i + 1)
    ensures ch.sent == sent0 + Reports(totalSize, count0, body, i + 1)
    ensures out.size >= old(out.size) && ch.closed == old(ch.closed)
  {
    var data := body[i].data;
    Absorb(data, offset, totalSize, out, downloaded, ch);
    assert Received(body, i + 1) == Received(body, i) + data;
    if data == [] {
      assert Placed(start, body, i + 1) == Placed(start, body, i);
      assert Reports(totalSize, count0, body, i + 1) == Reports(totalSize, count0, body, i);
    } else {
      assert Placed(start, body, i + 1) == Placed(start, body, i) + [Write(offset, data)];
      assert writes0 + Placed(start, body, i) + [Write(offset, data)] == writes0 + (Placed(start, body, i) + [Write(offset, data)]);
      assert Reports(totalSize, count0, body, i + 1)
          == Reports(totalSize, count0, body, i) + [Progress(totalSize, downloaded.value)];
      assert sent0 + Reports(totalSize, count0, body, i) + [Progress(totalSize, downloaded.value)]
          == sent0 + (Reports(totalSize, count0, body, i) + [Progress(totalSize, downloaded.value)]);
    }
  }

  /** `downloadSingle`: a non-200 status is an error before the file is
      created; otherwise the file is recreated empty and the body copied
      into it through a `ProgressWriter`, whose reports are offered to the
      channel. */
  method DownloadSingle(resp: Response, createError: Option<string>, out: Dest, ch: Channel)
    returns (r: Outcome)
    requires Complete(resp)
    modifies out, ch
    ensures resp.requestError.Some? ==>
              r == Fail(resp.requestError.value) && out.writes == old(out.writes) && ch.sent == old(ch.sent)
    ensures resp.requestError.None? && resp.status != 200 ==>
              r == Fail("HTTP " + IntToString(resp.status)) && out.writes == old(out.writes) && ch.sent == old(ch.sent)
    ensures resp.requestError.None? && resp.status == 200 && createError.Some? ==>
              r == Fail(createError.value) && out.writes == old(out.writes) && ch.sent == old(ch.sent)
    ensures resp.requestError.None? && resp.status == 200 && createError.None? ==>
              out.writes == Placed(0, resp.body, Stop(resp.body) + 1)
              && ch.sent == old(ch.sent) + Reports(resp.length, 0, resp.body, Stop(resp.body) + 1)
              && r == EndOutcome(resp.body)
    ensures ch.closed == old(ch.closed)
  {
    if resp.requestError.Some? {
      return Fail(resp.requestError.value);
    }
    if resp.status != 200 {
      return Fail("HTTP " + IntToString(resp.status));
    }
    if createError.Some? {
      return Fail(createError.value);
    }
    out.Recreate();
    r := CopyBody(resp.body, resp.length, out, ch);
  }

  /** `io.Copy` from the body, through a tee into a `ProgressWriter`, to
      the file: each non-empty read is counted, reported and written at the
      end of what came before; EOF ends the copy without error. */
  method CopyBody(body: seq<Read>, length: int, out: Dest, ch: Channel) returns (r: Outcome)
    requires Ends(body)
    modifies out, ch
    ensures out.writes == old(out.writes) + Placed(0, body, Stop(body) + 1)
    ensures ch.sent == old(ch.sent) + Reports(length, 0, body, Stop(body) + 1)
    ensures r == EndOutcome(body) && ch.closed == old(ch.closed)
  {
    var pw := new ProgressWriter(length);
    ghost var writes0 := out.writes;
    ghost var sent0 := ch.sent;
    var i := CopyWhileMore(body, pw, out, ch);
    TeeStep(body, i, pw, out, ch, writes0, sent0);
    r := EndOutcome(body);
  }

  /** The reads of `io.Copy` that promise more. */
  method CopyWhileMore(body: seq<Read>, pw: ProgressWriter, out: Dest, ch: Channel) returns (i: nat)
    requires Ends(body) && pw.downloaded == 0
    modifies pw, out, ch
    ensures i == Stop(body)
    ensures pw.total == old(pw.total) && pw.downloaded == |Received(body, i)|
    ensures out.writes == old(out.writes) + Placed(0, body, i)
    ensures ch.sent == old(ch.sent) + Reports(pw.total, 0, body, i)
    ensures ch.closed == old(ch.closed)
  {
    ghost var stop := Stop(body);
    ghost var writes0 := out.writes;
    ghost var sent0 := ch.sent;
    i := 0;
    while body[i].end == More
      invariant 0 <= i <= stop
      invariant pw.downloaded == |Received(body, i)| && pw.total == old(pw.total)
      invariant out.writes == writes0 + Placed(0, body, i)
      invariant ch.sent == sent0 + Reports(pw.total, 0, body, i)
      invariant ch.closed == old(ch.closed)
      decreases stop - i
    {
      MoreBeforeStop(body, i);
      TeeStep(body, i, pw, out, ch, writes0, sent0);
      i := i + 1;
    }
  }

  /** One pass of `io.Copy`, in terms of the reads handled so far. */
  method TeeStep(body: seq<Read>, i: nat, pw: ProgressWriter, out: Dest, ch: Channel,
                 ghost writes0: seq<Write>, ghost sent0: seq<Progress>)
    requires i < |body| && pw.downloaded == |Received(body, i)|
    requires out.writes == writes0 + Placed(0, body, i)
    requires ch.sent == sent0 + Reports(pw.total, 0, body, i)
    modifies pw, out, ch
    ensures pw.total == old(pw.total) && pw.downloaded == |Received(body, i + 1)|
    ensures out.writes == writes0 + Placed(0, body, i + 1)
    ensures ch.sent == sent0 + Reports(pw.total, 0, body, i + 1)
    ensures ch.closed == old(ch.closed)
  {
    var data := body[i].data;
    var offset := pw.downloaded;
    Tee(data, pw, out, ch);
    assert Received(body, i + 1) == Received(body, i) + data;
    if data == [] {
      assert Placed(0, body, i + 1) == Placed(0, body, i);
      assert Reports(pw.total, 0, body, i + 1) == Reports(pw.total, 0, body, i);
    } else {
      assert Placed(0, body, i + 1) == Placed(0, body, i) + [Write(offset, data)];
      AppendAssoc(writes0, Placed(0, body, i), [Write(offset, data)]);
      assert Reports(pw.total, 0, body, i + 1) == Reports(pw.total, 0, body, i) + [Progress(pw.total, pw.downloaded)];
      AppendAssoc(sent0, Reports(pw.total, 0, body, i), [Progress(pw.total, pw.downloaded)]);
    }
  }

  /** One read of `io.Copy` through the tee: a non-empty chunk goes to the
      `ProgressWriter`, whose report is offered, and is written where the
      previous bytes ended. */
  method Tee(data: seq<byte>, pw: ProgressWriter, out: Dest, ch: Channel)
    modifies pw, out, ch
    ensures pw.total == old(pw.total) && pw.downloaded == old(pw.downloaded) + |data|
    ensures out.writes == old(out.writes) + (if data == [] then [] else [Write(old(pw.downloaded), data)])
    ensures ch.sent == old(ch.sent) + (if data == [] then [] else [Progress(pw.total, pw.downloaded)])
    ensures ch.closed == old(ch.closed)
  {
    if |data| > 0 {
      var offset := pw.downloaded;
      var _, _, report := pw.Write(data);
      ch.Send(report);
      out.WriteAt(data, offset);
    }
  }

  // ---------------------------------------------------------------------
  // The whole download

  /** A HEAD response: the transport error, if any, the length and the
      `Accept-Ranges` header. */
  datatype Head = Head(headError: Option<string>, contentLength: int, acceptRanges: string)

  /** Everything the download meets outside the program: the failures of
      the file-system calls, the HEAD response, the single-stream GET and
      one GET per segment. */
  datatype Env = Env(mkdirError: Option<string>, head: Head, openError: Option<string>,
                     truncateError: Option<string>, createError: Option<string>,
                     single: Response, segment: nat -> Response)

  predicate Responses(env: Env, threads: int) {
    Complete(env.single) && forall i: nat :: i < threads ==> Complete(env.segment(i))
  }

  /** The first failure among some outcomes, in order. */
  function FirstFailure(outcomes: seq<Outcome>): (r: Outcome)
    ensures r.Pass? <==> forall i :: 0 <= i < |outcomes| ==> outcomes[i].Pass?
    ensures r.Fail? ==> exists i :: 0 <= i < |outcomes| && outcomes[i] == r
                                  && forall j :: 0 <= j < i ==> outcomes[j].Pass?
  {
    if outcomes == [] then Pass
    else if outcomes[0].Fail? then outcomes[0]
    else
      var r := FirstFailure(outcomes[1..]);
      assert forall i :: 0 < i < |outcomes| ==> outcomes[i] == outcomes[1..][i - 1];
      r
  }

  lemma {:induction false} FirstFailureSnoc(outcomes: seq<Outcome>, o: Outcome)
    ensures FirstFailure(outcomes + [o]) == if FirstFailure(outcomes).Fail? then FirstFailure(outcomes) else o
    decreases |outcomes|
  {
    if outcomes != [] {
      assert (outcomes + [o])[1..] == outcomes[1..] + [o];
      FirstFailureSnoc(outcomes[1..], o);
    }
  }

  /** The outcomes of the first `n` segments, in segment order. */
  function SegmentOutcomes(env: Env, n: nat): (r: seq<Outcome>)
    requires forall i: nat :: i < n ==> Complete(env.segment(i))
    ensures |r| == n
  {
    if n == 0 then [] else SegmentOutcomes(env, n - 1) + [SegmentOutcome(env.segment(n - 1))]
  }

  /** The file was created and the HEAD answered, and the single stream is
      chosen. */
  predicate SingleBranch(url: string, threads: int, env: Env) {
    url != "" && env.mkdirError.None? && env.head.headError.None?
    && SelectMode(env.head.acceptRanges, env.head.contentLength, threads) == Single
  }

  /** The segmented branch is chosen and the file opened and sized. */
  predicate SegmentedBranch(url: string, threads: int, env: Env) {
    url != "" && env.mkdirError.None? && env.head.headError.None?
    && SelectMode(env.head.acceptRanges, env.head.contentLength, threads) == Segmented
    && env.openError.None? && env.truncateError.None?
  }

  /** The writes of the first `n` segments, in segment order: segment `i`'s
      bytes placed from its planned start `i * chunk`, when its response
      reached the read loop. */
  function SegmentWrites(env: Env, chunk: int, n: nat): seq<Write>
    requires forall i: nat :: i < n ==> Complete(env.segment(i))
  {
    if n == 0 then []
    else
      assert Complete(env.segment(n - 1));
      var resp := env.segment(n - 1);
      SegmentWrites(env, chunk, n - 1)
      + (if Accepted(resp) then Placed((n - 1) * chunk, resp.body, Stop(resp.body) + 1) else [])
  }

  /** The writes segment `n` adds to those of the segments before it. */
  function SegmentWritesStepped(env: Env, chunk: int, n: nat): (added: seq<Write>)
    requires forall i: nat :: i <= n ==> Complete(env.segment(i))
    ensures SegmentWrites(env, chunk, n + 1) == SegmentWrites(env, chunk, n) + added
  {
    assert Complete(env.segment(n));
    var resp := env.segment(n);
    if Accepted(resp) then Placed(n * chunk, resp.body, Stop(resp.body) + 1) else []
  }

  lemma SegmentWritesAppend(env: Env, chunk: int, n: nat, base: seq<Write>, before: seq<Write>, after: seq<Write>)
    requires forall i: nat :: i <= n ==> Complete(env.segment(i))
    requires before == base + SegmentWrites(env, chunk, n)
    requires after == before + SegmentWritesStepped(env, chunk, n)
    ensures after == base + SegmentWrites(env, chunk, n + 1)
  {
    AppendAssoc(base, SegmentWrites(env, chunk, n), SegmentWritesStepped(env, chunk, n));
  }

  /** The number of bytes the plan gives segment `i`: the chunk, or the
      rest of the file for the last segment. */
  function PlannedLength(contentLength: int, threads: int, i: int): int
    requires threads >= 1
  {
    if i < threads - 1 then contentLength / threads
    else contentLength - (threads - 1) * (contentLength / threads)
  }

  /** Segment `i`'s response reached its read loop and delivered exactly
      the bytes planned for it. */
  predicate DeliveredOne(env: Env, contentLength: int, threads: int, i: nat)
    requires threads >= 1
  {
    Accepted(env.segment(i)) && Ends(env.segment(i).body)
    && |Received(env.segment(i).body, Stop(env.segment(i).body) + 1)| == PlannedLength(contentLength, threads, i)
  }

  /** Every segment delivered the bytes planned for it. */
  predicate Delivered(env: Env, contentLength: int, threads: int)
    requires threads >= 1
  {
    forall i: nat :: i < threads ==> DeliveredOne(env, contentLength, threads, i)
  }

  lemma TilesConcat(w1: seq<Write>, w2: seq<Write>, start: int, t1: nat, t2: nat)
    requires Tiles(w1, start, t1) && Tiles(w2, start + t1, t2)
    ensures Tiles(w1 + w2, start, t1 + t2)
  {
    var w := w1 + w2;
    if w1 == [] {
      assert w == w2;
    } else if w2 == [] {
      assert w == w1;
    } else {
      assert forall i :: 0 <= i < |w1| ==> w[i] == w1[i];
      assert forall i :: |w1| <= i < |w| ==> w[i] == w2[i - |w1|];
    }
  }

  lemma DeliveredComplete(env: Env, contentLength: int, threads: int, n: nat)
    requires threads >= 1 && Delivered(env, contentLength, threads) && n <= threads
    ensures forall i: nat :: i < n ==> Complete(env.segment(i))
  {
    forall i: nat | i < n
      ensures Complete(env.segment(i))
    {
      assert DeliveredOne(env, contentLength, threads, i);
    }
  }

  lemma MulStep(n: int, c: int)
    ensures (n - 1) * c + c == n * c
  {
  }

  /** One more delivered segment extends the tiling by its bytes. */
  lemma SegmentWritesStep(env: Env, chunk: int, n: nat, t: nat, len: nat)
    requires n >= 1 && forall i: nat :: i < n ==> Complete(env.segment(i))
    requires Accepted(env.segment(n - 1)) && Ends(env.segment(n - 1).body)
    requires |Received(env.segment(n - 1).body, Stop(env.segment(n - 1).body) + 1)| == len
    requires Tiles(SegmentWrites(env, chunk, n - 1), 0, t) && t == (n - 1) * chunk
    ensures Tiles(SegmentWrites(env, chunk, n), 0, t + len)
  {
    var resp := env.segment(n - 1);
    var prev := SegmentWrites(env, chunk, n - 1);
    var w := Placed(t, resp.body, Stop(resp.body) + 1);
    assert Tiles(w, t, len) by {
      PlacedTiles(t, resp.body, Stop(resp.body) + 1);
    }
    var added := SegmentWritesStepped(env, chunk, n - 1);
    assert added == w;
    TilesConcat(prev, added, 0, t, len);
  }

  lemma {:induction false} SegmentWritesPrefix(env: Env, contentLength: int, threads: int, chunk: int, n: nat)
    requires threads >= 1 && chunk == contentLength / threads && chunk >= 0 && n <= threads - 1
    requires Delivered(env, contentLength, threads)
    ensures (forall i: nat :: i < n ==> Complete(env.segment(i))) && Tiles(SegmentWrites(env, chunk, n), 0, n * chunk)
    decreases n
  {
    DeliveredComplete(env, contentLength, threads, n);
    if n > 0 {
      SegmentWritesPrefix(env, contentLength, threads, chunk, n - 1);
      assert DeliveredOne(env, contentLength, threads, n - 1);
      MulStep(n, chunk);
      SegmentWritesStep(env, chunk, n, (n - 1) * chunk, chunk);
    }
  }

  /** When every segment delivers the bytes planned for it, the segment
      writes tile the whole file: from offset 0, each starting where the
      previous one ended, up to the content length. */
  lemma SegmentWritesTile(env: Env, contentLength: int, threads: int)
    requires contentLength >= 0 && threads >= 1
    requires Delivered(env, contentLength, threads)
    ensures (forall i: nat :: i < threads ==> Complete(env.segment(i)))
            && Tiles(SegmentWrites(env, contentLength / threads, threads), 0, contentLength)
  {
    var chunk := contentLength / threads;
    var t := (threads - 1) * chunk;
    assert 0 <= chunk && t <= contentLength by {
      ChunkFits(contentLength, threads);
    }
    var len := contentLength - t;
    DeliveredComplete(env, contentLength, threads, threads);
    SegmentWritesPrefix(env, contentLength, threads, chunk, threads - 1);
    assert DeliveredOne(env, contentLength, threads, threads - 1);
    SegmentWritesStep(env, chunk, threads, t, len);
  }

  /** `DownloadFile`. The progress channel is closed on every path. */
  method DownloadFile(url: string, threads: int, env: Env, out: Dest, ch: Channel) returns (r: Outcome)
    requires Responses(env, threads)
    modifies out, ch
    ensures ch.closed
    ensures url == "" ==> r == Fail("empty download URL") && out.writes == old(out.writes)
    ensures url != "" && env.mkdirError.Some? ==>
              r == Fail("failed to create directory: " + env.mkdirError.value) && out.writes == old(out.writes)
    ensures url != "" && env.mkdirError.None? && env.head.headError.Some? ==>
              r == Fail("HEAD request failed: " + env.head.headError.value) && out.writes == old(out.writes)
    ensures SingleBranch(url, threads, env) ==>
              (env.single.requestError.None? && env.single.status != 200 ==>
                 r == Fail("HTTP " + IntToString(env.single.status)) && out.writes == old(out.writes))
              && (env.single.requestError.None? && env.single.status == 200 && env.createError.None? ==>
                    out.writes == Placed(0, env.single.body, Stop(env.single.body) + 1)
                    && r == EndOutcome(env.single.body))
    ensures SegmentedBranch(url, threads, env) ==>
              threads >= 1 && out.size >= env.head.contentLength
              && out.writes == old(out.writes) + SegmentWrites(env, env.head.contentLength / threads, threads)
              && r == FirstFailure(SegmentOutcomes(env, threads))
  {
    if url == "" {
      ch.Close();
      return Fail("empty download URL");
    }
    if env.mkdirError.Some? {
      ch.Close();
      return Fail("failed to create directory: " + env.mkdirError.value);
    }
    if env.head.headError.Some? {
      ch.Close();
      return Fail("HEAD request failed: " + env.head.headError.value);
    }
    var contentLength := env.head.contentLength;
    if SelectMode(env.head.acceptRanges, contentLength, threads) == Single {
      r := DownloadSingle(env.single, env.createError, out, ch);
      ch.Close();
      return;
    }
    if env.openError.Some? {
      ch.Close();
      return Fail("failed to open file: " + env.openError.value);
    }
    if env.truncateError.Some? {
      ch.Close();
      return Fail("failed to truncate file: " + env.truncateError.value);
    }
    out.Truncate(contentLength);
    r := DownloadSegments(env, contentLength, threads, out, ch);
    ch.Close();
  }

  /** The segmented branch of `DownloadFile` once the file is sized: one
      download per planned segment, all sharing one byte counter; the
      first failure is the result. */
  method DownloadSegments(env: Env, contentLength: int, threads: int, out: Dest, ch: Channel)
    returns (r: Outcome)
    requires Responses(env, threads) && contentLength >= 0 && threads >= 1
    modifies out, ch
    ensures r == FirstFailure(SegmentOutcomes(env, threads))
    ensures out.writes == old(out.writes) + SegmentWrites(env, contentLength / threads, threads)
    ensures out.size >= old(out.size) && ch.closed == old(ch.closed)
  {
    var segs := PlanSegments(contentLength, threads);
    var downloaded := new Counter();
    ghost var chunk := contentLength / threads;
    r := Pass;
    var i := 0;
    while i < threads
      invariant 0 <= i <= threads
      invariant r == FirstFailure(SegmentOutcomes(env, i))
      invariant out.writes == old(out.writes) + SegmentWrites(env, chunk, i)
      invariant out.size >= old(out.size) && ch.closed == old(ch.closed)
    {
      ghost var before := out.writes;
      assert segs[i].start == i * chunk;
      var err := DownloadSegment(env.segment(i), segs[i].start, segs[i].end, contentLength, out, downloaded, ch);
      SegmentWritesAppend(env, chunk, i, old(out.writes), before, out.writes);
      FirstFailureSnoc(SegmentOutcomes(env, i), err);
      if err.Fail? && r.Pass? {
        r := err;
      }
      i := i + 1;
    }
  }
}
