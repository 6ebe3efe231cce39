/** Watching an event stream go by: the detector of the first content event, which sees the
    stream in arbitrary chunks, and the bounded copy kept for the usage record.

    Whether a payload is an event with content is a parameter. */
module SseDetector {

  import opened Wrappers

  newtype byte = x: int | 0 <= x < 256

  type Bytes = seq<byte>

  const NEWLINE: byte := 10
  const LINE_LIMIT := 0x10_0000
  const CAPTURE_LIMIT := 0x20_0000

  /** `data:` and `[DONE]`. */
  const DATA: Bytes := [100, 97, 116, 97, 58]
  const DONE: Bytes := [91, 68, 79, 78, 69, 93]

  /** The white space of `bytes.TrimSpace`, as the UTF-8 of its characters. */
  const SPACES: set<Bytes> := {
    [9], [10], [11], [12], [13], [32],
    [0xc2, 0x85], [0xc2, 0xa0], [0xe1, 0x9a, 0x80],
    [0xe2, 0x80, 0x80], [0xe2, 0x80, 0x81], [0xe2, 0x80, 0x82], [0xe2, 0x80, 0x83],
    [0xe2, 0x80, 0x84], [0xe2, 0x80, 0x85], [0xe2, 0x80, 0x86], [0xe2, 0x80, 0x87],
    [0xe2, 0x80, 0x88], [0xe2, 0x80, 0x89], [0xe2, 0x80, 0x8a],
    [0xe2, 0x80, 0xa8], [0xe2, 0x80, 0xa9], [0xe2, 0x80, 0xaf], [0xe2, 0x81, 0x9f], [0xe3, 0x80, 0x80]}

  /** How many bytes of white space character the text starts with; at most one character. */
  function SpaceAtStart(s: Bytes): (n: nat)
    ensures n <= |s| && n <= 3
  {
    if |s| >= 1 && s[..1] in SPACES then 1
    else if |s| >= 2 && s[..2] in SPACES then 2
    else if |s| >= 3 && s[..3] in SPACES then 3
    else 0
  }

  function SpaceAtEnd(s: Bytes): (n: nat)
    ensures n <= |s| && n <= 3
  {
    if |s| >= 1 && s[|s| - 1..] in SPACES then 1
    else if |s| >= 2 && s[|s| - 2..] in SPACES then 2
    else if |s| >= 3 && s[|s| - 3..] in SPACES then 3
    else 0
  }

  function TrimLeft(s: Bytes): (t: Bytes)
    ensures |t| <= |s|
    decreases |s|
  {
    if SpaceAtStart(s) == 0 then s else TrimLeft(s[SpaceAtStart(s)..])
  }

  function TrimRight(s: Bytes): (t: Bytes)
    ensures |t| <= |s|
    decreases |s|
  {
    if SpaceAtEnd(s) == 0 then s else TrimRight(s[..|s| - SpaceAtEnd(s)])
  }

  function TrimSpace(s: Bytes): (t: Bytes)
    ensures |t| <= |s|
  {
    TrimRight(TrimLeft(s))
  }

  /** What a line would have decoded, if it is a data line with anything to decode. */
  function Payload(line: Bytes): Option<Bytes> {
    var text := TrimSpace(line);
    if !(DATA <= text) then None
    else
      var payload := TrimSpace(text[|DATA|..]);
      if payload == [] || payload == DONE then None else Some(payload)
  }

  /** Says whether a payload is an event with content in some choice. */
  type Reader = Bytes -> bool

  predicate IsContentLine(r: Reader, line: Bytes) {
    Payload(line).Some? && r(Payload(line).value)
  }

  /** The index of the first newline, or the length. */
  function FirstNewline(s: Bytes): (n: nat)
    ensures n <= |s| && NEWLINE !in s[..n] && (n < |s| ==> s[n] == NEWLINE)
  {
    if s == [] || s[0] == NEWLINE then 0
    else
      var n := 1 + FirstNewline(s[1..]);
      assert s[..n] == [s[0]] + s[1..][..n - 1];
      n
  }

  /** The lines that have ended, and what follows the last newline. */
  function Ended(s: Bytes): seq<Bytes>
    decreases |s|
  {
    var n := FirstNewline(s);
    if n == |s| then [] else [s[..n]] + Ended(s[n + 1..])
  }

  function Tail(s: Bytes): (tail: Bytes)
    ensures NEWLINE !in tail
    decreases |s|
  {
    var n := FirstNewline(s);
    if n == |s| then s[..n] else Tail(s[n + 1..])
  }

  /** The stream's lines; nothing after the last newline is no line. */
  function Lines(s: Bytes): seq<Bytes> {
    Ended(s) + LastLine(Tail(s))
  }

  function LastLine(tail: Bytes): seq<Bytes> {
    if tail == [] then [] else [tail]
  }

  predicate AnyContent(r: Reader, lines: seq<Bytes>) {
    exists k :: 0 <= k < |lines| && IsContentLine(r, lines[k])
  }

  datatype Detector = Detector(buffer: Bytes, found: bool)

  /** Looks at the ended lines of a buffer in order, up to the first with content. */
  function Scan(r: Reader, buffer: Bytes): Detector
    decreases |buffer|
  {
    var n := FirstNewline(buffer);
    if n == |buffer| then Detector(buffer, false)
    else if IsContentLine(r, buffer[..n]) then Detector(buffer[n + 1..], true)
    else Scan(r, buffer[n + 1..])
  }

  function AfterObserve(r: Reader, d: Detector, chunk: Bytes): Detector {
    if d.found then d
    else
      var next := Scan(r, d.buffer + chunk);
      if !next.found && |next.buffer| > LINE_LIMIT then Detector([], false) else next
  }

  function AfterFlush(r: Reader, d: Detector): Detector {
    if d.found || d.buffer == [] then d else Detector([], IsContentLine(r, d.buffer))
  }

  class SseContentDetector {
    const reader: Reader
    var buffer: Bytes
    var found: bool

    constructor (reader: Reader)
      ensures this.reader == reader && Now() == Detector([], false)
    {
      this.reader := reader;
      buffer, found := [], false;
    }

    function Now(): Detector
      reads this
    {
      Detector(buffer, found)
    }

    method Observe(chunk: Bytes) returns (hit: bool)
      modifies this
      ensures Now() == AfterObserve(reader, old(Now()), chunk)
      ensures (hit <==> found && !old(found)) && (old(found) ==> found)
    {
      hide IsContentLine;
      if found {
        return false;
      }
      buffer := buffer + chunk;
      ghost var all := buffer;
      while true
        invariant !found && Scan(reader, buffer) == Scan(reader, all)
        decreases |buffer|
      {
        var newline := IndexOfNewline(buffer);
        if newline < 0 {
          break;
        }
        var line := buffer[..newline];
        buffer := buffer[newline + 1..];
        hit := ObserveLine(line);
        if hit {
          return true;
        }
      }
      if |buffer| > LINE_LIMIT {
        buffer := [];
      }
      return false;
    }

    method Flush() returns (hit: bool)
      modifies this
      ensures Now() == AfterFlush(reader, old(Now()))
      ensures (hit <==> found && !old(found)) && (old(found) ==> found)
    {
      hide IsContentLine;
      if found || |buffer| == 0 {
        return false;
      }
      var line := buffer;
      buffer := [];
      hit := ObserveLine(line);
    }

    method ObserveLine(line: Bytes) returns (hit: bool)
      modifies this`found
      ensures hit == IsContentLine(reader, line)
      ensures found == (old(found) || hit)
    {
      hide TrimSpace;
      var text := TrimSpace(line);
      if !(DATA <= text) {
        return false;
      }
      var payload := TrimSpace(text[|DATA|..]);
      if |payload| == 0 || payload == DONE {
        return false;
      }
      hit := reader(payload);
      if hit {
        found := true;
      }
    }
  }

  method IndexOfNewline(s: Bytes) returns (i: int)
    ensures i == if FirstNewline(s) == |s| then -1 else FirstNewline(s)
  {
    i := 0;
    while i < |s|
      invariant 0 <= i <= |s|
      invariant FirstNewline(s) == i + FirstNewline(s[i..])
    {
      assert s[i..][1..] == s[i + 1..];
      if s[i] == NEWLINE {
        return;
      }
      i := i + 1;
    }
    return -1;
  }

  // ------------------------------------------------------------------------------------
  // The bounded copy.
  // ------------------------------------------------------------------------------------

  function Take(s: Bytes, limit: nat): Bytes {
    if |s| <= limit then s else s[..limit]
  }

  class LimitedCapture {
    const limit: nat
    var buf: Bytes

    /** Everything written so far. */
    ghost var written: Bytes

    constructor (limit: nat)
      ensures this.limit == limit && written == [] && Valid()
    {
      this.limit := limit;
      buf, written := [], [];
    }

    ghost predicate Valid()
      reads this
    {
      buf == Take(written, limit)
    }

    /** Claims to have written all of it, and keeps what there is room for. */
    method Write(p: Bytes) returns (n: nat)
      requires Valid()
      modifies this
      ensures Valid() && written == old(written) + p && n == |p|
    {
      var remaining := limit - |buf|;
      if remaining > 0 {
        if remaining > |p| {
          remaining := |p|;
        }
        buf := buf + p[..remaining];
      }
      written := written + p;
      n := |p|;
    }
  }

  // ------------------------------------------------------------------------------------
  // Copying a response that is an event stream.
  // ------------------------------------------------------------------------------------

  datatype End = More | Eof | Broken

  /** One read of the upstream body, and whether the client took the bytes. */
  datatype Read = Read(chunk: Bytes, taken: bool, end: End)

  predicate Stops(r: Read) {
    r.end != More || (r.chunk != [] && !r.taken)
  }

  /** The bytes read, cut as they came, up to the first read that ends the copy. */
  function Chunks(body: seq<Read>): seq<Bytes> {
    if body == [] then []
    else
      (if body[0].chunk == [] then [] else [body[0].chunk])
        + (if Stops(body[0]) then [] else Chunks(body[1..]))
  }

  function Concat(chunks: seq<Bytes>): Bytes {
    if chunks == [] then [] else chunks[0] + Concat(chunks[1..])
  }

  const FRESH := Detector([], false)

  function Observed(r: Reader, d: Detector, chunks: seq<Bytes>): Detector
    decreases |chunks|
  {
    if chunks == [] then d else Observed(r, AfterObserve(r, d, chunks[0]), chunks[1..])
  }

  /** Whether a stream cut into these chunks is reported to have content. */
  predicate Reported(r: Reader, chunks: seq<Bytes>) {
    AfterFlush(r, Observed(r, FRESH, chunks)).found
  }

  /** What reaches the client: every chunk but one that could not be written. */
  function Sent(body: seq<Read>): Bytes {
    if body == [] then []
    else
      (if body[0].taken then body[0].chunk else [])
        + (if Stops(body[0]) then [] else Sent(body[1..]))
  }

  /** Whether the copy ended in an error, of the client or of the upstream. */
  predicate Fails(body: seq<Read>) {
    && body != []
    && if Stops(body[0]) then body[0].end == Broken || (body[0].chunk != [] && !body[0].taken)
       else Fails(body[1..])
  }

  lemma {:induction false} ObservedAppend(r: Reader, d: Detector, chunks: seq<Bytes>, chunk: Bytes)
    ensures Observed(r, d, chunks + [chunk]) == AfterObserve(r, Observed(r, d, chunks), chunk)
    decreases |chunks|
  {
    if chunks != [] {
      assert (chunks + [chunk])[1..] == chunks[1..] + [chunk];
      ObservedAppend(r, AfterObserve(r, d, chunks[0]), chunks[1..], chunk);
    } else {
      assert [chunk][1..] == [];
    }
  }

  lemma {:induction false} ConcatAppend(chunks: seq<Bytes>, chunk: Bytes)
    ensures Concat(chunks + [chunk]) == Concat(chunks) + chunk
  {
    if chunks != [] {
      assert (chunks + [chunk])[1..] == chunks[1..] + [chunk];
      ConcatAppend(chunks[1..], chunk);
    } else {
      assert [chunk][1..] == [] && chunk + [] == chunk;
    }
  }

  /** How far a copy has come: after i reads, or stopped. */
  ghost predicate Progress(
      body: seq<Read>, i: nat, more: bool, seen: seq<Bytes>, sent: Bytes, failed: bool)
  {
    && i <= |body|
    && (more ==> !failed)
    && Chunks(body) == (if more then seen + Chunks(body[i..]) else seen)
    && Sent(body) == (if more then sent + Sent(body[i..]) else sent)
    && Fails(body) == (if more then Fails(body[i..]) else failed)
  }

  /** One read: what it brought is seen, and sent if the client takes it. */
  lemma ProgressStep(body: seq<Read>, i: nat, seen: seq<Bytes>, sent: Bytes)
    requires i < |body| && Progress(body, i, true, seen, sent, false)
    ensures var read := body[i];
            Progress(body, i + 1, !Stops(read),
              seen + (if read.chunk == [] then [] else [read.chunk]),
              sent + (if read.taken then read.chunk else []),
              Stops(read) && (read.end == Broken || (read.chunk != [] && !read.taken)))
  {
    assert body[i..][1..] == body[i + 1..];
  }

  lemma ProgressEnds(body: seq<Read>, more: bool, i: nat, seen: seq<Bytes>, sent: Bytes, failed: bool)
    requires Progress(body, i, more, seen, sent, failed) && (!more || i == |body|)
    ensures seen == Chunks(body) && sent == Sent(body) && failed == Fails(body)
  {
    assert body[|body|..] == [] && seen + [] == seen && sent + [] == sent;
  }

  lemma ProgressStarts(body: seq<Read>)
    ensures Progress(body, 0, true, [], [], false)
  {
    assert body[0..] == body;
  }

  /** The event-stream branch of `copyResponse`; `marks` counts the first-token reports, which
      an error reply never makes. */
  method CopyEventStream(reader: Reader, status: int, body: seq<Read>)
    returns (sent: Bytes, captured: Bytes, marks: nat, failed: bool)
    ensures sent == Sent(body) && failed == Fails(body)
    ensures captured == Take(Concat(Chunks(body)), CAPTURE_LIMIT)
    ensures marks == if status < 400 && Reported(reader, Chunks(body)) then 1 else 0
  {
    hide AfterObserve, AfterFlush, Take, Chunks, Sent, Fails, Concat, Observed, Progress;
    ProgressStarts(body);
    NothingSeen(reader);
    var capture := new LimitedCapture(CAPTURE_LIMIT);
    var detector := new SseContentDetector(reader);
    ghost var seen: seq<Bytes> := [];
    sent, marks, failed := [], 0, false;
    var i := 0;
    var more := true;
    while more && i < |body|
      invariant 0 <= i <= |body| && (more ==> !failed)
      invariant Progress(body, i, more, seen, sent, failed)
      invariant capture.Valid() && fresh(capture) && fresh(detector)
      invariant capture.limit == CAPTURE_LIMIT && detector.reader == reader
      invariant detector.Now() == Observed(reader, FRESH, seen)
      invariant marks == if status < 400 && detector.found then 1 else 0
      invariant capture.written == Concat(seen)
      decreases |body| - i, more
    {
      ProgressStep(body, i, seen, sent);
      var read := body[i];
      i := i + 1;
      if |read.chunk| > 0 {
        var n := capture.Write(read.chunk);
        ConcatAppend(seen, read.chunk);
        ObservedAppend(reader, FRESH, seen, read.chunk);
        seen := seen + [read.chunk];
        var hit := detector.Observe(read.chunk);
        if hit && status < 400 {
          marks := marks + 1;
        }
        if !read.taken {
          assert sent + [] == sent;
          failed, more := true, false;
          continue;
        }
        sent := sent + read.chunk;
      } else {
        assert seen + [] == seen && read.chunk == [] && sent + [] == sent;
      }
      if read.end == Eof {
        more := false;
      } else if read.end == Broken {
        failed, more := true, false;
      }
    }
    ProgressEnds(body, more, i, seen, sent, failed);
    var hit := detector.Flush();
    if hit && status < 400 {
      marks := marks + 1;
    }
    captured := capture.buf;
  }

  lemma NothingSeen(r: Reader)
    ensures Observed(r, FRESH, []) == FRESH && Concat([]) == []
  {
  }
}
