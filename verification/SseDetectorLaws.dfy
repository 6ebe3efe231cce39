/** How a stream is cut into chunks does not matter to the content detector as long as no line
    is longer than a mebibyte, and exactly when it does matter for longer lines. */
module SseDetectorLaws {

  import opened SseDetector
  import opened Wrappers

  const MEBIBYTE := 1_048_576

  predicate LinesFit(s: Bytes) {
    forall k | 0 <= k < |Lines(s)| :: |Lines(s)[k]| <= MEBIBYTE
  }

  // ------------------------------------------------------------------------------------
  // Lines of a stream that grows.
  // ------------------------------------------------------------------------------------

  lemma {:induction false} NewlineIsFirst(s: Bytes, n: nat)
    requires n < |s| && s[n] == NEWLINE && NEWLINE !in s[..n]
    ensures FirstNewline(s) == n
  {
    if n > 0 {
      assert s[..n] == [s[0]] + s[1..][..n - 1];
      NewlineIsFirst(s[1..], n - 1);
    }
  }

  lemma {:induction false} NewlineIsLater(a: Bytes, b: Bytes)
    requires NEWLINE !in a
    ensures FirstNewline(a + b) >= |a|
  {
    if a != [] {
      assert (a + b)[1..] == a[1..] + b;
      NewlineIsLater(a[1..], b);
    }
  }

  lemma {:induction false} LinesOfConcat(s: Bytes, t: Bytes)
    ensures Ended(s + t) == Ended(s) + Ended(Tail(s) + t)
    ensures Tail(s + t) == Tail(Tail(s) + t)
    decreases |s|
  {
    hide Ended, Tail, FirstNewline;
    var n := FirstNewline(s);
    if n == |s| {
      assert s[..n] == s;
      NoNewline(s);
      assert [] + Ended(s + t) == Ended(s + t);
    } else {
      assert (s + t)[..n] == s[..n];
      NewlineIsFirst(s + t, n);
      assert (s + t)[n + 1..] == s[n + 1..] + t;
      LinesFrom(s);
      LinesFrom(s + t);
      LinesOfConcat(s[n + 1..], t);
    }
  }

  lemma NoNewline(s: Bytes)
    requires NEWLINE !in s
    ensures FirstNewline(s) == |s| && Ended(s) == [] && Tail(s) == s
  {
    assert s[..|s|] == s;
  }

  /** What a stream ends with is the beginning of a line of the longer stream. */
  lemma TailFits(s: Bytes, t: Bytes)
    requires LinesFit(s + t)
    ensures |Tail(s)| <= MEBIBYTE
  {
    LinesOfConcat(s, t);
    var u := Tail(s) + t;
    var n := FirstNewline(u);
    var lines := Lines(s + t);
    NewlineIsLater(Tail(s), t);
    if n < |u| {
      assert Ended(s + t)[|Ended(s)|] == u[..n];
      assert lines[|Ended(s)|] == u[..n];
    } else if u != [] {
      NoNewline(u);
      assert lines[|lines| - 1] == u;
    }
  }

  lemma PrefixFits(s: Bytes, t: Bytes)
    requires LinesFit(s + t)
    ensures LinesFit(s)
  {
    TailFits(s, t);
    LinesOfConcat(s, t);
    forall k | 0 <= k < |Lines(s)|
      ensures |Lines(s)[k]| <= MEBIBYTE
    {
      if k < |Ended(s)| {
        assert Lines(s + t)[k] == Lines(s)[k];
      }
    }
  }

  // ------------------------------------------------------------------------------------
  // What the detector knows.
  // ------------------------------------------------------------------------------------

  /** One line of a buffer, as each of the functions on it sees it. */
  lemma FirstLine(r: Reader, buffer: Bytes)
    ensures var n := FirstNewline(buffer);
            if n == |buffer| then
              Scan(r, buffer) == Detector(buffer, false) && Ended(buffer) == [] && Tail(buffer) == buffer
            else
              var line, rest := buffer[..n], buffer[n + 1..];
              && Ended(buffer) == [line] + Ended(rest)
              && Tail(buffer) == Tail(rest)
              && Scan(r, buffer) == if IsContentLine(r, line) then Detector(rest, true) else Scan(r, rest)
  {
    assert buffer[..|buffer|] == buffer;
  }

  lemma {:induction false} ScanFinds(r: Reader, buffer: Bytes)
    ensures Scan(r, buffer).found <==> AnyContent(r, Ended(buffer))
    ensures !Scan(r, buffer).found ==> Scan(r, buffer).buffer == Tail(buffer)
    decreases |buffer|
  {
    hide IsContentLine, AnyContent, Scan, Ended, Tail;
    FirstLine(r, buffer);
    NoLinesNoContent(r);
    var n := FirstNewline(buffer);
    if n < |buffer| {
      var rest := buffer[n + 1..];
      ScanFinds(r, rest);
      AnyContentCons(r, buffer[..n], Ended(rest));
    }
  }

  lemma NoLinesNoContent(r: Reader)
    ensures !AnyContent(r, [])
  {
  }

  lemma AnyContentCons(r: Reader, line: Bytes, lines: seq<Bytes>)
    ensures AnyContent(r, [line] + lines) <==> IsContentLine(r, line) || AnyContent(r, lines)
  {
    AnyContentConcat(r, [line], lines);
    if IsContentLine(r, line) {
      assert IsContentLine(r, [line][0]);
    }
  }

  lemma AnyContentConcat(r: Reader, a: seq<Bytes>, b: seq<Bytes>)
    ensures AnyContent(r, a + b) <==> AnyContent(r, a) || AnyContent(r, b)
  {
    if AnyContent(r, a) {
      var k :| 0 <= k < |a| && IsContentLine(r, a[k]);
      assert IsContentLine(r, (a + b)[k]);
    }
    if AnyContent(r, b) {
      var k :| 0 <= k < |b| && IsContentLine(r, b[k]);
      assert IsContentLine(r, (a + b)[|a| + k]);
    }
  }

  /** Nothing was forgotten: the detector has found the content of the lines that ended, or
      holds what follows them. */
  ghost predicate Knows(r: Reader, d: Detector, s: Bytes) {
    && (d.found <==> AnyContent(r, Ended(s)))
    && (!d.found ==> d.buffer == Tail(s))
  }

  lemma ObserveKnows(r: Reader, d: Detector, s: Bytes, chunk: Bytes)
    requires Knows(r, d, s) && |Tail(s + chunk)| <= MEBIBYTE
    ensures Knows(r, AfterObserve(r, d, chunk), s + chunk)
  {
    LinesOfConcat(s, chunk);
    AnyContentConcat(r, Ended(s), Ended(Tail(s) + chunk));
    ScanFinds(r, Tail(s) + chunk);
  }

  lemma {:induction false} ObservedKnows(r: Reader, d: Detector, s: Bytes, chunks: seq<Bytes>)
    requires Knows(r, d, s) && LinesFit(s + Concat(chunks))
    ensures Knows(r, Observed(r, d, chunks), s + Concat(chunks))
    decreases |chunks|
  {
    if chunks == [] {
      assert s + [] == s;
    } else {
      var next := s + chunks[0];
      assert s + Concat(chunks) == next + Concat(chunks[1..]);
      TailFits(next, Concat(chunks[1..]));
      ObserveKnows(r, d, s, chunks[0]);
      ObservedKnows(r, AfterObserve(r, d, chunks[0]), next, chunks[1..]);
    }
  }

  /** However a stream is cut, it is reported exactly when one of its lines has content. */
  lemma ReportedExactlyForContent(r: Reader, chunks: seq<Bytes>)
    requires LinesFit(Concat(chunks))
    ensures Reported(r, chunks) <==> AnyContent(r, Lines(Concat(chunks)))
  {
    var s := Concat(chunks);
    assert [] + s == s;
    assert Knows(r, FRESH, []);
    ObservedKnows(r, FRESH, [], chunks);
    AnyContentConcat(r, Ended(s), [Tail(s)]);
    assert AnyContent(r, [Tail(s)]) <==> IsContentLine(r, Tail(s)) by {
      AnyContentCons(r, Tail(s), []);
      assert [Tail(s)] + [] == [Tail(s)];
    }
    assert Ended(s) + [] == Ended(s);
  }

  /** And it is reported as soon as the newline of the first such line has arrived. */
  lemma ReportedAsSoonAsItEnds(r: Reader, chunks: seq<Bytes>, k: nat)
    requires k <= |chunks| && LinesFit(Concat(chunks))
    ensures Observed(r, FRESH, chunks[..k]).found <==> AnyContent(r, Ended(Concat(chunks[..k])))
  {
    ConcatSplits(chunks, k);
    PrefixFits(Concat(chunks[..k]), Concat(chunks[k..]));
    assert [] + Concat(chunks[..k]) == Concat(chunks[..k]);
    assert Knows(r, FRESH, []);
    ObservedKnows(r, FRESH, [], chunks[..k]);
  }

  lemma {:induction false} ConcatSplits(chunks: seq<Bytes>, k: nat)
    requires k <= |chunks|
    ensures Concat(chunks) == Concat(chunks[..k]) + Concat(chunks[k..])
  {
    if k > 0 {
      ConcatSplits(chunks[1..], k - 1);
      assert chunks[..k][1..] == chunks[1..][..k - 1];
      assert chunks[1..][k - 1..] == chunks[k..];
    } else {
      assert chunks[0..] == chunks;
    }
  }

  /** Whether observing chunk k answers yes. */
  predicate Answers(r: Reader, chunks: seq<Bytes>, k: nat)
    requires k < |chunks|
  {
    Observed(r, FRESH, chunks[..k + 1]).found && !Observed(r, FRESH, chunks[..k]).found
  }

  /** At most one chunk is answered with yes, whatever the lengths of the lines. */
  lemma AnsweredAtMostOnce(r: Reader, chunks: seq<Bytes>, j: nat, k: nat)
    requires j < k < |chunks| && Answers(r, chunks, j)
    ensures !Answers(r, chunks, k)
  {
    OnceFound(r, chunks, j + 1, k);
  }

  lemma {:induction false} OnceFound(r: Reader, chunks: seq<Bytes>, j: nat, k: nat)
    requires j <= k <= |chunks| && Observed(r, FRESH, chunks[..j]).found
    ensures Observed(r, FRESH, chunks[..k]).found
  {
    hide AfterObserve, Observed;
    if j < k {
      OnceFound(r, chunks, j, k - 1);
      assert chunks[..k] == chunks[..k - 1] + [chunks[k - 1]];
      ObservedAppend(r, FRESH, chunks[..k - 1], chunks[k - 1]);
      FoundIsKept(r, Observed(r, FRESH, chunks[..k - 1]), chunks[k - 1]);
    }
  }

  // ------------------------------------------------------------------------------------
  // Longer lines.
  // ------------------------------------------------------------------------------------

  lemma EmptyLineIsNoData()
    ensures Payload([]) == None
  {
    assert TrimLeft([]) == [] && TrimRight([]) == [];
  }

  lemma ObservedOne(r: Reader, d: Detector, chunk: Bytes)
    ensures Observed(r, d, [chunk]) == AfterObserve(r, d, chunk)
  {
    assert [chunk][1..] == [];
  }

  /** One chunk that ends a line begun before: what was kept of the beginning and the chunk up
      to its newline are looked at as a line. */
  lemma EndsLine(r: Reader, d: Detector, rest: Bytes)
    requires !d.found && NEWLINE !in d.buffer && NEWLINE !in rest
    ensures AfterObserve(r, d, rest + [NEWLINE]) == Detector([], IsContentLine(r, d.buffer + rest))
  {
    hide IsContentLine;
    var n := |d.buffer| + |rest|;
    var all := d.buffer + (rest + [NEWLINE]);
    assert all[..n] == d.buffer + rest && all[n + 1..] == [];
    NewlineIsFirst(all, n);
    NoNewline([]);
    FirstLine(r, all);
    FirstLine(r, []);
  }

  /** One chunk within a line. */
  lemma WithinLine(r: Reader, d: Detector, chunk: Bytes)
    requires !d.found && NEWLINE !in d.buffer && NEWLINE !in chunk
    ensures AfterObserve(r, d, chunk) ==
            if |d.buffer| + |chunk| > MEBIBYTE then FRESH else Detector(d.buffer + chunk, false)
  {
    hide IsContentLine;
    NoNewline(d.buffer + chunk);
    FirstLine(r, d.buffer + chunk);
  }

  /** A content line that arrives before its newline is lost exactly when it is too long;
      arriving together with its newline, it is found at any length. */
  lemma LongLinesDependOnTheCut(r: Reader, line: Bytes)
    requires NEWLINE !in line && IsContentLine(r, line)
    ensures Reported(r, [line + [NEWLINE]])
    ensures Reported(r, [line, [NEWLINE]]) <==> |line| <= MEBIBYTE
  {
    hide TrimSpace;
    EmptyLineIsNoData();
    assert !IsContentLine(r, []) && line != [];
    assert [] + line == line && line + [] == line && [] + [NEWLINE] == [NEWLINE];
    hide IsContentLine, Payload, AfterObserve, Observed, AfterFlush;
    EndsLine(r, FRESH, line);
    ObservedOne(r, FRESH, line + [NEWLINE]);
    WithinLine(r, FRESH, line);
    EndsLine(r, AfterObserve(r, FRESH, line), []);
    assert [line, [NEWLINE]] == [line] + [[NEWLINE]];
    ObservedAppend(r, FRESH, [line], [NEWLINE]);
    ObservedOne(r, FRESH, line);
    NothingToFlush(r, true);
    NothingToFlush(r, false);
  }

  lemma NothingToFlush(r: Reader, found: bool)
    ensures AfterFlush(r, Detector([], found)) == Detector([], found)
  {
  }

  // ------------------------------------------------------------------------------------
  // What a cut can make of a long line.
  // ------------------------------------------------------------------------------------

  /** A beginning of more than a mebibyte can be dropped. */
  predicate CanBeDropped(n: int) {
    n == 0 || n > MEBIBYTE
  }

  /** Line k of a stream, less its first n bytes, is looked at under some cut. The last line,
      if no newline ends it, is looked at only if what is left of it is short. */
  predicate CanBeLookedAt(s: Bytes, k: nat, n: nat)
    requires k < |Lines(s)|
  {
    && n <= |Lines(s)[k]| && CanBeDropped(n)
    && (n == 0 || k < |Ended(s)| || |Lines(s)[k]| - n <= MEBIBYTE)
  }

  /** Some short line has this payload: it is found under every cut. */
  ghost predicate AlwaysSeen(s: Bytes, payload: Bytes) {
    exists k :: 0 <= k < |Lines(s)| && |Lines(s)[k]| <= MEBIBYTE && Payload(Lines(s)[k]) == Some(payload)
  }

  /** Whatever data a long line holds, as a whole or less a beginning that can be dropped, some
      short line holds as well. */
  ghost predicate SafeToCut(s: Bytes) {
    forall k, n: nat | 0 <= k < |Lines(s)| && |Lines(s)[k]| > MEBIBYTE && CanBeLookedAt(s, k, n) ::
      Payload(Lines(s)[k][n..]).Some? ==> AlwaysSeen(s, Payload(Lines(s)[k][n..]).value)
  }

  /** A short line has content. */
  ghost predicate ShortContent(r: Reader, lines: seq<Bytes>) {
    exists k :: 0 <= k < |lines| && |lines[k]| <= MEBIBYTE && IsContentLine(r, lines[k])
  }

  /** Some line, less a beginning that can be dropped, has content. */
  ghost predicate PieceContent(r: Reader, lines: seq<Bytes>) {
    exists k, n: nat :: 0 <= k < |lines| && n <= |lines[k]| && CanBeDropped(n) && IsContentLine(r, lines[k][n..])
  }

  lemma ShortContentConcat(r: Reader, a: seq<Bytes>, b: seq<Bytes>)
    ensures ShortContent(r, a + b) <==> ShortContent(r, a) || ShortContent(r, b)
  {
    hide IsContentLine;
    var all := a + b;
    if ShortContent(r, a) {
      var k :| 0 <= k < |a| && |a[k]| <= MEBIBYTE && IsContentLine(r, a[k]);
      assert all[k] == a[k];
    }
    if ShortContent(r, b) {
      var k :| 0 <= k < |b| && |b[k]| <= MEBIBYTE && IsContentLine(r, b[k]);
      assert all[|a| + k] == b[k];
    }
    if ShortContent(r, all) {
      var k :| 0 <= k < |all| && |all[k]| <= MEBIBYTE && IsContentLine(r, all[k]);
      assert all[k] == if k < |a| then a[k] else b[k - |a|];
    }
  }

  lemma PieceContentGrows(r: Reader, a: seq<Bytes>, b: seq<Bytes>)
    requires PieceContent(r, a) || PieceContent(r, b)
    ensures PieceContent(r, a + b)
  {
    hide IsContentLine;
    var all := a + b;
    if PieceContent(r, a) {
      var k, n: nat :| 0 <= k < |a| && n <= |a[k]| && CanBeDropped(n) && IsContentLine(r, a[k][n..]);
      assert all[k] == a[k];
    } else {
      var k, n: nat :| 0 <= k < |b| && n <= |b[k]| && CanBeDropped(n) && IsContentLine(r, b[k][n..]);
      assert all[|a| + k] == b[k];
    }
  }

  /** What the detector holds under any cut: if it has found content, then in a line less a
      beginning that can be dropped; if not, then no short line had any, and it holds what
      follows the last newline, less such a beginning. */
  ghost predicate Keeps(r: Reader, d: Detector, s: Bytes) {
    && (d.found ==> PieceContent(r, Ended(s)))
    && (!d.found ==> !ShortContent(r, Ended(s)) && exists n: nat :: HoldsFrom(d, s, n))
  }

  predicate HoldsFrom(d: Detector, s: Bytes, n: nat) {
    n <= |Tail(s)| && CanBeDropped(n) && d.buffer == Tail(s)[n..] && |d.buffer| <= MEBIBYTE
  }

  /** The lines of a text that lost a beginning of its first line. */
  lemma LinesOfRest(u: Bytes, n: nat)
    requires n <= |u| && NEWLINE !in u[..n]
    ensures Ended(u) == [] ==> Ended(u[n..]) == [] && Tail(u) == u && Tail(u[n..]) == u[n..]
    ensures Ended(u) != [] ==>
              && n <= |Ended(u)[0]|
              && Ended(u[n..]) == [Ended(u)[0][n..]] + Ended(u)[1..]
              && Tail(u[n..]) == Tail(u)
  {
    hide Ended, Tail, FirstNewline;
    var m := FirstNewline(u);
    SliceOfSlice(u, n, m);
    NewlineIsLater(u[..n], u[n..]);
    if m == |u| {
      NoNewlineInSlice(u, n, m);
      NoNewline(u[n..]);
      NoNewline(u);
    } else {
      NoNewlineInSlice(u[..m], n, m);
      NewlineIsFirst(u[n..], m - n);
      LinesFrom(u);
      LinesFrom(u[n..]);
    }
  }

  lemma SliceOfSlice(u: Bytes, n: nat, m: nat)
    requires n <= |u| && m <= |u|
    ensures u[..n] + u[n..] == u && (m == |u| ==> u[..m] == u)
    ensures n <= m ==> u[n..][..m - n] == u[..m][n..]
    ensures n <= m < |u| ==> u[n..][m - n] == u[m] && u[n..][m - n + 1..] == u[m + 1..]
  {
  }

  lemma LinesFrom(s: Bytes)
    requires FirstNewline(s) < |s|
    ensures var n := FirstNewline(s);
            Ended(s) == [s[..n]] + Ended(s[n + 1..]) && Tail(s) == Tail(s[n + 1..])
  {
    hide Ended, Tail, Scan, FirstNewline, IsContentLine;
    FirstLine(x => false, s);
  }

  lemma NoNewlineInSlice(u: Bytes, n: nat, m: nat)
    requires NEWLINE !in u && n <= m == |u|
    ensures NEWLINE !in u[n..]
  {
  }

  /** What looking at the lines of such a text says about the whole lines. */
  lemma LookedAt(r: Reader, u: Bytes, n: nat)
    requires n <= |u| && NEWLINE !in u[..n] && CanBeDropped(n)
    ensures AnyContent(r, Ended(u[n..])) ==> PieceContent(r, Ended(u))
    ensures ShortContent(r, Ended(u)) ==> AnyContent(r, Ended(u[n..]))
  {
    hide IsContentLine, AnyContent, ShortContent, PieceContent, Ended, Tail;
    LinesOfRest(u, n);
    if Ended(u) == [] {
      LookedAtNothing(r);
    } else {
      LookedAtLines(r, Ended(u), Ended(u[n..]), n);
    }
  }

  lemma LookedAtNothing(r: Reader)
    ensures !AnyContent(r, []) && !ShortContent(r, [])
  {
  }

  lemma LookedAtLines(r: Reader, whole: seq<Bytes>, rest: seq<Bytes>, n: nat)
    requires whole != [] && n <= |whole[0]| && CanBeDropped(n)
    requires rest == [whole[0][n..]] + whole[1..]
    ensures AnyContent(r, rest) ==> PieceContent(r, whole)
    ensures ShortContent(r, whole) ==> AnyContent(r, rest)
  {
    hide IsContentLine;
    if AnyContent(r, rest) {
      var k :| 0 <= k < |rest| && IsContentLine(r, rest[k]);
      var m := if k == 0 then n else 0;
      assert rest[k] == whole[k][m..];
      assert CanBeDropped(m) && IsContentLine(r, whole[k][m..]);
    }
    if ShortContent(r, whole) {
      var k :| 0 <= k < |whole| && |whole[k]| <= MEBIBYTE && IsContentLine(r, whole[k]);
      assert rest[k] == whole[k];
    }
  }

  lemma ObserveKeeps(r: Reader, d: Detector, s: Bytes, chunk: Bytes)
    requires Keeps(r, d, s)
    ensures Keeps(r, AfterObserve(r, d, chunk), s + chunk)
  {
    hide IsContentLine, ShortContent, PieceContent, AnyContent, Scan, Ended, Tail, FirstNewline, CanBeDropped;
    LinesOfConcat(s, chunk);
    var u := Tail(s) + chunk;
    if d.found {
      PieceContentGrows(r, Ended(s), Ended(u));
    } else {
      var n: nat :| HoldsFrom(d, s, n);
      assert d.buffer + chunk == u[n..];
      assert u[..n] == Tail(s)[..n];
      LookedAt(r, u, n);
      ScanFinds(r, u[n..]);
      LinesOfRest(u, n);
      ShortContentConcat(r, Ended(s), Ended(u));
      if Scan(r, u[n..]).found {
        PieceContentGrows(r, Ended(s), Ended(u));
      } else {
        BufferFrom(AfterObserve(r, d, chunk), s + chunk, Tail(u[n..]), if Ended(u) == [] then n else 0);
      }
    }
  }

  lemma BufferFrom(d: Detector, s: Bytes, rest: Bytes, n: nat)
    requires n <= |Tail(s)| && CanBeDropped(n) && rest == Tail(s)[n..]
    requires d.buffer == if |rest| > MEBIBYTE then [] else rest
    ensures exists m: nat :: HoldsFrom(d, s, m)
  {
    assert HoldsFrom(d, s, if |rest| > MEBIBYTE then |Tail(s)| else n);
  }

  lemma {:induction false} ObservedKeeps(r: Reader, d: Detector, s: Bytes, chunks: seq<Bytes>)
    requires Keeps(r, d, s)
    ensures Keeps(r, Observed(r, d, chunks), s + Concat(chunks))
    decreases |chunks|
  {
    hide Keeps, AfterObserve;
    if chunks == [] {
      assert s + [] == s;
    } else {
      assert s + Concat(chunks) == s + chunks[0] + Concat(chunks[1..]);
      ObserveKeeps(r, d, s, chunks[0]);
      ObservedKeeps(r, AfterObserve(r, d, chunks[0]), s + chunks[0], chunks[1..]);
    }
  }

  /** In a stream that is safe to cut, whatever can be looked at is in a short line too. */
  lemma PiecesAreShort(r: Reader, s: Bytes, k: nat, n: nat)
    requires SafeToCut(s) && k < |Lines(s)| && CanBeLookedAt(s, k, n) && IsContentLine(r, Lines(s)[k][n..])
    ensures ShortContent(r, Lines(s))
  {
    var line := Lines(s)[k];
    if |line| <= MEBIBYTE {
      assert n == 0 && line[0..] == line;
    } else {
      assert AlwaysSeen(s, Payload(line[n..]).value);
    }
  }

  lemma ContentIsShort(r: Reader, s: Bytes)
    requires SafeToCut(s)
    ensures AnyContent(r, Lines(s)) <==> ShortContent(r, Lines(s))
    ensures PieceContent(r, Ended(s)) ==> ShortContent(r, Lines(s))
  {
    hide IsContentLine, SafeToCut;
    var lines := Lines(s);
    if AnyContent(r, lines) {
      var k :| 0 <= k < |lines| && IsContentLine(r, lines[k]);
      assert lines[k][0..] == lines[k];
      PiecesAreShort(r, s, k, 0);
    }
    if PieceContent(r, Ended(s)) {
      var k, n: nat :| 0 <= k < |Ended(s)| && n <= |Ended(s)[k]| && CanBeDropped(n)
                       && IsContentLine(r, Ended(s)[k][n..]);
      assert lines[k] == Ended(s)[k];
      PiecesAreShort(r, s, k, n);
    }
  }

  lemma FreshKeeps(r: Reader)
    ensures Keeps(r, FRESH, [])
  {
    assert HoldsFrom(FRESH, [], 0);
  }

  /** Then every cut is reported exactly when a line has content. */
  lemma SafeCutsAgree(r: Reader, chunks: seq<Bytes>)
    requires SafeToCut(Concat(chunks))
    ensures Reported(r, chunks) <==> AnyContent(r, Lines(Concat(chunks)))
  {
    hide SafeToCut, AnyContent, ShortContent, PieceContent, Lines, Ended, Tail, HoldsFrom, Observed, Concat, AfterFlush;
    var s := Concat(chunks);
    var d := Observed(r, FRESH, chunks);
    FreshKeeps(r);
    ObservedKeeps(r, FRESH, [], chunks);
    assert [] + s == s;
    ContentIsShort(r, s);
    if d.found {
      FlushKeepsFound(r, d);
    } else {
      var n: nat :| HoldsFrom(d, s, n);
      LastPiece(r, d, s, n);
    }
  }

  lemma FlushKeepsFound(r: Reader, d: Detector)
    requires d.found
    ensures AfterFlush(r, d).found
  {
  }

  lemma LastPiece(r: Reader, d: Detector, s: Bytes, n: nat)
    requires SafeToCut(s) && !d.found && HoldsFrom(d, s, n) && !ShortContent(r, Ended(s))
    ensures AfterFlush(r, d).found <==> ShortContent(r, Lines(s))
  {
    hide IsContentLine, SafeToCut;
    var tail := Tail(s);
    var last := LastLine(tail);
    assert Lines(s) == Ended(s) + last;
    ShortContentConcat(r, Ended(s), last);
    if d.buffer != [] && IsContentLine(r, d.buffer) {
      assert Lines(s)[|Ended(s)|] == tail;
      PiecesAreShort(r, s, |Ended(s)|, n);
    }
    if ShortContent(r, last) {
      assert last[0] == tail && n == 0 && tail[0..] == tail;
    }
  }

  // ------------------------------------------------------------------------------------
  // Cuts that mislead.
  // ------------------------------------------------------------------------------------

  /** Every line and every newline a chunk of its own. */
  function Linewise(s: Bytes): (chunks: seq<Bytes>)
    ensures Concat(chunks) == s
    decreases |s|
  {
    var n := FirstNewline(s);
    if n == |s| then
      assert [s] != [] && [s][1..] == [] && s + [] == s;
      if s == [] then [] else [s]
    else
      var rest := Linewise(s[n + 1..]);
      var chunks := [s[..n], [NEWLINE]] + rest;
      assert chunks[1..] == [[NEWLINE]] + rest && chunks[1..][1..] == rest;
      assert s == s[..n] + ([NEWLINE] + s[n + 1..]);
      chunks
  }

  lemma FirstOfLines(s: Bytes)
    requires FirstNewline(s) < |s|
    ensures Lines(s) == [s[..FirstNewline(s)]] + Lines(s[FirstNewline(s) + 1..])
  {
    hide Ended, Tail, FirstNewline, LastLine;
    LinesFrom(s);
    var n := FirstNewline(s);
    Associate([s[..n]], Ended(s[n + 1..]), LastLine(Tail(s)));
  }

  lemma OnlyLineOf(s: Bytes)
    requires FirstNewline(s) == |s|
    ensures Lines(s) == LastLine(s)
  {
    hide Ended, Tail, FirstNewline, LastLine, Scan, IsContentLine;
    FirstLine(x => false, s);
    assert [] + LastLine(s) == LastLine(s);
  }

  lemma Associate(a: seq<Bytes>, b: seq<Bytes>, c: seq<Bytes>)
    ensures a + b + c == a + (b + c)
  {
  }

  /** Cut line by line, no long line is ever looked at. */
  lemma {:induction false} LinewiseMissesLongLines(r: Reader, s: Bytes)
    requires !ShortContent(r, Lines(s))
    ensures !Reported(r, Linewise(s))
    decreases |s|
  {
    hide IsContentLine, Lines, AfterObserve, ShortContent, Linewise, Observed, FirstNewline, AfterFlush;
    EndOfStream(r);
    NothingSeen(r);
    LinewiseIs(s);
    var n := FirstNewline(s);
    if n < |s| {
      FirstOfLines(s);
      var line, rest := s[..n], s[n + 1..];
      ShortContentConcat(r, [line], Lines(rest));
      OneLine(r, line);
      LineIsPassed(r, line, Linewise(rest));
      LinewiseMissesLongLines(r, rest);
    } else if s != [] {
      OnlyLineOf(s);
      OneLine(r, s);
      assert FRESH.buffer + s == s && s[..n] == s;
      WithinLine(r, FRESH, s);
      ObservedOne(r, FRESH, s);
    }
  }

  lemma EndOfStream(r: Reader)
    ensures !AfterFlush(r, FRESH).found
    ensures forall line :: AfterFlush(r, Detector(line, false)).found <==> line != [] && IsContentLine(r, line)
  {
  }

  lemma LinewiseIs(s: Bytes)
    ensures var n := FirstNewline(s);
            Linewise(s) == if n < |s| then [s[..n], [NEWLINE]] + Linewise(s[n + 1..]) else if s == [] then [] else [s]
  {
    hide FirstNewline, Concat;
  }

  lemma OneLine(r: Reader, line: Bytes)
    ensures ShortContent(r, [line]) <==> |line| <= MEBIBYTE && IsContentLine(r, line)
  {
    hide IsContentLine;
    assert [line][0] == line;
  }

  lemma LineIsPassed(r: Reader, line: Bytes, later: seq<Bytes>)
    requires NEWLINE !in line && (|line| <= MEBIBYTE ==> !IsContentLine(r, line))
    ensures Observed(r, FRESH, [line, [NEWLINE]] + later) == Observed(r, FRESH, later)
  {
    EmptyLineIsNoData();
    assert !IsContentLine(r, []);
    hide IsContentLine, AfterObserve;
    assert [] + line == line && line + [] == line && [] + [NEWLINE] == [NEWLINE];
    WithinLine(r, FRESH, line);
    var d := AfterObserve(r, FRESH, line);
    EndsLine(r, d, []);
    var chunks := [line, [NEWLINE]] + later;
    assert chunks[1..] == [[NEWLINE]] + later && chunks[1..][1..] == later;
    assert Observed(r, FRESH, chunks) == Observed(r, d, chunks[1..]);
    assert Observed(r, d, chunks[1..]) == Observed(r, AfterObserve(r, d, [NEWLINE]), later);
  }

  /** One more line in front of a stream. */
  lemma LineInFront(line: Bytes, s: Bytes)
    requires NEWLINE !in line
    ensures var all := line + [NEWLINE] + s; Ended(all) == [line] + Ended(s) && Tail(all) == Tail(s)
  {
    var all := line + [NEWLINE] + s;
    assert all[..|line|] == line && all[|line| + 1..] == s;
    NewlineIsFirst(all, |line|);
  }

  lemma SplitAtNewline(s: Bytes)
    requires FirstNewline(s) < |s|
    ensures var n := FirstNewline(s);
            && s == s[..n] + ([NEWLINE] + s[n + 1..])
            && Ended(s) == [s[..n]] + Ended(s[n + 1..]) && Tail(s) == Tail(s[n + 1..])
  {
    hide Ended, Tail, FirstNewline;
    LinesFrom(s);
    SplitAround(s, FirstNewline(s));
  }

  lemma SplitAround(s: Bytes, n: nat)
    requires n < |s| && s[n] == NEWLINE
    ensures s == s[..n] + ([NEWLINE] + s[n + 1..])
  {
  }

  lemma EmptyStream()
    ensures Ended([]) == [] && Tail([]) == []
  {
  }

  /** A stream put together from lines. */
  function Join(lines: seq<Bytes>): Bytes {
    if lines == [] then [] else lines[0] + [10] + Join(lines[1..])
  }

  ghost predicate Plain(lines: seq<Bytes>) {
    forall k | 0 <= k < |lines| :: NEWLINE !in lines[k]
  }

  lemma {:induction false} JoinedLines(lines: seq<Bytes>)
    requires Plain(lines)
    ensures Ended(Join(lines)) == lines && Tail(Join(lines)) == []
  {
    EmptyStream();
    hide Ended, Tail;
    if lines != [] {
      JoinedLines(lines[1..]);
      LineInFront(lines[0], Join(lines[1..]));
    }
  }

  lemma {:induction false} JoinConcat(a: seq<Bytes>, b: seq<Bytes>)
    ensures Join(a + b) == Join(a) + Join(b)
  {
    JoinStep(a);
    JoinStep(a + b);
    hide Join;
    if a == [] {
      assert a + b == b && [] + Join(b) == Join(b);
    } else {
      JoinConcat(a[1..], b);
      assert (a + b)[1..] == a[1..] + b;
      assert a[0] + [NEWLINE] + (Join(a[1..]) + Join(b)) == a[0] + [NEWLINE] + Join(a[1..]) + Join(b);
    }
  }

  lemma JoinStep(lines: seq<Bytes>)
    ensures Join(lines) == if lines == [] then [] else lines[0] + [NEWLINE] + Join(lines[1..])
  {
  }

  /** Every stream is put together from its lines and what follows them. */
  lemma {:induction false} StreamIsJoined(s: Bytes)
    ensures Plain(Ended(s)) && s == Join(Ended(s)) + Tail(s)
    decreases |s|
  {
    hide Ended, Tail, FirstNewline;
    var n := FirstNewline(s);
    if n == |s| {
      assert s[..n] == s;
      NoNewline(s);
      assert [] + s == s;
    } else {
      var line, rest := s[..n], s[n + 1..];
      SplitAtNewline(s);
      StreamIsJoined(rest);
      OneInFront(line, Ended(rest), Tail(rest));
    }
  }

  lemma OneInFront(line: Bytes, lines: seq<Bytes>, tail: Bytes)
    ensures line + ([NEWLINE] + (Join(lines) + tail)) == Join([line] + lines) + tail
    ensures NEWLINE !in line && Plain(lines) ==> Plain([line] + lines)
  {
    assert ([line] + lines)[1..] == lines;
  }

  /** A stream around its line k. */
  lemma AroundLine(s: Bytes, k: nat) returns (before: Bytes, after: Bytes)
    requires k < |Ended(s)|
    ensures s == before + Ended(s)[k] + [NEWLINE] + after && NEWLINE !in Ended(s)[k]
    ensures Tail(before) == [] && Ended(before) == Ended(s)[..k]
  {
    var lines := Ended(s);
    hide Ended, Tail;
    StreamIsJoined(s);
    before, after := Join(lines[..k]), Join(lines[k + 1..]) + Tail(s);
    JoinedLines(lines[..k]);
    assert lines[k..][0] == lines[k] && lines[k..][1..] == lines[k + 1..] && lines[..k] + lines[k..] == lines;
    JoinConcat(lines[..k], lines[k..]);
    Regroup(before, lines[k], Join(lines[k + 1..]), Tail(s));
  }

  lemma Regroup(before: Bytes, line: Bytes, later: Bytes, tail: Bytes)
    ensures before + (line + [NEWLINE] + later) + tail == before + line + [NEWLINE] + (later + tail)
  {
  }

  /** Lines without content leave nothing behind. */
  lemma PassedLines(r: Reader, before: Bytes)
    requires Tail(before) == [] && !AnyContent(r, Ended(before))
    ensures AfterObserve(r, FRESH, before) == FRESH
  {
    hide IsContentLine, AnyContent;
    assert [] + before == before;
    ScanFinds(r, before);
  }

  /** Cutting after what can be dropped makes the rest of a line look like a line. */
  lemma RestIsReported(r: Reader, s: Bytes, k: nat, n: nat) returns (chunks: seq<Bytes>)
    requires k < |Lines(s)| && CanBeLookedAt(s, k, n) && n > MEBIBYTE
    requires IsContentLine(r, Lines(s)[k][n..]) && !AnyContent(r, Lines(s))
    ensures Concat(chunks) == s && Reported(r, chunks)
  {
    hide IsContentLine, AnyContent, Ended, Tail, Reported;
    NoContentBefore(r, s, k);
    if k < |Ended(s)| {
      var line := Ended(s)[k];
      assert Lines(s)[k] == line;
      var before, after := AroundLine(s, k);
      PassedLines(r, before);
      chunks := ReportedInTheMiddle(r, before, line, n, after);
    } else {
      StreamIsJoined(s);
      JoinedLines(Ended(s));
      PassedLines(r, Join(Ended(s)));
      chunks := ReportedAtTheEnd(r, Join(Ended(s)), Tail(s), n);
    }
  }

  lemma NoContentBefore(r: Reader, s: Bytes, k: nat)
    requires !AnyContent(r, Lines(s))
    ensures !AnyContent(r, Ended(s)) && (k <= |Ended(s)| ==> !AnyContent(r, Ended(s)[..k]))
  {
    hide IsContentLine, AnyContent, Ended, Tail;
    AnyContentConcat(r, Ended(s), LastLine(Tail(s)));
    if k <= |Ended(s)| {
      assert Ended(s) == Ended(s)[..k] + Ended(s)[k..];
      AnyContentConcat(r, Ended(s)[..k], Ended(s)[k..]);
    }
  }

  lemma ReportedInTheMiddle(r: Reader, before: Bytes, line: Bytes, n: nat, after: Bytes)
      returns (chunks: seq<Bytes>)
    requires AfterObserve(r, FRESH, before) == FRESH && NEWLINE !in line
    requires MEBIBYTE < n <= |line| && IsContentLine(r, line[n..])
    ensures Concat(chunks) == before + line + [NEWLINE] + after && Reported(r, chunks)
  {
    hide IsContentLine, AfterObserve, Observed, Concat;
    var head, rest := line[..n], line[n..];
    chunks := [before, head, rest + [NEWLINE], after];
    FourChunks(r, before, head, rest + [NEWLINE], after);
    assert head + (rest + [NEWLINE]) == line + [NEWLINE];
    assert before + head + (rest + [NEWLINE]) == before + (head + (rest + [NEWLINE]));
    assert before + (line + [NEWLINE]) == before + line + [NEWLINE];
    assert FRESH.buffer + rest == rest;
    WithinLine(r, FRESH, head);
    EndsLine(r, FRESH, rest);
    FoundIsKept(r, Detector([], true), after);
  }

  lemma FoundIsKept(r: Reader, d: Detector, chunk: Bytes)
    requires d.found
    ensures AfterObserve(r, d, chunk) == d
  {
  }

  lemma ReportedAtTheEnd(r: Reader, before: Bytes, line: Bytes, n: nat) returns (chunks: seq<Bytes>)
    requires AfterObserve(r, FRESH, before) == FRESH && NEWLINE !in line
    requires MEBIBYTE < n <= |line| && |line| - n <= MEBIBYTE && IsContentLine(r, line[n..])
    ensures Concat(chunks) == before + line && Reported(r, chunks)
  {
    EmptyLineIsNoData();
    assert !IsContentLine(r, []);
    hide IsContentLine, AfterObserve, Observed, Concat;
    var head, rest := line[..n], line[n..];
    chunks := [before, head, rest, []];
    FourChunks(r, before, head, rest, []);
    AllOfIt(before, line, n);
    assert FRESH.buffer + rest == rest && rest + [] == rest;
    WithinLine(r, FRESH, head);
    WithinLine(r, FRESH, rest);
    WithinLine(r, Detector(rest, false), []);
  }

  lemma AllOfIt(before: Bytes, line: Bytes, n: nat)
    requires n <= |line|
    ensures before + line[..n] + line[n..] + [] == before + line
  {
    assert line[..n] + line[n..] == line;
  }

  lemma FourChunks(r: Reader, a: Bytes, b: Bytes, c: Bytes, d: Bytes)
    ensures Concat([a, b, c, d]) == a + b + c + d
    ensures Observed(r, FRESH, [a, b, c, d]) ==
            AfterObserve(r, AfterObserve(r, AfterObserve(r, AfterObserve(r, FRESH, a), b), c), d)
  {
    hide AfterObserve;
    ObservedOne(r, FRESH, a);
    assert [a][1..] == [] && Concat([a]) == a + Concat([]) && a + [] == a;
    hide Observed, Concat;
    assert [a, b] == [a] + [b] && [a, b, c] == [a, b] + [c] && [a, b, c, d] == [a, b, c] + [d];
    ObservedAppend(r, FRESH, [a], b);
    ObservedAppend(r, FRESH, [a, b], c);
    ObservedAppend(r, FRESH, [a, b, c], d);
    ConcatAppend([a], b);
    ConcatAppend([a, b], c);
    ConcatAppend([a, b, c], d);
  }

  /** The streams that are safe to cut are exactly those on which no cut can mislead the
      detector, whatever counts as content. */
  lemma CutsMatterIffUnsafe(s: Bytes)
    ensures SafeToCut(s) <==>
            forall r, chunks | Concat(chunks) == s :: Reported(r, chunks) <==> AnyContent(r, Lines(s))
  {
    hide Reported;
    if SafeToCut(s) {
      forall r, chunks | Concat(chunks) == s
        ensures Reported(r, chunks) <==> AnyContent(r, Lines(s))
      {
        SafeCutsAgree(r, chunks);
      }
    } else {
      var k, n: nat :| 0 <= k < |Lines(s)| && |Lines(s)[k]| > MEBIBYTE && CanBeLookedAt(s, k, n)
                       && Payload(Lines(s)[k][n..]).Some?
                       && !AlwaysSeen(s, Payload(Lines(s)[k][n..]).value);
      var r, chunks := MisleadingCut(s, k, n);
    }
  }

  /** The reader for which that payload, and no other, is content is misled by some cut. */
  lemma MisleadingCut(s: Bytes, k: nat, n: nat) returns (r: Reader, chunks: seq<Bytes>)
    requires k < |Lines(s)| && |Lines(s)[k]| > MEBIBYTE && CanBeLookedAt(s, k, n)
    requires Payload(Lines(s)[k][n..]).Some? && !AlwaysSeen(s, Payload(Lines(s)[k][n..]).value)
    ensures Concat(chunks) == s && (Reported(r, chunks) <==> !AnyContent(r, Lines(s)))
  {
    hide Payload, Reported;
    var line := Lines(s)[k];
    var payload := Payload(line[n..]).value;
    r := x => x == payload;
    assert !ShortContent(r, Lines(s));
    assert IsContentLine(r, line[n..]) && line[0..] == line;
    assert n == 0 ==> AnyContent(r, Lines(s));
    if AnyContent(r, Lines(s)) {
      LinewiseMissesLongLines(r, s);
      chunks := Linewise(s);
    } else {
      chunks := RestIsReported(r, s, k, n);
    }
  }

  // ------------------------------------------------------------------------------------
  // Streams that are safe.
  // ------------------------------------------------------------------------------------

  /** `data:` occurs somewhere in the text. */
  ghost predicate MentionsData(x: Bytes) {
    exists i :: 0 <= i <= |x| && DATA <= x[i..]
  }

  lemma {:induction false} TrimLeftIsEnd(x: Bytes) returns (i: nat)
    ensures i <= |x| && TrimLeft(x) == x[i..]
    decreases |x|
  {
    if SpaceAtStart(x) == 0 {
      i := 0;
    } else {
      var n := SpaceAtStart(x);
      var j := TrimLeftIsEnd(x[n..]);
      i := n + j;
      assert x[n..][j..] == x[i..];
    }
  }

  lemma {:induction false} TrimRightIsStart(x: Bytes)
    ensures TrimRight(x) <= x
    decreases |x|
  {
    if SpaceAtEnd(x) > 0 {
      TrimRightIsStart(x[..|x| - SpaceAtEnd(x)]);
    }
  }

  lemma PayloadMentionsData(x: Bytes, n: nat)
    requires n <= |x| && Payload(x[n..]).Some?
    ensures MentionsData(x)
  {
    var i := TrimLeftIsEnd(x[n..]);
    TrimRightIsStart(TrimLeft(x[n..]));
    assert x[n..][i..] == x[n + i..];
    assert DATA <= x[n + i..];
  }

  /** A stream is safe to cut if no line is too long, or if none of the long ones mentions
      `data:`. */
  lemma NoDataIsSafe(s: Bytes)
    requires forall k | 0 <= k < |Lines(s)| && |Lines(s)[k]| > MEBIBYTE :: !MentionsData(Lines(s)[k])
    ensures SafeToCut(s)
  {
    hide Payload, Lines;
    forall k, n: nat | 0 <= k < |Lines(s)| && |Lines(s)[k]| > MEBIBYTE && CanBeLookedAt(s, k, n)
      ensures Payload(Lines(s)[k][n..]).None?
    {
      var line := Lines(s)[k];
      if Payload(line[n..]).Some? {
        PayloadMentionsData(line, n);
      }
    }
  }
}
