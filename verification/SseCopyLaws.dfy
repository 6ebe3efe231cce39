/** What the copy of an event stream delivers, keeps and reports, by the read at which it stops,
    and which part of a line is looked at. */
module SseCopyLaws {

  import opened SseDetector
  import opened Wrappers

  // ------------------------------------------------------------------------------------
  // The copy.
  // ------------------------------------------------------------------------------------

  /** A read that is the last: the upstream is done or broken, or the client refuses bytes. */
  predicate EndsCopy(r: Read) {
    r.end.Eof? || r.end.Broken? || (r.chunk != [] && !r.taken)
  }

  /** The copy makes n reads that go on, and then one that is the last, if there is another. */
  ghost predicate StopsAt(body: seq<Read>, n: nat) {
    && n <= |body|
    && (forall k | 0 <= k < n :: !EndsCopy(body[k]))
    && (n < |body| ==> EndsCopy(body[n]))
  }

  /** All bytes of the first n reads. */
  function Brought(body: seq<Read>, n: nat): Bytes
    requires n <= |body|
  {
    if n == 0 then [] else Brought(body, n - 1) + body[n - 1].chunk
  }

  lemma {:induction false} BroughtFrom(body: seq<Read>, n: nat)
    requires 0 < n <= |body|
    ensures Brought(body, n) == body[0].chunk + Brought(body[1..], n - 1)
  {
    if n == 1 {
      assert Brought(body, 0) == [] && body[0].chunk + [] == body[0].chunk;
    } else {
      BroughtFrom(body, n - 1);
      assert body[1..][n - 2] == body[n - 1];
      Regroup(body[0].chunk, Brought(body[1..], n - 2), body[n - 1].chunk);
    }
  }

  lemma Regroup(a: Bytes, b: Bytes, c: Bytes)
    ensures (a + b) + c == a + (b + c)
  {
  }

  lemma StopsAtNext(body: seq<Read>, n: nat)
    requires StopsAt(body, n) && n > 0
    ensures StopsAt(body[1..], n - 1)
  {
    assert forall k | 0 <= k < n - 1 :: body[1..][k] == body[k + 1];
  }

  lemma {:induction false} SentExactly(body: seq<Read>, n: nat)
    requires StopsAt(body, n)
    ensures Sent(body) == Brought(body, n) + if n < |body| && body[n].taken then body[n].chunk else []
    decreases n
  {
    if n > 0 {
      StopsAtNext(body, n);
      SentExactly(body[1..], n - 1);
      BroughtFrom(body, n);
      assert !EndsCopy(body[0]);
      assert n < |body| ==> body[1..][n - 1] == body[n];
      Regroup(body[0].chunk, Brought(body[1..], n - 1), if n < |body| && body[n].taken then body[n].chunk else []);
    } else if body != [] {
      assert EndsCopy(body[0]);
    }
  }

  lemma {:induction false} ReadExactly(body: seq<Read>, n: nat)
    requires StopsAt(body, n)
    ensures Concat(Chunks(body)) == Brought(body, if n < |body| then n + 1 else n)
    decreases n
  {
    var m := if n < |body| then n + 1 else n;
    if n > 0 {
      StopsAtNext(body, n);
      ReadExactly(body[1..], n - 1);
      BroughtFrom(body, m);
      assert !EndsCopy(body[0]);
      FirstChunk(body[0].chunk, Chunks(body[1..]));
    } else if body != [] {
      assert EndsCopy(body[0]);
      FirstChunk(body[0].chunk, []);
      BroughtFrom(body, 1);
    }
  }

  lemma FirstChunk(chunk: Bytes, rest: seq<Bytes>)
    ensures Concat((if chunk == [] then [] else [chunk]) + rest) == chunk + Concat(rest)
  {
    if chunk == [] {
      assert [] + rest == rest && chunk + Concat(rest) == Concat(rest);
    } else {
      assert ([chunk] + rest)[1..] == rest;
    }
  }

  lemma {:induction false} FailsExactly(body: seq<Read>, n: nat)
    requires StopsAt(body, n)
    ensures Fails(body) <==>
            n < |body| && (body[n].end.Broken? || (body[n].chunk != [] && !body[n].taken))
    decreases n
  {
    if n > 0 {
      StopsAtNext(body, n);
      FailsExactly(body[1..], n - 1);
      assert !EndsCopy(body[0]);
    } else if body != [] {
      assert EndsCopy(body[0]);
    }
  }

  /** What a copy comes to. The client gets everything read before the last read, and what that
      read brought if it takes it, even with the end of the stream; the record keeps the first
      two mebibytes of everything read, sent or not; and the copy has failed if and only if the
      upstream broke or the client refused. */
  lemma CopyIsExact(body: seq<Read>, n: nat)
    requires StopsAt(body, n)
    ensures Sent(body) == Brought(body, n) + if n < |body| && body[n].taken then body[n].chunk else []
    ensures var all := Brought(body, if n < |body| then n + 1 else n);
            Take(Concat(Chunks(body)), CAPTURE_LIMIT) == if |all| <= 2_097_152 then all else all[..2_097_152]
    ensures Fails(body) <==>
            n < |body| && (body[n].end.Broken? || (body[n].chunk != [] && !body[n].taken))
  {
    SentExactly(body, n);
    ReadExactly(body, n);
    FailsExactly(body, n);
  }

  // ------------------------------------------------------------------------------------
  // What is looked at of a line.
  // ------------------------------------------------------------------------------------

  /** The UTF-8 of a white space character: the ASCII ones from tab to carriage return and the
      blank, U+0085, U+00A0, U+1680, U+2000 to U+200A, U+2028, U+2029, U+202F, U+205F, U+3000. */
  predicate IsSpace(s: Bytes) {
    || (|s| == 1 && (9 <= s[0] <= 13 || s[0] == 32))
    || (|s| == 2 && s[0] == 0xc2 && (s[1] == 0x85 || s[1] == 0xa0))
    || (|s| == 3 && s[0] == 0xe1 && s[1] == 0x9a && s[2] == 0x80)
    || (|s| == 3 && s[0] == 0xe2 && s[1] == 0x80
        && (0x80 <= s[2] <= 0x8a || s[2] == 0xa8 || s[2] == 0xa9 || s[2] == 0xaf))
    || (|s| == 3 && s[0] == 0xe2 && s[1] == 0x81 && s[2] == 0x9f)
    || (|s| == 3 && s[0] == 0xe3 && s[1] == 0x80 && s[2] == 0x80)
  }

  lemma SpacesOfOne(s: Bytes)
    requires |s| == 1
    ensures s in SPACES <==> IsSpace(s)
  {
    assert s == [s[0]];
  }

  lemma SpacesOfTwo(s: Bytes)
    requires |s| == 2
    ensures s in SPACES <==> IsSpace(s)
  {
    assert s == [s[0], s[1]];
  }

  lemma SpacesOfThree(s: Bytes)
    requires |s| == 3
    ensures s in SPACES <==> IsSpace(s)
  {
    assert s == [s[0], s[1], s[2]];
  }

  /** Nothing but white space. */
  ghost predicate Blank(s: Bytes)
    decreases |s|
  {
    s == [] || exists n :: 0 < n <= |s| && IsSpace(s[..n]) && Blank(s[n..])
  }

  ghost predicate NoSpaceInFront(s: Bytes) {
    forall n | 0 <= n <= |s| :: !IsSpace(s[..n])
  }

  ghost predicate NoSpaceBehind(s: Bytes) {
    forall n | 0 <= n <= |s| :: !IsSpace(s[n..])
  }

  /** No white space at either end. */
  ghost predicate Trimmed(s: Bytes) {
    NoSpaceInFront(s) && NoSpaceBehind(s)
  }

  lemma NoSpaceAtStart(s: Bytes)
    ensures SpaceAtStart(s) == 0 <==> NoSpaceInFront(s)
    ensures SpaceAtStart(s) > 0 ==> IsSpace(s[..SpaceAtStart(s)])
  {
    hide IsSpace;
    if |s| >= 1 { SpacesOfOne(s[..1]); }
    if |s| >= 2 { SpacesOfTwo(s[..2]); }
    if |s| >= 3 { SpacesOfThree(s[..3]); }
    forall n | 0 <= n <= |s| && IsSpace(s[..n])
      ensures 1 <= n <= 3
    {
      ShortSpaces(s[..n]);
    }
  }

  lemma NoSpaceAtEnd(s: Bytes)
    ensures SpaceAtEnd(s) == 0 <==> NoSpaceBehind(s)
    ensures SpaceAtEnd(s) > 0 ==> IsSpace(s[|s| - SpaceAtEnd(s)..])
  {
    hide IsSpace;
    if |s| >= 1 { SpacesOfOne(s[|s| - 1..]); }
    if |s| >= 2 { SpacesOfTwo(s[|s| - 2..]); }
    if |s| >= 3 { SpacesOfThree(s[|s| - 3..]); }
    forall n | 0 <= n <= |s| && IsSpace(s[n..])
      ensures SpaceAtEnd(s) > 0
    {
      ShortSpaces(s[n..]);
      if n == |s| - 1 {
        assert s[n..] == s[|s| - 1..];
      } else if n == |s| - 2 {
        assert s[n..] == s[|s| - 2..];
      } else {
        assert s[n..] == s[|s| - 3..];
      }
    }
  }

  lemma ShortSpaces(s: Bytes)
    requires IsSpace(s)
    ensures 1 <= |s| <= 3
  {
  }

  lemma SpaceInFront(s: Bytes, n: nat)
    requires 0 < n <= |s| && IsSpace(s[..n]) && Blank(s[n..])
    ensures Blank(s)
  {
  }

  lemma FirstSpace(s: Bytes) returns (n: nat)
    requires s != [] && Blank(s)
    ensures 0 < n <= |s| && IsSpace(s[..n]) && Blank(s[n..])
  {
    n :| 0 < n <= |s| && IsSpace(s[..n]) && Blank(s[n..]);
  }

  lemma {:induction false} BlankConcat(a: Bytes, b: Bytes)
    requires Blank(a) && Blank(b)
    ensures Blank(a + b)
    decreases |a|
  {
    hide Blank, IsSpace;
    if a == [] {
      assert a + b == b;
    } else {
      var n := FirstSpace(a);
      BlankConcat(a[n..], b);
      assert (a + b)[..n] == a[..n] && (a + b)[n..] == a[n..] + b;
      SpaceInFront(a + b, n);
    }
  }

  lemma OneSpaceIsBlank(s: Bytes)
    requires IsSpace(s)
    ensures Blank(s)
  {
    ShortSpaces(s);
    assert s[..|s|] == s && s[|s|..] == [];
    assert Blank(s[|s|..]);
  }

  lemma TwoSlices(s: Bytes, n: nat, j: nat)
    requires n <= |s| && j <= |s| - n
    ensures s[..n] + s[n..][..j] == s[..n + j]
  {
  }

  lemma {:induction false} TrimLeftExactly(s: Bytes) returns (i: nat)
    ensures i <= |s| && TrimLeft(s) == s[i..] && Blank(s[..i]) && NoSpaceInFront(TrimLeft(s))
    decreases |s|
  {
    hide IsSpace, NoSpaceInFront;
    NoSpaceAtStart(s);
    if SpaceAtStart(s) == 0 {
      i := 0;
    } else {
      var n := SpaceAtStart(s);
      var j := TrimLeftExactly(s[n..]);
      i := n + j;
      OneSpaceIsBlank(s[..n]);
      BlankConcat(s[..n], s[n..][..j]);
      assert s[n..][j..] == s[i..];
      TwoSlices(s, n, j);
    }
  }

  lemma SlicesOfFront(s: Bytes, n: nat, m: nat)
    requires m <= n <= |s|
    ensures s[..n][m..] + s[n..] == s[m..] && s[..n][..m] == s[..m]
  {
  }

  lemma {:induction false} TrimRightExactly(s: Bytes) returns (m: nat)
    ensures m <= |s| && TrimRight(s) == s[..m] && Blank(s[m..]) && NoSpaceBehind(TrimRight(s))
    decreases |s|
  {
    hide IsSpace, NoSpaceBehind;
    NoSpaceAtEnd(s);
    if SpaceAtEnd(s) == 0 {
      m := |s|;
      assert s[..m] == s && s[m..] == [];
    } else {
      var n := |s| - SpaceAtEnd(s);
      m := TrimRightExactly(s[..n]);
      OneSpaceIsBlank(s[n..]);
      BlankConcat(s[..n][m..], s[n..]);
      SlicesOfFront(s, n, m);
    }
  }

  lemma Reassembled(s: Bytes, i: nat, m: nat)
    requires i <= |s| && m <= |s| - i
    ensures s == s[..i] + s[i..][..m] + s[i..][m..]
  {
  }

  lemma FrontOfFront(s: Bytes, m: nat)
    requires m <= |s| && NoSpaceInFront(s)
    ensures NoSpaceInFront(s[..m])
  {
    hide IsSpace;
    forall n | 0 <= n <= m
      ensures !IsSpace(s[..m][..n])
    {
      assert s[..m][..n] == s[..n];
    }
  }

  /** Trimming takes white space, all of it, and nothing but white space off both ends. */
  lemma TrimIsExact(s: Bytes) returns (before: Bytes, after: Bytes)
    ensures s == before + TrimSpace(s) + after && Blank(before) && Blank(after)
    ensures Trimmed(TrimSpace(s))
  {
    hide Blank, NoSpaceInFront, NoSpaceBehind, TrimLeft, TrimRight;
    var i := TrimLeftExactly(s);
    var m := TrimRightExactly(s[i..]);
    before, after := s[..i], s[i..][m..];
    Reassembled(s, i, m);
    FrontOfFront(s[i..], m);
  }

  /** What is decoded of a line: white space, `data:`, white space, the payload and white space,
      where the payload is neither empty nor `[DONE]`; and of no other line anything. */
  lemma PayloadIsExact(line: Bytes) returns (a: Bytes, b: Bytes, c: Bytes)
    ensures Payload(line).Some? ==>
              var p := Payload(line).value;
              && line == a + [100, 97, 116, 97, 58] + b + p + c
              && Blank(a) && Blank(b) && Blank(c) && Trimmed(p)
              && p != [] && p != [91, 68, 79, 78, 69, 93]
    ensures Payload(line).None? ==>
              || !([100, 97, 116, 97, 58] <= TrimSpace(line))
              || (var p := TrimSpace(TrimSpace(line)[5..]); p == [] || p == [91, 68, 79, 78, 69, 93])
  {
    hide TrimSpace, Blank, IsSpace, Trimmed;
    a, b, c := [], [], [];
    if Payload(line).Some? {
      var before, after := TrimIsExact(line);
      var text := TrimSpace(line);
      var inner, last := TrimIsExact(text[5..]);
      a, b, c := before, inner, last + after;
      BlankConcat(last, after);
      assert text == [100, 97, 116, 97, 58] + text[5..];
    }
  }
}
