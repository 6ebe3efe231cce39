/** Order, length and information content of the identifiers. */
module IdentifierLaws {
  import opened Identifiers
  import Arithmetic
  import opened Wrappers

  // ------------------------------------------------------------------------------------
  // Digits.
  // ------------------------------------------------------------------------------------

  lemma DigitsAreCharacters(r: Radix, d: nat, e: nat)
    requires d < Base(r) && e < Base(r)
    ensures DigitValue(r, DigitChar(r, d)) == d
    ensures d < e ==> DigitChar(r, d) < DigitChar(r, e)
  {
  }

  /** Fixed-width digits lose nothing of a number that fits. */
  lemma {:induction false} DigitsRoundTrip(r: Radix, v: nat, width: nat)
    requires v < Power(Base(r), width)
    ensures Value(r, Digits(r, v, width)) == v
    decreases width
  {
    if width > 0 {
      var q, d := v / Base(r), v % Base(r);
      Arithmetic.QuotientBound(v, Base(r), Power(Base(r), width - 1));
      DigitsRoundTrip(r, q, width - 1);
      DigitsAreCharacters(r, d, d);
      ValueOfNext(r, Digits(r, q, width - 1), DigitChar(r, d));
    }
  }

  lemma ValueOfNext(r: Radix, s: string, c: char)
    ensures Value(r, s + [c]) == Value(r, s) * Base(r) + DigitValue(r, c)
  {
    assert (s + [c])[..|s|] == s;
  }

  lemma {:induction false} LessThenAnything(s: string, t: string, x: string, y: string)
    requires |s| == |t| && Less(s, t)
    ensures Less(s + x, t + y)
  {
    assert (s + x)[1..] == s[1..] + x && (t + y)[1..] == t[1..] + y;
    if s[0] == t[0] {
      LessThenAnything(s[1..], t[1..], x, y);
    }
  }

  lemma {:induction false} SamePrefix(p: string, s: string, t: string)
    requires Less(s, t)
    ensures Less(p + s, p + t)
  {
    if p == "" {
      assert p + s == s && p + t == t;
    } else {
      assert (p + s)[1..] == p[1..] + s && (p + t)[1..] == p[1..] + t;
      SamePrefix(p[1..], s, t);
    }
  }

  /** Fixed-width digits compare like the numbers. */
  lemma {:induction false} DigitsKeepOrder(r: Radix, u: nat, v: nat, width: nat)
    requires u < v < Power(Base(r), width)
    ensures Less(Digits(r, u, width), Digits(r, v, width))
    decreases width
  {
    if width > 0 {
      Arithmetic.QuotientBound(v, Base(r), Power(Base(r), width - 1));
      Arithmetic.QuotientOrder(u, v, Base(r));
      DigitsAreCharacters(r, u % Base(r), v % Base(r));
      var x, y := [DigitChar(r, u % Base(r))], [DigitChar(r, v % Base(r))];
      if u / Base(r) < v / Base(r) {
        DigitsKeepOrder(r, u / Base(r), v / Base(r), width - 1);
        LessThenAnything(Digits(r, u / Base(r), width - 1), Digits(r, v / Base(r), width - 1), x, y);
      } else {
        SamePrefix(Digits(r, u / Base(r), width - 1), x, y);
      }
    }
  }

  // ------------------------------------------------------------------------------------
  // Message ids.
  // ------------------------------------------------------------------------------------

  /** The ticks that successive calls take for the given clock readings. */
  function Ticks(t: Tick, readings: seq<int>): (ticks: seq<Tick>)
    ensures |ticks| == |readings|
    decreases |readings|
  {
    if readings == [] then []
    else
      var next := NextTick(t, readings[0]);
      [next] + Ticks(next, readings[1..])
  }

  ghost predicate TickOk(t: Tick) {
    t.ms >= 0 && t.count < SEQ_LIMIT
  }

  lemma NextTickAdvances(t: Tick, now: int)
    requires TickOk(t)
    ensures TickOk(NextTick(t, now)) && Before(t, NextTick(t, now))
  {
  }

  lemma {:induction false} TicksIncrease(t: Tick, readings: seq<int>, j: nat)
    requires TickOk(t) && j < |readings|
    ensures TickOk(Ticks(t, readings)[j]) && Before(t, Ticks(t, readings)[j])
    ensures forall i | 0 <= i < j :: Before(Ticks(t, readings)[i], Ticks(t, readings)[j])
    decreases |readings|
  {
    var next := NextTick(t, readings[0]);
    var ticks := Ticks(t, readings);
    NextTickAdvances(t, readings[0]);
    if j > 0 {
      TicksIncrease(next, readings[1..], j - 1);
      forall i | 0 <= i < j
        ensures Before(ticks[i], ticks[j])
      {
        if i > 0 {
          assert ticks[i] == Ticks(next, readings[1..])[i - 1];
        }
      }
    }
  }

  /** The clock is followed: no tick is behind its reading, and a reading ahead of all ticks
      before it is taken as it is, with the first number. */
  lemma {:induction false} TicksFollowTheClock(t: Tick, readings: seq<int>, j: nat)
    requires j < |readings|
    ensures var before := if j == 0 then t else Ticks(t, readings)[j - 1];
            && Ticks(t, readings)[j].ms >= readings[j]
            && (readings[j] > before.ms ==> Ticks(t, readings)[j] == Tick(readings[j], 0))
    decreases |readings|
  {
    if j > 0 {
      TicksFollowTheClock(NextTick(t, readings[0]), readings[1..], j - 1);
    }
  }

  /** While the clock stands still or goes back, each millisecond is numbered from 0 to 4095
      before the next one is begun. */
  lemma {:induction false} StandingClock(readings: seq<int>, j: nat)
    requires j < |readings| && readings[0] > 0
    requires forall k | 0 < k < |readings| :: readings[k] <= readings[0]
    ensures Ticks(Tick(0, 0), readings)[j] == Tick(readings[0] + j / 4096, j % 4096)
  {
    var m := readings[0];
    var first := Tick(m, 0);
    assert NextTick(Tick(0, 0), m) == first;
    if j > 0 {
      StandsStill(first, readings[1..], m, 0, j - 1);
      assert Ticks(Tick(0, 0), readings)[j] == Ticks(first, readings[1..])[j - 1];
    }
  }

  lemma {:induction false} StandsStill(t: Tick, readings: seq<int>, m: int, n: nat, j: nat)
    requires j < |readings| && t == Tick(m + n / 4096, n % 4096)
    requires forall k | 0 <= k < |readings| :: readings[k] <= m
    ensures Ticks(t, readings)[j] == Tick(m + (n + j + 1) / 4096, (n + j + 1) % 4096)
    decreases |readings|
  {
    var next := NextTick(t, readings[0]);
    assert next == Tick(m + (n + 1) / 4096, (n + 1) % 4096);
    if j > 0 {
      StandsStill(next, readings[1..], m, n + 1, j - 1);
    }
  }

  lemma SequenceFits(count: nat)
    requires count < SEQ_LIMIT
    ensures count < Power(62, 3)
  {
    assert Power(62, 3) == 238328;
  }

  lemma MillisecondsFit(ms: nat)
    requires ms < MS_LIMIT
    ensures ms < Power(16, 12)
  {
    assert Power(16, 6) == 0x100_0000;
    assert Power(16, 12) == MS_LIMIT;
  }

  lemma LaterTickGreaterDigits(s: Tick, t: Tick, left: string, right: string)
    requires TickOk(s) && TickOk(t) && Before(s, t) && t.ms < MS_LIMIT
    ensures Less(Digits(Hex, s.ms, 12) + (Digits(Base62, s.count, 3) + left),
                 Digits(Hex, t.ms, 12) + (Digits(Base62, t.count, 3) + right))
  {
    hide Digits, Less, Power;
    var hs, ht := Digits(Hex, s.ms, 12), Digits(Hex, t.ms, 12);
    var cs, ct := Digits(Base62, s.count, 3), Digits(Base62, t.count, 3);
    if s.ms < t.ms {
      MillisecondsFit(t.ms);
      DigitsKeepOrder(Hex, s.ms, t.ms, 12);
      LessThenAnything(hs, ht, cs + left, ct + right);
    } else {
      SequenceFits(t.count);
      DigitsKeepOrder(Base62, s.count, t.count, 3);
      LessThenAnything(cs, ct, left, right);
      SamePrefix(hs, cs + left, ct + right);
    }
  }

  /** A later tick renders as a greater id of the same length, whatever the random tails. */
  lemma LaterTickGreaterId(prefix: string, s: Tick, t: Tick, left: seq<Byte>, right: seq<Byte>)
    requires TickOk(s) && TickOk(t) && Before(s, t) && t.ms < MS_LIMIT
    ensures Less(Id(prefix, s, left), Id(prefix, t, right))
    ensures |Id(prefix, s, left)| == |prefix| + 16 + |left|
    ensures |Id(prefix, t, right)| == |prefix| + 16 + |right|
  {
    hide Digits, Less, Tail;
    LaterTickGreaterDigits(s, t, Tail(left), Tail(right));
    assert s.ms % MS_LIMIT == s.ms && t.ms % MS_LIMIT == t.ms;
    SamePrefix(prefix + "_", Digits(Hex, s.ms, 12) + (Digits(Base62, s.count, 3) + Tail(left)),
               Digits(Hex, t.ms, 12) + (Digits(Base62, t.count, 3) + Tail(right)));
  }

  /** Successive ids with the same prefix strictly increase and have the same length, for any
      clock readings, as long as the logical clock stays below 2^48 milliseconds. */
  lemma IdsStrictlyIncrease(prefix: string, readings: seq<int>, random: seq<seq<Byte>>, i: nat, j: nat)
    requires |random| == |readings| && i < j < |readings|
    requires |random[i]| == |random[j]| == 11
    requires Ticks(Tick(0, 0), readings)[j].ms < MS_LIMIT
    ensures var ticks := Ticks(Tick(0, 0), readings);
            var older, newer := Id(prefix, ticks[i], random[i]), Id(prefix, ticks[j], random[j]);
            Less(older, newer) && |older| == |newer| == |prefix| + 27
  {
    hide Id, Less, Ticks, Before;
    TicksIncrease(Tick(0, 0), readings, i);
    TicksIncrease(Tick(0, 0), readings, j);
    var ticks := Ticks(Tick(0, 0), readings);
    LaterTickGreaterId(prefix, ticks[i], ticks[j], random[i], random[j]);
  }

  /** The 62 digits, in their order. */
  function Symbol(d: nat): char
    requires d < 62
  {
    if d < 10 then "0123456789"[d]
    else if d < 36 then "ABCDEFGHIJKLMNOPQRSTUVWXYZ"[d - 10]
    else "abcdefghijklmnopqrstuvwxyz"[d - 36]
  }

  lemma UpperCase(d: nat)
    requires d < 26
    ensures "ABCDEFGHIJKLMNOPQRSTUVWXYZ"[d] == 'A' + d as char
  {
  }

  lemma LowerCase(d: nat)
    requires d < 26
    ensures "abcdefghijklmnopqrstuvwxyz"[d] == 'a' + d as char
  {
  }

  lemma DigitsAreSymbols(d: nat)
    requires d < 62
    ensures DigitChar(Base62, d) == Symbol(d)
    ensures d < 16 ==> DigitChar(Hex, d) == "0123456789abcdef"[d]
  {
    if 10 <= d < 36 {
      UpperCase(d - 10);
    } else if 36 <= d {
      LowerCase(d - 36);
    }
  }

  /** Each random byte is one character, by its remainder modulo 62. */
  lemma {:induction false} TailCharacters(random: seq<Byte>, k: nat)
    requires k < |random|
    ensures Tail(random)[k] == Symbol(random[k] % 62)
  {
    hide Symbol, DigitChar;
    DigitsAreSymbols(random[k] % 62);
    if k < |random| - 1 {
      TailCharacters(random[..|random| - 1], k);
    }
  }

  /** A message id gives back its prefix, the 48 low bits of its millisecond, its number and its
      random characters. */
  lemma IdDecodes(prefix: string, t: Tick, random: seq<Byte>)
    requires t.count < 4096
    ensures var id, n := Id(prefix, t, random), |prefix| + 1;
            && |id| == n + 15 + |random| && id[..n] == prefix + "_"
            && Value(Hex, id[n..n + 12]) == t.ms % 0x1_0000_0000_0000
            && Value(Base62, id[n + 12..n + 15]) == t.count
            && forall k | 0 <= k < |random| :: id[n + 15 + k] == Symbol(random[k] % 62)
  {
    hide Id, Digits, Value, Power, Symbol;
    IdParts(prefix, t, random);
    var ms := t.ms % MS_LIMIT;
    MillisecondsFit(ms);
    DigitsRoundTrip(Hex, ms, 12);
    SequenceFits(t.count);
    DigitsRoundTrip(Base62, t.count, 3);
  }

  lemma IdParts(prefix: string, t: Tick, random: seq<Byte>)
    ensures var id, n := Id(prefix, t, random), |prefix| + 1;
            && |id| == n + 15 + |random| && id[..n] == prefix + "_"
            && id[n..n + 12] == Digits(Hex, t.ms % MS_LIMIT, 12) && id[n + 12..n + 15] == Digits(Base62, t.count, 3)
            && forall k | 0 <= k < |random| :: id[n + 15 + k] == Symbol(random[k] % 62)
  {
    hide Digits, Symbol, Tail;
    Parts(prefix + "_", Digits(Hex, t.ms % MS_LIMIT, 12), Digits(Base62, t.count, 3), Tail(random));
    forall k | 0 <= k < |random|
      ensures Id(prefix, t, random)[|prefix| + 16 + k] == Symbol(random[k] % 62)
    {
      TailCharacters(random, k);
    }
  }

  lemma Parts(a: string, b: string, c: string, d: string)
    requires |b| == 12 && |c| == 3
    ensures var s, n := a + (b + (c + d)), |a|;
            && |s| == n + 15 + |d| && s[..n] == a && s[n..n + 12] == b && s[n + 12..n + 15] == c
            && forall k | 0 <= k < |d| :: s[n + 15 + k] == d[k]
  {
  }

  // ------------------------------------------------------------------------------------
  // Session ids.
  // ------------------------------------------------------------------------------------

  lemma HexOfByte(b: Byte, word: nat)
    requires word % 256 == b
    ensures Digits(Hex, b, 2) == [DigitChar(Hex, word / 16 % 16), DigitChar(Hex, word % 16)]
  {
    assert Digits(Hex, b / 16, 1) == Digits(Hex, b / 16 / 16, 0) + [DigitChar(Hex, b / 16 % 16)];
    assert word == 256 * (word / 256) + b;
    assert word / 16 == 16 * (word / 256) + b / 16;
  }

  /** Rendering byte by byte is rendering the word. */
  lemma {:induction false} HexOfBytes(word: nat, n: nat)
    ensures HexBytes(BytesOf(word, n)) == Digits(Hex, word, 2 * n)
  {
    if n > 0 {
      var bytes := BytesOf(word, n);
      assert bytes[..|bytes| - 1] == BytesOf(word / 256, n - 1);
      HexOfBytes(word / 256, n - 1);
      HexOfByte(word % 256, word);
      assert word / 16 / 16 == word / 256;
      assert Digits(Hex, word, 2 * n) == Digits(Hex, word / 16, 2 * n - 1) + [DigitChar(Hex, word % 16)];
      assert Digits(Hex, word / 16, 2 * n - 1) == Digits(Hex, word / 256, 2 * n - 2) + [DigitChar(Hex, word / 16 % 16)];
    }
  }

  lemma LastDigit(r: Radix, v: nat, width: nat, q: nat, d: nat)
    requires width > 0 && v == q * Base(r) + d && d < Base(r)
    ensures Digits(r, v, width) == Digits(r, q, width - 1) + [DigitChar(r, d)]
  {
    Arithmetic.DivMod(q, d, Base(r));
  }

  lemma InvertedShape(bits: nat)
    requires bits < KEPT_LIMIT
    ensures Digits(Hex, Inverted(bits), 12) == Digits(Hex, KEPT_LIMIT - 1 - bits, 9) + "ffe"
  {
    hide Digits;
    var top := KEPT_LIMIT - 1 - bits;
    LastDigit(Hex, Inverted(bits), 12, top * 256 + 255, 14);
    LastDigit(Hex, top * 256 + 255, 11, top * 16 + 15, 15);
    LastDigit(Hex, top * 16 + 15, 10, top, 15);
    assert DigitChar(Hex, 15) == 'f' && DigitChar(Hex, 14) == 'e';
  }

  /** The time part is the inverted kept bits as nine digits, then ffe. */
  lemma TimePartShape(hash: seq<Byte>)
    requires |hash| >= 5
    ensures DescendingTimePart(hash) == Digits(Hex, KEPT_LIMIT - 1 - TimeBits(hash), 9) + "ffe"
  {
    hide Digits, TimeBits, HexBytes, BytesOf;
    HexOfBytes(Inverted(TimeBits(hash)), 6);
    InvertedShape(TimeBits(hash));
  }

  lemma {:induction false} BigEndianFits(bytes: seq<Byte>)
    ensures BigEndian(bytes) < Power(256, |bytes|)
  {
    if bytes != [] {
      BigEndianFits(bytes[..|bytes| - 1]);
    }
  }

  lemma {:induction false} BigEndianIsInjective(left: seq<Byte>, right: seq<Byte>)
    requires |left| == |right| && BigEndian(left) == BigEndian(right)
    ensures left == right
  {
    if left != [] {
      var n := |left| - 1;
      BigEndianIsInjective(left[..n], right[..n]);
      assert left == left[..n] + [left[n]] && right == right[..n] + [right[n]];
    }
  }

  /** Fourteen base-62 digits are enough for eighty bits, and thirteen are not. */
  lemma FourteenDigitsSuffice(bytes: seq<Byte>)
    requires |bytes| == 10
    ensures BigEndian(bytes) < Power(62, 14)
    ensures Power(62, 13) < Power(256, 10)
  {
    BigEndianFits(bytes);
    assert Power(256, 10) == 1208925819614629174706176;
    assert Power(62, 13) == 200028539268669788905472;
    assert Power(62, 14) == 12401769434657526912139264;
  }

  /** Ten bytes as one number, the first byte counting most. */
  lemma TenBytes(b: seq<Byte>)
    requires |b| == 10
    ensures BigEndian(b) ==
            ((((((((b[0] as int * 256 + b[1]) * 256 + b[2]) * 256 + b[3]) * 256 + b[4]) * 256 + b[5]) * 256
              + b[6]) * 256 + b[7]) * 256 + b[8]) * 256 + b[9]
  {
    hide BigEndian;
    NextByte([], b[0]);
    FiveMore([], b[0], b[1], b[2], b[3], b[4]);
    FiveMore([b[0], b[1], b[2], b[3], b[4]], b[5], b[6], b[7], b[8], b[9]);
    assert b == [b[0], b[1], b[2], b[3], b[4]] + [b[5], b[6], b[7], b[8], b[9]];
    assert [] + [b[0], b[1], b[2], b[3], b[4]] == [b[0], b[1], b[2], b[3], b[4]];
  }

  lemma FiveMore(front: seq<Byte>, a: Byte, b: Byte, c: Byte, d: Byte, e: Byte)
    ensures BigEndian(front + [a, b, c, d, e]) ==
            ((((BigEndian(front) * 256 + a) * 256 + b) * 256 + c) * 256 + d) * 256 + e
  {
    hide BigEndian;
    NextByte(front, a);
    NextByte(front + [a], b);
    NextByte(front + [a] + [b], c);
    NextByte(front + [a] + [b] + [c], d);
    NextByte(front + [a] + [b] + [c] + [d], e);
    assert front + [a, b, c, d, e] == front + [a] + [b] + [c] + [d] + [e];
  }

  lemma NextByte(front: seq<Byte>, b: Byte)
    ensures BigEndian(front + [b]) == BigEndian(front) * 256 + b
    ensures front == [] ==> BigEndian(front) == 0
  {
    assert (front + [b])[..|front|] == front;
  }

  /** The digits of a session id give back the kept time bits, inverted, and the whole tail. */
  lemma SessionIdDecodes(hash: seq<Byte>)
    requires |hash| == 16
    ensures var id := CanonicalSessionID(hash);
            && |id| == 30 && id[..4] == "ses_" && id[13..16] == "ffe"
            && 0xF_FFFF_FFFF - Value(Hex, id[4..13]) == TimeBits(hash[..6])
            && Value(Base62, id[16..]) == BigEndian(hash[6..])
  {
    hide Digits, Value, TimeBits, BigEndian, DescendingTimePart, Power;
    var time := KEPT_LIMIT - 1 - TimeBits(hash[..6]);
    TimePartShape(hash[..6]);
    FourteenDigitsSuffice(hash[6..]);
    NineDigitsSuffice(time);
    DigitsRoundTrip(Hex, time, 9);
    DigitsRoundTrip(Base62, BigEndian(hash[6..]), 14);
    Slices(Digits(Hex, time, 9), Digits(Base62, BigEndian(hash[6..]), 14));
  }

  /** The kept time bits are the first 36 bits of the hash. */
  lemma FirstBits(hash: seq<Byte>)
    requires |hash| == 16
    ensures TimeBits(hash[..6]) == hash[0] as int * 0x1000_0000 + hash[1] as int * 0x10_0000 + hash[2] as int * 0x1000
                                   + hash[3] as int * 0x10 + hash[4] as int / 16
  {
  }

  lemma NineDigitsSuffice(v: nat)
    requires v < KEPT_LIMIT
    ensures v < Power(16, 9)
  {
    assert Power(16, 9) == KEPT_LIMIT;
  }

  lemma Slices(time: string, tail: string)
    requires |time| == 9 && |tail| == 14
    ensures var id := "ses_" + ((time + "ffe") + tail);
            && |id| == 30 && id[..4] == "ses_" && id[13..16] == "ffe"
            && id[4..13] == time && id[16..] == tail
  {
    var id := "ses_" + ((time + "ffe") + tail);
    assert id[4..] == (time + "ffe") + tail;
    assert id[4..13] == time;
  }

  lemma FieldsAreSeparate(a: seq<int>, b: seq<int>)
    requires |a| == |b| == 5 && a[4] < 16 && b[4] < 16
    requires forall k | 0 <= k < 5 :: 0 <= a[k] < 256 && 0 <= b[k] < 256
    requires a[0] * 0x1000_0000 + a[1] * 0x10_0000 + a[2] * 0x1000 + a[3] * 0x10 + a[4]
          == b[0] * 0x1000_0000 + b[1] * 0x10_0000 + b[2] * 0x1000 + b[3] * 0x10 + b[4]
    ensures a[0] == b[0] && a[1] == b[1] && a[2] == b[2] && a[3] == b[3] && a[4] == b[4]
  {
    assert a[0] == b[0];
    assert a[1] == b[1];
    assert a[2] == b[2];
    assert a[3] == b[3];
  }

  lemma SameTimeBits(left: seq<Byte>, right: seq<Byte>)
    requires |left| >= 5 && |right| >= 5
    ensures TimeBits(left) == TimeBits(right) <==>
            && left[0] == right[0] && left[1] == right[1] && left[2] == right[2]
            && left[3] == right[3] && left[4] / 16 == right[4] / 16
  {
    if TimeBits(left) == TimeBits(right) {
      FieldsAreSeparate([left[0], left[1], left[2], left[3], left[4] / 16],
                        [right[0], right[1], right[2], right[3], right[4] / 16]);
    }
  }

  /** Two signals share a session id exactly when their hashes agree outside the 12 bits that
      are dropped: the low half of byte 4 and byte 5. */
  lemma SessionIdsCollideOnlyOnDroppedBits(left: seq<Byte>, right: seq<Byte>)
    requires |left| == |right| == 16
    ensures CanonicalSessionID(left) == CanonicalSessionID(right) <==>
            left[..4] == right[..4] && left[4] / 16 == right[4] / 16 && left[6..] == right[6..]
  {
    hide Digits, Value, TimeBits, BigEndian, DescendingTimePart;
    SessionIdDecodes(left);
    SessionIdDecodes(right);
    SameTimeBits(left[..6], right[..6]);
    assert left[..4] == right[..4] <==>
           left[0] == right[0] && left[1] == right[1] && left[2] == right[2] && left[3] == right[3];
    if CanonicalSessionID(left) == CanonicalSessionID(right) {
      BigEndianIsInjective(left[6..], right[6..]);
    }
    TimePartShape(left[..6]);
    TimePartShape(right[..6]);
  }
}
