/** Identifiers in the OpenCode layout: fixed-width digits that keep numeric order, a logical
    clock in front of random characters, and session ids derived from a hash. */
module Identifiers {
  import Arithmetic
  import opened Wrappers

  const MS_LIMIT := 0x1_0000_0000_0000
  const KEPT_LIMIT := 0x10_0000_0000
  const SEQ_LIMIT: nat := 0x1000

  type Byte = b: int | 0 <= b < 256

  // ------------------------------------------------------------------------------------
  // Digits.
  // ------------------------------------------------------------------------------------

  datatype Radix = Hex | Base62

  function Base(r: Radix): nat {
    match r
    case Hex => 16
    case Base62 => 62
  }

  /** The hexadecimal digits are 0-9a-f, the others 0-9A-Za-z. */
  function DigitChar(r: Radix, d: nat): char
    requires d < Base(r)
  {
    match r
    case Hex => if d < 10 then '0' + d as char else 'a' + (d - 10) as char
    case Base62 =>
      if d < 10 then '0' + d as char
      else if d < 36 then 'A' + (d - 10) as char
      else 'a' + (d - 36) as char
  }

  function DigitValue(r: Radix, c: char): int {
    if c <= '9' then c as int - '0' as int
    else
      match r
      case Hex => c as int - 'a' as int + 10
      case Base62 => if c <= 'Z' then c as int - 'A' as int + 10 else c as int - 'a' as int + 36
  }

  function Power(base: nat, width: nat): nat {
    if width == 0 then 1 else base * Power(base, width - 1)
  }

  /** The last `width` digits of v, most significant first. */
  function Digits(r: Radix, v: nat, width: nat): (s: string)
    ensures |s| == width
    decreases width
  {
    if width == 0 then "" else Digits(r, v / Base(r), width - 1) + [DigitChar(r, v % Base(r))]
  }

  function Value(r: Radix, s: string): int {
    if s == "" then 0 else Value(r, s[..|s| - 1]) * Base(r) + DigitValue(r, s[|s| - 1])
  }

  /** Byte-wise comparison, as Go compares strings. */
  ghost predicate Less(s: string, t: string) {
    if t == "" then false
    else if s == "" then true
    else s[0] < t[0] || (s[0] == t[0] && Less(s[1..], t[1..]))
  }

  /** `openCodeBase62Encode` and `base62Fixed`: the buffer is filled from its end. */
  method EncodeFixed(r: Radix, value: nat, width: nat) returns (s: string)
    ensures s == Digits(r, value, width)
  {
    var out := new char[width];
    var v: nat := value;
    var i := width;
    while i > 0
      invariant 0 <= i <= width
      invariant Digits(r, value, width) == Digits(r, v, i) + out[i..]
    {
      i := i - 1;
      out[i] := DigitChar(r, v % Base(r));
      assert out[i..] == [DigitChar(r, v % Base(r))] + out[i + 1..];
      v := v / Base(r);
    }
    s := out[..];
  }

  // ------------------------------------------------------------------------------------
  // Message ids.
  // ------------------------------------------------------------------------------------

  /** The logical clock: milliseconds and a counter within one of them. */
  datatype Tick = Tick(ms: int, count: nat)

  function NextTick(t: Tick, now: int): Tick {
    if now > t.ms then Tick(now, 0)
    else if t.count + 1 >= SEQ_LIMIT then Tick(t.ms + 1, 0)
    else Tick(t.ms, t.count + 1)
  }

  predicate Before(s: Tick, t: Tick) {
    s.ms < t.ms || (s.ms == t.ms && s.count < t.count)
  }

  function Tail(random: seq<Byte>): (s: string)
    ensures |s| == |random|
  {
    if random == [] then "" else Tail(random[..|random| - 1]) + [DigitChar(Base62, random[|random| - 1] % 62)]
  }

  function Id(prefix: string, t: Tick, random: seq<Byte>): string {
    prefix + "_" + (Digits(Hex, t.ms % MS_LIMIT, 12) + (Digits(Base62, t.count, 3) + Tail(random)))
  }

  class OpenCodeClock {
    var lastMs: int
    var sequence: nat

    constructor ()
      ensures Now() == Tick(0, 0)
    {
      lastMs, sequence := 0, 0;
    }

    ghost function Now(): Tick
      reads this
    {
      Tick(lastMs, sequence)
    }

    /** Takes the next tick and renders it; fails, after taking the tick, when the random
        source does. */
    method OpenCodeID(prefix: string, now: int, random: Option<seq<Byte>>) returns (id: Option<string>)
      modifies this
      ensures Now() == NextTick(old(Now()), now)
      ensures id == if random.Some? then Some(Id(prefix, Now(), random.value)) else None
    {
      if now > lastMs {
        lastMs := now;
        sequence := 0;
      } else {
        sequence := sequence + 1;
        if sequence > 0xFFF {
          lastMs := lastMs + 1;
          sequence := 0;
        }
      }
      if random.None? {
        return None;
      }
      var hex := EncodeFixed(Hex, lastMs % MS_LIMIT, 12);
      var head := EncodeFixed(Base62, sequence, 3);
      var tail := "";
      var i := 0;
      while i < |random.value|
        invariant 0 <= i <= |random.value|
        invariant tail == Tail(random.value[..i])
      {
        assert random.value[..i + 1][..i] == random.value[..i];
        tail := tail + [DigitChar(Base62, random.value[i] % 62)];
        i := i + 1;
      }
      assert random.value[..i] == random.value;
      return Some(prefix + "_" + (hex + (head + tail)));
    }
  }

  // ------------------------------------------------------------------------------------
  // Session ids.
  // ------------------------------------------------------------------------------------

  function BigEndian(bytes: seq<Byte>): nat {
    if bytes == [] then 0 else BigEndian(bytes[..|bytes| - 1]) * 256 + bytes[|bytes| - 1]
  }

  /** The 36 leading bits of the hash; the shifted bytes do not overlap. */
  function TimeBits(hash: seq<Byte>): (bits: nat)
    requires |hash| >= 5
    ensures bits < KEPT_LIMIT
  {
    hash[0] as int * 0x1000_0000 + hash[1] as int * 0x10_0000 + hash[2] as int * 0x1000
      + hash[3] as int * 0x10 + hash[4] as int / 0x10
  }

  /** The kept bits moved up by 12 places with the lowest bit set, all 48 bits inverted. */
  function Inverted(bits: nat): (word: nat)
    requires bits < KEPT_LIMIT
    ensures word < MS_LIMIT
  {
    MS_LIMIT - 1 - (bits * 0x1000 + 1)
  }

  /** Two hexadecimal digits per byte. */
  function HexBytes(bytes: seq<Byte>): string {
    if bytes == [] then "" else HexBytes(bytes[..|bytes| - 1]) + Digits(Hex, bytes[|bytes| - 1], 2)
  }

  /** The last n bytes of a word, most significant first. */
  function BytesOf(word: nat, n: nat): seq<Byte> {
    if n == 0 then [] else BytesOf(word / 256, n - 1) + [word % 256]
  }

  function DescendingTimePart(hash: seq<Byte>): string
    requires |hash| >= 5
  {
    HexBytes(BytesOf(Inverted(TimeBits(hash)), 6))
  }

  /** A session id from the first 16 bytes of the hash of the session's signal. */
  function CanonicalSessionID(hash: seq<Byte>): string
    requires |hash| == 16
  {
    "ses_" + (DescendingTimePart(hash[..6]) + Digits(Base62, BigEndian(hash[6..]), 14))
  }
}
