/** The sliding-window limiter of client keys: head-indexed queues with a running token
    total, compaction, 64 shards and idle clean-up, proved to answer exactly like a plain
    per-key log of everything recorded. Instants and durations are nanoseconds. */
module KeyLimiter {
  import Iteration

  const MINUTE := 60_000_000_000
  const IDLE := 5 * MINUTE

  /** Go's zero time, the shard's first `lastCleanup`. */
  const YEAR_ONE := -62_135_596_800_000_000_000

  datatype Sample = Sample(at: int, value: int)

  datatype Limit = Rpm | Tpm

  datatype Decision = Allowed | Refused(wait: int, limit: Limit)

  datatype Usage = Absent | Total(tokens: int)

  // ------------------------------------------------------------------------------------
  // The reference: a log that only grows, filtered to the last minute on every question.
  // ------------------------------------------------------------------------------------

  /** All a key ever recorded. `last` is the instant of its latest call. */
  datatype Log = Log(admitted: seq<int>, samples: seq<Sample>, last: int)

  function Live(times: seq<int>, now: int): seq<int> {
    if times == [] then []
    else if times[0] > now - MINUTE then [times[0]] + Live(times[1..], now)
    else Live(times[1..], now)
  }

  function LiveSamples(samples: seq<Sample>, now: int): seq<Sample> {
    if samples == [] then []
    else if samples[0].at > now - MINUTE then [samples[0]] + LiveSamples(samples[1..], now)
    else LiveSamples(samples[1..], now)
  }

  function Sum(samples: seq<Sample>): int {
    if samples == [] then 0 else samples[0].value + Sum(samples[1..])
  }

  /** The answer to a call at `now` whose waiting time is measured at `clock`. */
  function Decide(log: Log, rpm: int, tpm: int, now: int, clock: int): Decision {
    var requests := Live(log.admitted, now);
    var tokens := LiveSamples(log.samples, now);
    if rpm == 0 && tpm == 0 then Allowed
    else if rpm > 0 && |requests| >= rpm then Refused(requests[0] + MINUTE - clock, Rpm)
    else if tpm > 0 && Sum(tokens) >= tpm then Refused(tokens[0].at + MINUTE - clock, Tpm)
    else Allowed
  }

  function AfterAllow(log: Log, rpm: int, tpm: int, now: int): Log {
    if Decide(log, rpm, tpm, now, now).Allowed? then Log(log.admitted + [now], log.samples, now)
    else log.(last := now)
  }

  function AfterRecord(log: Log, tokens: int, now: int): Log {
    Log(log.admitted, log.samples + [Sample(now, tokens)], now)
  }

  function LogOf(logs: map<int, Log>, id: int, now: int): Log {
    if id in logs then logs[id] else Log([], [], now)
  }

  // ------------------------------------------------------------------------------------
  // Facts about the filters.
  // ------------------------------------------------------------------------------------

  ghost predicate Sorted(times: seq<int>) {
    forall i, j | 0 <= i <= j < |times| :: times[i] <= times[j]
  }

  ghost predicate SortedSamples(samples: seq<Sample>) {
    forall i, j | 0 <= i <= j < |samples| :: samples[i].at <= samples[j].at
  }

  /** Recorded in order, and nothing later than the latest call. */
  ghost predicate Ordered(log: Log) {
    && Sorted(log.admitted)
    && SortedSamples(log.samples)
    && (forall a | a in log.admitted :: a <= log.last)
    && (forall s | s in log.samples :: s.at <= log.last)
  }

  lemma OrderedAfterAdmission(log: Log, now: int)
    requires Ordered(log) && log.last <= now
    ensures Ordered(Log(log.admitted + [now], log.samples, now))
  {
    var next := log.admitted + [now];
    assert forall i | 0 <= i < |log.admitted| :: log.admitted[i] in log.admitted;
  }

  lemma OrderedAfterRecord(log: Log, tokens: int, now: int)
    requires Ordered(log) && log.last <= now
    ensures Ordered(AfterRecord(log, tokens, now))
  {
    assert forall i | 0 <= i < |log.samples| :: log.samples[i] in log.samples;
  }

  /** On an ordered log, dropping the expired prefix is the filter. */
  lemma {:induction false} LiveIsSuffix(times: seq<int>, now: int, k: nat)
    requires Sorted(times) && k <= |times|
    requires forall i | 0 <= i < k :: times[i] <= now - MINUTE
    requires k < |times| ==> times[k] > now - MINUTE
    ensures Live(times, now) == times[k..]
  {
    if times == [] {
    } else if k == 0 {
      assert forall i | 0 <= i < |times| :: times[i] > now - MINUTE;
      AllLive(times, now);
    } else {
      LiveIsSuffix(times[1..], now, k - 1);
      assert times[1..][k - 1..] == times[k..];
    }
  }

  lemma {:induction false} AllLive(times: seq<int>, now: int)
    requires forall i | 0 <= i < |times| :: times[i] > now - MINUTE
    ensures Live(times, now) == times
  {
    if times != [] {
      AllLive(times[1..], now);
    }
  }

  lemma {:induction false} LiveSamplesIsSuffix(samples: seq<Sample>, now: int, k: nat)
    requires SortedSamples(samples) && k <= |samples|
    requires forall i | 0 <= i < k :: samples[i].at <= now - MINUTE
    requires k < |samples| ==> samples[k].at > now - MINUTE
    ensures LiveSamples(samples, now) == samples[k..]
  {
    if samples == [] {
    } else if k == 0 {
      LiveSamplesIsSuffix(samples[1..], now, 0);
    } else {
      LiveSamplesIsSuffix(samples[1..], now, k - 1);
      assert samples[1..][k - 1..] == samples[k..];
    }
  }

  lemma {:induction false} LiveAgain(times: seq<int>, h: int, now: int)
    requires h <= now
    ensures Live(Live(times, h), now) == Live(times, now)
  {
    if times != [] {
      LiveAgain(times[1..], h, now);
      if times[0] > h - MINUTE {
        assert Live(times, h)[1..] == Live(times[1..], h);
      }
    }
  }

  lemma {:induction false} LiveSamplesAgain(samples: seq<Sample>, h: int, now: int)
    requires h <= now
    ensures LiveSamples(LiveSamples(samples, h), now) == LiveSamples(samples, now)
  {
    if samples != [] {
      LiveSamplesAgain(samples[1..], h, now);
      if samples[0].at > h - MINUTE {
        assert LiveSamples(samples, h)[1..] == LiveSamples(samples[1..], h);
      }
    }
  }

  /** Dropping the expired prefix of what was live at `h` leaves what is live at `now`. */
  lemma EvictedAreLive(times: seq<int>, h: int, now: int, k: nat)
    requires Sorted(times) && h <= now
    requires k <= |Live(times, h)|
    requires forall i | 0 <= i < k :: Live(times, h)[i] <= now - MINUTE
    requires k < |Live(times, h)| ==> Live(times, h)[k] > now - MINUTE
    ensures Live(times, h)[k..] == Live(times, now)
  {
    LiveStaysSorted(times, h);
    LiveIsSuffix(Live(times, h), now, k);
    LiveAgain(times, h, now);
  }

  lemma EvictedIsLive(samples: seq<Sample>, h: int, now: int, k: nat)
    requires SortedSamples(samples) && h <= now
    requires k <= |LiveSamples(samples, h)|
    requires forall i | 0 <= i < k :: LiveSamples(samples, h)[i].at <= now - MINUTE
    requires k < |LiveSamples(samples, h)| ==> LiveSamples(samples, h)[k].at > now - MINUTE
    ensures LiveSamples(samples, h)[k..] == LiveSamples(samples, now)
  {
    LiveSamplesStaySorted(samples, h);
    LiveSamplesIsSuffix(LiveSamples(samples, h), now, k);
    LiveSamplesAgain(samples, h, now);
  }

  lemma {:induction false} LiveAppend(times: seq<int>, t: int, now: int)
    requires t > now - MINUTE
    ensures Live(times + [t], now) == Live(times, now) + [t]
  {
    if times != [] {
      LiveAppend(times[1..], t, now);
      assert (times + [t])[1..] == times[1..] + [t];
    }
  }

  lemma {:induction false} LiveSamplesAppend(samples: seq<Sample>, s: Sample, now: int)
    requires s.at > now - MINUTE
    ensures LiveSamples(samples + [s], now) == LiveSamples(samples, now) + [s]
  {
    if samples != [] {
      LiveSamplesAppend(samples[1..], s, now);
      assert (samples + [s])[1..] == samples[1..] + [s];
    }
  }

  lemma {:induction false} SumAppend(samples: seq<Sample>, s: Sample)
    ensures Sum(samples + [s]) == Sum(samples) + s.value
  {
    if samples != [] {
      SumAppend(samples[1..], s);
      assert (samples + [s])[1..] == samples[1..] + [s];
    }
  }

  lemma {:induction false} LiveStaysSorted(times: seq<int>, now: int)
    requires Sorted(times)
    ensures Sorted(Live(times, now))
    ensures forall a | a in Live(times, now) :: a in times && a > now - MINUTE
  {
    if times != [] {
      LiveStaysSorted(times[1..], now);
    }
  }

  lemma {:induction false} LiveSamplesStaySorted(samples: seq<Sample>, now: int)
    requires SortedSamples(samples)
    ensures SortedSamples(LiveSamples(samples, now))
    ensures forall s | s in LiveSamples(samples, now) :: s in samples && s.at > now - MINUTE
  {
    if samples != [] {
      LiveSamplesStaySorted(samples[1..], now);
    }
  }

  // ------------------------------------------------------------------------------------
  // The implementation.
  // ------------------------------------------------------------------------------------

  class KeyWindow {
    var requests: seq<int>
    var requestHead: nat
    var tokens: seq<Sample>
    var tokenHead: nat
    var tokenTotal: int
    var lastAt: int

    /** The instant of the last eviction. */
    ghost var horizon: int

    /** The client key this window belongs to. */
    ghost const key: int

    constructor (now: int, ghost id: int)
      ensures Holds(Log([], [], now)) && key == id
    {
      key := id;
      requests, requestHead, tokens, tokenHead, tokenTotal := [], 0, [], 0, 0;
      lastAt, horizon := now, now;
    }

    /** What lies beyond the heads is the log filtered at the last eviction. */
    ghost predicate Holds(log: Log)
      reads this
    {
      && Ordered(log)
      && log.last == lastAt
      && horizon <= lastAt
      && requestHead <= |requests| && tokenHead <= |tokens|
      && requests[requestHead..] == Live(log.admitted, horizon)
      && tokens[tokenHead..] == LiveSamples(log.samples, horizon)
      && tokenTotal == Sum(tokens[tokenHead..])
    }

    predicate Empty()
      reads this
    {
      requestHead >= |requests| && tokenHead >= |tokens|
    }

    method Evict(now: int, ghost log: Log)
      requires Holds(log) && log.last <= now
      modifies this
      ensures Holds(log.(last := now)) && horizon == now
    {
      lastAt := now;
      EvictRequests(now, log);
      EvictTokens(now, log);
      horizon := now;
    }

    method EvictRequests(now: int, ghost log: Log)
      requires Sorted(log.admitted) && horizon <= now
      requires requestHead <= |requests|
      requires requests[requestHead..] == Live(log.admitted, horizon)
      modifies this`requestHead
      ensures requestHead <= |requests|
      ensures requests[requestHead..] == Live(log.admitted, now)
    {
      var cutoff := now - MINUTE;
      ghost var live := requests[requestHead..];
      ghost var h := requestHead;
      while requestHead < |requests| && requests[requestHead] <= cutoff
        invariant h <= requestHead <= |requests|
        invariant forall i | 0 <= i < requestHead - h :: live[i] <= cutoff
      {
        assert requests[requestHead] == live[requestHead - h];
        requestHead := requestHead + 1;
      }
      assert live[requestHead - h..] == requests[requestHead..];
      EvictedAreLive(log.admitted, horizon, now, requestHead - h);
    }

    method EvictTokens(now: int, ghost log: Log)
      requires SortedSamples(log.samples) && horizon <= now
      requires tokenHead <= |tokens|
      requires tokens[tokenHead..] == LiveSamples(log.samples, horizon)
      requires tokenTotal == Sum(tokens[tokenHead..])
      modifies this`tokenHead, this`tokenTotal
      ensures tokenHead <= |tokens|
      ensures tokens[tokenHead..] == LiveSamples(log.samples, now)
      ensures tokenTotal == Sum(tokens[tokenHead..])
    {
      var cutoff := now - MINUTE;
      ghost var live := tokens[tokenHead..];
      ghost var h := tokenHead;
      while tokenHead < |tokens| && tokens[tokenHead].at <= cutoff
        invariant h <= tokenHead <= |tokens|
        invariant forall i | 0 <= i < tokenHead - h :: live[i].at <= cutoff
        invariant tokenTotal == Sum(live[tokenHead - h..])
      {
        assert tokens[tokenHead] == live[tokenHead - h];
        assert live[tokenHead - h..][1..] == live[tokenHead + 1 - h..];
        tokenTotal := tokenTotal - tokens[tokenHead].value;
        tokenHead := tokenHead + 1;
      }
      assert live[tokenHead - h..] == tokens[tokenHead..];
      EvictedIsLive(log.samples, horizon, now, tokenHead - h);
    }

    /** The two limit checks. A refused key still has a live entry. */
    method Check(rpm: int, tpm: int, clock: int, ghost log: Log) returns (d: Decision)
      requires Holds(log) && log.last == horizon
      requires rpm != 0 || tpm != 0
      ensures d == Decide(log, rpm, tpm, log.last, clock)
      ensures d.Refused? ==> !Empty()
    {
      if rpm > 0 && |requests| - requestHead >= rpm {
        return Refused(requests[requestHead] + MINUTE - clock, Rpm);
      }
      if tpm > 0 && tokenTotal >= tpm {
        return Refused(tokens[tokenHead].at + MINUTE - clock, Tpm);
      }
      return Allowed;
    }

    /** Records an admission and drops the evicted prefixes once they are long enough. */
    method Admit(now: int, ghost log: Log)
      requires Holds(log) && log.last == horizon == now
      modifies this
      ensures Holds(Log(log.admitted + [now], log.samples, now)) && !Empty()
    {
      OrderedAfterAdmission(log, now);
      LiveAppend(log.admitted, now, now);
      assert (requests + [now])[requestHead..] == requests[requestHead..] + [now];
      requests := requests + [now];
      if requestHead > 128 && requestHead * 2 >= |requests| {
        requests := requests[requestHead..];
        requestHead := 0;
      }
      if tokenHead > 128 && tokenHead * 2 >= |tokens| {
        tokens := tokens[tokenHead..];
        tokenHead := 0;
      }
    }

    /** One call of a limited key: evict, check, and record it if it is admitted. */
    method Serve(rpm: int, tpm: int, now: int, clock: int, ghost log: Log) returns (d: Decision)
      requires Holds(log) && log.last <= now
      requires rpm != 0 || tpm != 0
      modifies this
      ensures d == Decide(log, rpm, tpm, now, clock)
      ensures Holds(AfterAllow(log, rpm, tpm, now)) && !Empty()
    {
      Evict(now, log);
      d := Check(rpm, tpm, clock, log.(last := now));
      if d.Allowed? {
        Admit(now, log.(last := now));
      }
    }

    method AddTokens(value: int, now: int, ghost log: Log)
      requires Holds(log) && log.last <= now
      modifies this
      ensures Holds(AfterRecord(log, value, now)) && !Empty()
    {
      OrderedAfterRecord(log, value, now);
      LiveSamplesAppend(log.samples, Sample(now, value), horizon);
      SumAppend(tokens[tokenHead..], Sample(now, value));
      assert (tokens + [Sample(now, value)])[tokenHead..] == tokens[tokenHead..] + [Sample(now, value)];
      tokens := tokens + [Sample(now, value)];
      tokenTotal := tokenTotal + value;
      lastAt := now;
    }
  }

  class LimiterShard {
    var windows: map<int, KeyWindow>
    var lastCleanup: int
    ghost const index: nat

    constructor (ghost i: nat)
      ensures windows == map[] && lastCleanup == YEAR_ONE && index == i
    {
      index := i;
      windows := map[];
      lastCleanup := YEAR_ONE;
    }

    /** Deletes windows that are both idle and empty, and touches no other. */
    method CleanUp(now: int)
      modifies this
      ensures windows.Keys <= old(windows.Keys)
      ensures forall id | id in windows :: windows[id] == old(windows)[id]
      ensures forall id | id in old(windows) && id !in windows :: old(windows)[id].Empty()
    {
      if |windows| > 1024 && now - lastCleanup >= IDLE {
        ghost var was := windows;
        var ids := windows.Keys;
        while ids != {}
          invariant ids <= windows.Keys <= was.Keys
          invariant forall id | id in windows :: windows[id] == was[id]
          invariant forall id | id in was && id !in windows :: was[id].Empty()
          decreases ids
        {
          var id := Iteration.AnyOf(ids);
          var item := windows[id];
          if now - item.lastAt >= IDLE && item.Empty() {
            windows := windows - {id};
          }
          ids := ids - {id};
        }
        lastCleanup := now;
      }
    }
  }

  function ShardIndex(id: int): (i: nat)
    ensures i < 64
  {
    // uint64(id) % 64; 64 divides 2^64, so the wrap of a negative id does not matter.
    id % 64
  }

  /** The part of `windows` that belongs to shard i. */
  ghost function InShard(windows: map<int, KeyWindow>, i: nat): map<int, KeyWindow> {
    map k | k in windows && ShardIndex(k) == i :: windows[k]
  }

  lemma InShardAt(windows: map<int, KeyWindow>, id: int)
    ensures id in InShard(windows, ShardIndex(id)) <==> id in windows
    ensures id in windows ==> InShard(windows, ShardIndex(id))[id] == windows[id]
  {
  }

  lemma InShardUpdate(windows: map<int, KeyWindow>, id: int, w: KeyWindow, i: nat)
    ensures InShard(windows[id := w], i) ==
            if ShardIndex(id) == i then InShard(windows, i)[id := w] else InShard(windows, i)
  {
  }

  class ClientKeyLimiter {
    const shards: seq<LimiterShard>

    /** What every recorded key has recorded, and its window. */
    ghost var logs: map<int, Log>
    ghost var windows: map<int, KeyWindow>
    ghost var Repr: set<object>

    /** The shards split the windows by key. */
    ghost predicate Sharded()
      reads this, shards
    {
      && |shards| == 64
      && forall i | 0 <= i < 64 :: shards[i].index == i && shards[i].windows == InShard(windows, i)
    }

    ghost predicate WindowOk(k: int)
      requires k in windows
      reads this, windows[k]
    {
      && k in logs
      && windows[k].Holds(logs[k])
      && !windows[k].Empty()
    }

    /** Valid, but for what the window of `id` holds. */
    ghost predicate ValidExcept(id: int)
      reads this, Repr
    {
      && this in Repr
      && (forall s | s in shards :: s in Repr)
      && Sharded()
      && (forall k | k in windows :: windows[k] in Repr && windows[k].key == k)
      && logs.Keys <= windows.Keys
      && (forall k | k in windows && k != id :: WindowOk(k))
    }

    /** Every recorded key has a window of its own, never empty, that holds its log. */
    ghost predicate Valid()
      reads this, Repr
    {
      && this in Repr
      && (forall s | s in shards :: s in Repr)
      && Sharded()
      && (forall k | k in windows :: windows[k] in Repr && windows[k].key == k)
      && logs.Keys <= windows.Keys
      && (forall k | k in windows :: WindowOk(k))
    }

    constructor ()
      ensures Valid() && fresh(Repr) && logs == map[]
    {
      var made: seq<LimiterShard> := [];
      while |made| < 64
        invariant |made| <= 64
        invariant forall i | 0 <= i < |made| ::
                    fresh(made[i]) && made[i].windows == map[] && made[i].index == i
      {
        var shard := new LimiterShard(|made|);
        made := made + [shard];
      }
      shards := made;
      logs, windows := map[], map[];
      Repr := {this} + (set s: object | s in made);
    }

    /** The window of `id`, created empty if the shard has none. */
    method Window(id: int, now: int) returns (w: KeyWindow)
      requires Valid()
      requires id in logs ==> logs[id].last <= now
      modifies shards[ShardIndex(id)], this`windows, this`Repr
      ensures ValidExcept(id) && id in windows && windows[id] == w
      ensures w in old(Repr) || fresh(w)
      ensures Repr == old(Repr) + {w}
      ensures w.Holds(LogOf(logs, id, now))
    {
      hide KeyWindow.Holds, KeyWindow.Empty, InShard;
      InShardAt(windows, id);
      var shard := shards[ShardIndex(id)];
      if id in shard.windows {
        w := shard.windows[id];
      } else {
        w := new KeyWindow(now, id);
        shard.windows := shard.windows[id := w];
        forall i | 0 <= i < 64 {
          InShardUpdate(windows, id, w, i);
        }
        windows := windows[id := w];
        Repr := Repr + {w};
      }
    }

    /** Puts the log of `id` in place once its window holds it. */
    ghost method Settle(id: int, log: Log)
      requires ValidExcept(id) && id in windows
      requires windows[id].Holds(log) && !windows[id].Empty()
      modifies this`logs
      ensures Valid() && logs == old(logs)[id := log]
    {
      logs := logs[id := log];
    }

    /** No stored window is empty, so the clean-up never removes one. */
    method CleanUpShard(id: int, now: int)
      requires Valid()
      modifies shards[ShardIndex(id)]
      ensures Valid()
      ensures shards[ShardIndex(id)].windows == old(shards[ShardIndex(id)].windows)
    {
      hide KeyWindow.Holds, KeyWindow.Empty;
      var shard := shards[ShardIndex(id)];
      ghost var was := shard.windows;
      shard.CleanUp(now);
      assert forall k | k in was :: was[k] == windows[k] && WindowOk(k);
      assert shard.windows == was;
    }

    /** The answer is the reference's, and only this key's log moves. The clock must not run
        backwards between calls of one key. */
    method Allow(id: int, rpm: int, tpm: int, now: int, clock: int) returns (d: Decision)
      requires Valid()
      requires id in logs ==> logs[id].last <= now
      modifies Repr
      ensures Valid() && fresh(Repr - old(Repr))
      ensures d == Decide(LogOf(old(logs), id, now), rpm, tpm, now, clock)
      ensures logs == if rpm == 0 && tpm == 0 then old(logs)
                      else old(logs)[id := AfterAllow(LogOf(old(logs), id, now), rpm, tpm, now)]
    {
      if rpm == 0 && tpm == 0 {
        d := Allowed;
        return;
      }
      hide Valid, Decide, AfterAllow;
      d := ServeKey(id, rpm, tpm, now, clock);
      if d.Allowed? {
        ShardsBelong();
        CleanUpShard(id, now);
      }
    }

    lemma ShardsBelong()
      requires Valid()
      ensures this in Repr && |shards| == 64 && forall s | s in shards :: s in Repr
    {
    }

    /** The call of a limited key, before the clean-up. */
    method ServeKey(id: int, rpm: int, tpm: int, now: int, clock: int) returns (d: Decision)
      requires Valid() && (rpm != 0 || tpm != 0)
      requires id in logs ==> logs[id].last <= now
      modifies Repr
      ensures Valid() && fresh(Repr - old(Repr))
      ensures d == Decide(LogOf(old(logs), id, now), rpm, tpm, now, clock)
      ensures logs == old(logs)[id := AfterAllow(LogOf(old(logs), id, now), rpm, tpm, now)]
    {
      hide KeyWindow.Holds, KeyWindow.Empty, Decide, AfterAllow, InShard;
      ghost var log := LogOf(logs, id, now);
      var w := Window(id, now);
      d := w.Serve(rpm, tpm, now, clock, log);
      Settle(id, AfterAllow(log, rpm, tpm, now));
    }

    /** Records the tokens of a finished request; keyless and empty reports are ignored. */
    method RecordTokens(id: int, usage: Usage, now: int)
      requires Valid()
      requires id in logs ==> logs[id].last <= now
      modifies Repr
      ensures Valid() && fresh(Repr - old(Repr))
      ensures logs == if id == 0 || usage.Absent? || usage.tokens <= 0 then old(logs)
                      else old(logs)[id := AfterRecord(LogOf(old(logs), id, now), usage.tokens, now)]
    {
      if id == 0 || usage.Absent? || usage.tokens <= 0 {
        return;
      }
      StoreTokens(id, usage.tokens, now);
    }

    method StoreTokens(id: int, tokens: int, now: int)
      requires Valid()
      requires id in logs ==> logs[id].last <= now
      modifies Repr
      ensures Valid() && fresh(Repr - old(Repr))
      ensures logs == old(logs)[id := AfterRecord(LogOf(old(logs), id, now), tokens, now)]
    {
      hide KeyWindow.Holds, KeyWindow.Empty, AfterRecord, InShard;
      ghost var log := LogOf(logs, id, now);
      var w := Window(id, now);
      w.AddTokens(tokens, now, log);
      Settle(id, AfterRecord(log, tokens, now));
    }
  }
}
