/** What the limiter promises over whole runs, proved about the reference log that
    `ClientKeyLimiter.Allow` and `ClientKeyLimiter.RecordTokens` are proved to follow. */
module KeyLimiterLaws {
  import opened KeyLimiter

  /** The window, in nanoseconds. */
  const SIXTY_SECONDS := 60_000_000_000

  datatype Call =
    | Ask(id: int, rpm: int, tpm: int, now: int, clock: int)
    | Report(id: int, usage: Usage, now: int)

  /** The state change the two methods ensure. */
  function Step(logs: map<int, Log>, c: Call): map<int, Log> {
    match c
    case Ask(id, rpm, tpm, now, _) =>
      if rpm == 0 && tpm == 0 then logs
      else logs[id := AfterAllow(LogOf(logs, id, now), rpm, tpm, now)]
    case Report(id, usage, now) =>
      if id == 0 || usage.Absent? || usage.tokens <= 0 then logs
      else logs[id := AfterRecord(LogOf(logs, id, now), usage.tokens, now)]
  }

  function Run(logs: map<int, Log>, calls: seq<Call>): map<int, Log>
    decreases |calls|
  {
    if calls == [] then logs else Run(Step(logs, calls[0]), calls[1..])
  }

  /** The answers key `id` receives during a run. */
  function Answers(logs: map<int, Log>, calls: seq<Call>, id: int): seq<Decision>
    decreases |calls|
  {
    if calls == [] then []
    else
      var rest := Answers(Step(logs, calls[0]), calls[1..], id);
      match calls[0]
      case Ask(k, rpm, tpm, now, clock) =>
        if k == id then [Decide(LogOf(logs, id, now), rpm, tpm, now, clock)] + rest else rest
      case Report(_, _, _) => rest
  }

  function Only(calls: seq<Call>, id: int): seq<Call> {
    if calls == [] then []
    else if calls[0].id == id then [calls[0]] + Only(calls[1..], id)
    else Only(calls[1..], id)
  }

  /** No key can tell that another one exists: its answers in any run are its answers in the
      run of its own calls. */
  lemma {:induction false} KeysAreIndependent(
      logs: map<int, Log>, alone: map<int, Log>, calls: seq<Call>, id: int)
    requires id in logs <==> id in alone
    requires id in logs ==> logs[id] == alone[id]
    ensures Answers(logs, calls, id) == Answers(alone, Only(calls, id), id)
    decreases |calls|
  {
    if calls != [] {
      if calls[0].id == id {
        KeysAreIndependent(Step(logs, calls[0]), Step(alone, calls[0]), calls[1..], id);
        assert Only(calls, id)[1..] == Only(calls[1..], id);
      } else {
        KeysAreIndependent(Step(logs, calls[0]), alone, calls[1..], id);
      }
    }
  }

  /** The clock never runs backwards between calls of `id` that touch its window. */
  ghost predicate ClockForward(logs: map<int, Log>, calls: seq<Call>, id: int)
    decreases |calls|
  {
    calls != [] ==>
      && (calls[0].id == id && id in logs ==> logs[id].last <= calls[0].now)
      && ClockForward(Step(logs, calls[0]), calls[1..], id)
  }

  /** Every request limit `id` is asked with is `limit`. */
  ghost predicate ConstantRpm(calls: seq<Call>, id: int, limit: int) {
    forall c | c in calls && c.id == id && c.Ask? :: c.rpm == limit
  }

  /** Admission i + limit comes at least a minute after admission i. */
  ghost predicate Spaced(times: seq<int>, limit: nat) {
    forall i | 0 <= i && i + limit < |times| :: times[i] + SIXTY_SECONDS <= times[i + limit]
  }

  ghost predicate Disciplined(log: Log, limit: nat) {
    Ordered(log) && Spaced(log.admitted, limit)
  }

  /** Fewer than `limit` live admissions means the one `limit` places back has expired. */
  lemma {:induction false} LiveCount(times: seq<int>, now: int, k: nat)
    requires Sorted(times) && k < |times| && times[k] > now - SIXTY_SECONDS
    ensures |Live(times, now)| >= |times| - k
  {
    if k > 0 {
      LiveCount(times[1..], now, k - 1);
    } else {
      AllLive(times, now);
    }
  }

  lemma AdmissionKeepsSpacing(log: Log, limit: nat, now: int)
    requires limit > 0 && Disciplined(log, limit) && log.last <= now
    requires |Live(log.admitted, now)| < limit
    ensures Spaced(log.admitted + [now], limit)
  {
    var next := log.admitted + [now];
    var i := |log.admitted| - limit;
    if i >= 0 && log.admitted[i] > now - SIXTY_SECONDS {
      LiveCount(log.admitted, now, i);
    }
  }

  lemma StepKeepsDiscipline(logs: map<int, Log>, c: Call, id: int, limit: nat)
    requires limit > 0
    requires c.id == id && c.Ask? ==> c.rpm == limit
    requires c.id == id && id in logs ==> logs[id].last <= c.now
    requires id in logs ==> Disciplined(logs[id], limit)
    ensures id in Step(logs, c) ==> Disciplined(Step(logs, c)[id], limit)
  {
    if c.id == id {
      var log := LogOf(logs, id, c.now);
      match c
      case Ask(_, rpm, tpm, now, _) =>
        if Decide(log, rpm, tpm, now, now).Allowed? {
          AdmissionKeepsSpacing(log, limit, now);
          OrderedAfterAdmission(log, now);
        }
      case Report(_, usage, now) =>
        if usage.Total? {
          OrderedAfterRecord(log, usage.tokens, now);
        }
    }
  }

  lemma {:induction false} RunKeepsDiscipline(
      logs: map<int, Log>, calls: seq<Call>, id: int, limit: nat)
    requires limit > 0
    requires ConstantRpm(calls, id, limit) && ClockForward(logs, calls, id)
    requires id in logs ==> Disciplined(logs[id], limit)
    ensures id in Run(logs, calls) ==> Disciplined(Run(logs, calls)[id], limit)
    decreases |calls|
  {
    if calls != [] {
      StepKeepsDiscipline(logs, calls[0], id, limit);
      RunKeepsDiscipline(Step(logs, calls[0]), calls[1..], id, limit);
    }
  }

  /** The admissions in the minute that ends at t. */
  function Within(times: seq<int>, t: int): seq<int> {
    if times == [] then []
    else if t - SIXTY_SECONDS < times[0] <= t then [times[0]] + Within(times[1..], t)
    else Within(times[1..], t)
  }

  lemma {:induction false} WithinPrefix(times: seq<int>, t: int, k: nat)
    requires k <= |times| && forall i | k <= i < |times| :: times[i] > t
    ensures |Within(times, t)| <= k
  {
    if times != [] {
      WithinPrefix(times[1..], t, if k > 0 then k - 1 else 0);
    }
  }

  lemma {:induction false} SpacedWindow(times: seq<int>, limit: nat, t: int)
    requires limit > 0 && Sorted(times) && Spaced(times, limit)
    ensures |Within(times, t)| <= limit
  {
    if times != [] {
      if times[0] <= t - SIXTY_SECONDS {
        forall i | 0 <= i && i + limit < |times[1..]|
          ensures times[1..][i] + SIXTY_SECONDS <= times[1..][i + limit]
        {
          assert times[i + 1] + SIXTY_SECONDS <= times[i + 1 + limit];
        }
        SpacedWindow(times[1..], limit, t);
      } else {
        var k := if limit < |times| then limit else |times|;
        if limit < |times| {
          assert times[0 + limit] >= times[0] + SIXTY_SECONDS;
        }
        WithinPrefix(times, t, k);
      }
    }
  }

  /** No minute of any run admits more than the limit. */
  lemma NoMinuteExceedsTheLimit(calls: seq<Call>, id: int, limit: nat, t: int)
    requires limit > 0
    requires ConstantRpm(calls, id, limit) && ClockForward(map[], calls, id)
    requires id in Run(map[], calls)
    ensures |Within(Run(map[], calls)[id].admitted, t)| <= limit
  {
    RunKeepsDiscipline(map[], calls, id, limit);
    SpacedWindow(Run(map[], calls)[id].admitted, limit, t);
  }

  /** The duration reported with a request-limit refusal is exact: without a token limit and
      without another call, the key is refused at every instant before it and admitted from
      it on. */
  lemma RpmWaitIsExact(
      calls: seq<Call>, id: int, limit: nat, now: int, clock: int, t: int, clock': int)
    requires limit > 0
    requires ConstantRpm(calls, id, limit) && ClockForward(map[], calls, id)
    requires id in Run(map[], calls)
    requires Run(map[], calls)[id].last <= now <= t
    requires Decide(Run(map[], calls)[id], limit, 0, now, clock).Refused?
    ensures var log := Run(map[], calls)[id];
            var wait := Decide(log, limit, 0, now, clock).wait;
            Decide(log, limit, 0, t, clock').Refused? <==> t < clock + wait
  {
    RunKeepsDiscipline(map[], calls, id, limit);
    var log := Run(map[], calls)[id];
    var times := log.admitted;
    var k := FirstLive(times, now);
    LiveIsSuffix(times, now, k);
    var last := |times| - 1 - limit;
    assert last >= 0 ==> times[last] + SIXTY_SECONDS <= times[last + limit] && times[last + limit] in times;
    assert |times| - k == limit;
    if t < times[k] + SIXTY_SECONDS {
      LiveCount(times, t, k);
    } else {
      var j := FirstLive(times, t);
      LiveIsSuffix(times, t, j);
      assert j > k;
    }
  }

  /** Where the live part of an ordered log starts. */
  function FirstLive(times: seq<int>, now: int): (k: nat)
    ensures k <= |times|
    ensures forall i | 0 <= i < k :: times[i] <= now - SIXTY_SECONDS
    ensures k < |times| ==> times[k] > now - SIXTY_SECONDS
  {
    if times == [] || times[0] > now - SIXTY_SECONDS then 0 else 1 + FirstLive(times[1..], now)
  }

  // ------------------------------------------------------------------------------------
  // Every answer of every run, from what was admitted and reported before.
  // ------------------------------------------------------------------------------------

  /** The answer to a call after these calls. */
  function Verdict(calls: seq<Call>, c: Call): Decision
    requires c.Ask?
  {
    Decide(LogOf(Run(map[], calls), c.id, c.now), c.rpm, c.tpm, c.now, c.clock)
  }

  /** The instants at which the key was admitted under some limit. */
  function Admissions(calls: seq<Call>, id: int): seq<int> {
    if calls == [] then []
    else
      var front, c := calls[..|calls| - 1], calls[|calls| - 1];
      Admissions(front, id)
      + if c.Ask? && c.id == id && (c.rpm != 0 || c.tpm != 0) && Verdict(front, c).Allowed? then [c.now] else []
  }

  /** The tokens reported for the key, with their instants. */
  function Reports(calls: seq<Call>, id: int): seq<Sample> {
    if calls == [] then []
    else
      var front, c := calls[..|calls| - 1], calls[|calls| - 1];
      Reports(front, id)
      + if c.Report? && c.id == id && id != 0 && c.usage.Total? && c.usage.tokens > 0
        then [Sample(c.now, c.usage.tokens)] else []
  }

  function WithinSamples(samples: seq<Sample>, t: int): seq<Sample> {
    if samples == [] then []
    else if t - SIXTY_SECONDS < samples[0].at <= t then [samples[0]] + WithinSamples(samples[1..], t)
    else WithinSamples(samples[1..], t)
  }

  function Tokens(samples: seq<Sample>): int {
    if samples == [] then 0 else samples[0].value + Tokens(samples[1..])
  }

  lemma {:induction false} RunAppend(logs: map<int, Log>, calls: seq<Call>, c: Call)
    ensures Run(logs, calls + [c]) == Step(Run(logs, calls), c)
    decreases |calls|
  {
    hide Step;
    if calls == [] {
      assert ([] + [c])[1..] == [];
      assert Run(Step(logs, c), []) == Step(logs, c);
    } else {
      assert (calls + [c])[1..] == calls[1..] + [c];
      RunAppend(Step(logs, calls[0]), calls[1..], c);
    }
  }

  lemma {:induction false} AnswersAppend(logs: map<int, Log>, calls: seq<Call>, c: Call)
    requires c.Ask?
    ensures Answers(logs, calls + [c], c.id) ==
            Answers(logs, calls, c.id) + [Decide(LogOf(Run(logs, calls), c.id, c.now), c.rpm, c.tpm, c.now, c.clock)]
    decreases |calls|
  {
    hide Step, Decide;
    if calls == [] {
      assert ([] + [c])[1..] == [];
      assert Answers(Step(logs, c), [], c.id) == [];
    } else {
      assert (calls + [c])[1..] == calls[1..] + [c];
      AnswersAppend(Step(logs, calls[0]), calls[1..], c);
    }
  }

  lemma {:induction false} ForwardAppend(logs: map<int, Log>, calls: seq<Call>, c: Call, id: int)
    ensures ClockForward(logs, calls + [c], id) ==> ClockForward(logs, calls, id)
    ensures ClockForward(logs, calls + [c], id) && c.id == id && id in Run(logs, calls) ==>
              Run(logs, calls)[id].last <= c.now
    decreases |calls|
  {
    hide Step;
    if calls == [] {
    } else {
      assert (calls + [c])[1..] == calls[1..] + [c];
      ForwardAppend(Step(logs, calls[0]), calls[1..], c, id);
    }
  }

  /** What a run leaves of a key is exactly what it was admitted and what was reported. */
  lemma {:induction false} LogIsHistory(calls: seq<Call>, id: int)
    ensures if id in Run(map[], calls) then
              && Run(map[], calls)[id].admitted == Admissions(calls, id)
              && Run(map[], calls)[id].samples == Reports(calls, id)
            else Admissions(calls, id) == [] && Reports(calls, id) == []
  {
    if calls != [] {
      var front, c := calls[..|calls| - 1], calls[|calls| - 1];
      assert calls == front + [c];
      LogIsHistory(front, id);
      RunAppend(map[], front, c);
      hide Decide, Run;
      SameGuard(LogOf(Run(map[], front), c.id, c.now), c);
    }
  }

  lemma SameGuard(log: Log, c: Call)
    ensures c.Ask? ==> (Decide(log, c.rpm, c.tpm, c.now, c.now).Allowed? <==>
                        Decide(log, c.rpm, c.tpm, c.now, c.clock).Allowed?)
  {
  }

  lemma {:induction false} LiveIsWithin(times: seq<int>, now: int)
    requires forall a | a in times :: a <= now
    ensures Live(times, now) == Within(times, now)
  {
    if times != [] {
      assert times[0] in times && forall a | a in times[1..] :: a in times;
      LiveIsWithin(times[1..], now);
    }
  }

  lemma {:induction false} LiveSamplesAreWithin(samples: seq<Sample>, now: int)
    requires forall s | s in samples :: s.at <= now
    ensures LiveSamples(samples, now) == WithinSamples(samples, now)
  {
    if samples != [] {
      LiveSamplesAreWithin(samples[1..], now);
    }
  }

  lemma {:induction false} SumIsTokens(samples: seq<Sample>)
    ensures Sum(samples) == Tokens(samples)
  {
    if samples != [] {
      SumIsTokens(samples[1..]);
    }
  }

  /** The answer to every call of every run. The key is allowed if and only if its admissions
      of the last minute are fewer than its request limit, if it has one, and the tokens
      reported in the last minute are fewer than its token limit, if it has one. A refusal
      names the request limit whenever that is reached, and announces the instant at which the
      oldest entry of the minute expires. */
  lemma AllowedIff(calls: seq<Call>, c: Call)
    requires c.Ask? && ClockForward(map[], calls + [c], c.id)
    ensures var answers := Answers(map[], calls + [c], c.id);
            var requests := Within(Admissions(calls, c.id), c.now);
            var samples := WithinSamples(Reports(calls, c.id), c.now);
            var asked := c.rpm > 0 && |requests| >= c.rpm;
            var spent := c.tpm > 0 && Tokens(samples) >= c.tpm;
            && answers == Answers(map[], calls, c.id) + [Verdict(calls, c)]
            && (Verdict(calls, c).Allowed? <==> !asked && !spent)
            && (asked ==> Verdict(calls, c) == Refused(requests[0] + SIXTY_SECONDS - c.clock, Rpm))
            && (spent && !asked ==>
                  samples != [] && Verdict(calls, c) == Refused(samples[0].at + SIXTY_SECONDS - c.clock, Tpm))
  {
    hide Run, Step, Answers, Admissions, Reports, ClockForward;
    AnswersAppend(map[], calls, c);
    ForwardAppend(map[], calls, c, c.id);
    LogIsHistory(calls, c.id);
    var none: map<int, Log> := map[];
    RunKeepsOrder(none, calls, c.id);
    var log := LogOf(Run(map[], calls), c.id, c.now);
    LiveIsWithin(log.admitted, c.now);
    LiveSamplesAreWithin(log.samples, c.now);
    SumIsTokens(WithinSamples(log.samples, c.now));
  }

  // ------------------------------------------------------------------------------------
  // The wait announced with a token-limit refusal.
  // ------------------------------------------------------------------------------------

  /** The tokens reported at exactly this instant. */
  function SumAt(samples: seq<Sample>, at: int): int {
    if samples == [] then 0
    else (if samples[0].at == at then samples[0].value else 0) + SumAt(samples[1..], at)
  }

  /** Reports count only if they are positive. */
  ghost predicate Positive(log: Log) {
    forall s | s in log.samples :: s.value > 0
  }

  /** What is live of a key just refused for tokens. */
  function Pending(log: Log, now: int): seq<Sample> {
    LiveSamples(log.samples, now)
  }

  /** Once the oldest live reports expire, the rest is below the limit: what a caller can see
      before the call. */
  predicate RestIsBelow(live: seq<Sample>, tpm: int)
    requires live != []
  {
    Sum(live) - SumAt(live, live[0].at) < tpm
  }

  /** Dropping what was reported at the oldest instant. */
  lemma {:induction false} AfterTheOldest(samples: seq<Sample>, at: int)
    requires forall s | s in samples :: s.at >= at
    ensures Sum(LiveSamples(samples, at + SIXTY_SECONDS)) == Sum(samples) - SumAt(samples, at)
  {
    if samples != [] {
      AfterTheOldest(samples[1..], at);
      if samples[0].at > at {
        assert LiveSamples(samples, at + SIXTY_SECONDS)[1..] == LiveSamples(samples[1..], at + SIXTY_SECONDS);
      }
    }
  }

  lemma {:induction false} LaterSumIsSmaller(samples: seq<Sample>, t: int, u: int)
    requires t <= u && forall s | s in samples :: s.value > 0
    ensures 0 <= Sum(LiveSamples(samples, u)) <= Sum(LiveSamples(samples, t))
  {
    if samples != [] {
      LaterSumIsSmaller(samples[1..], t, u);
      LiveSum(samples, t);
      LiveSum(samples, u);
    }
  }

  lemma LiveSum(samples: seq<Sample>, now: int)
    requires samples != []
    ensures Sum(LiveSamples(samples, now)) ==
            (if samples[0].at > now - SIXTY_SECONDS then samples[0].value else 0) + Sum(LiveSamples(samples[1..], now))
  {
    if samples[0].at > now - SIXTY_SECONDS {
      assert LiveSamples(samples, now)[1..] == LiveSamples(samples[1..], now);
    }
  }

  lemma {:induction false} LaterCountIsSmaller(times: seq<int>, t: int, u: int)
    requires t <= u
    ensures |Live(times, u)| <= |Live(times, t)|
  {
    if times != [] {
      LaterCountIsSmaller(times[1..], t, u);
    }
  }

  /** What a token refusal says: the request limit was not reached, and something is live. */
  lemma TokenRefusal(log: Log, rpm: int, tpm: int, now: int, clock: int)
    requires Decide(log, rpm, tpm, now, clock).Refused? && Decide(log, rpm, tpm, now, clock).limit.Tpm?
    ensures var live := Pending(log, now);
            && live != [] && tpm > 0 && Sum(live) >= tpm
            && clock + Decide(log, rpm, tpm, now, clock).wait == live[0].at + SIXTY_SECONDS
            && (rpm > 0 ==> |Live(log.admitted, now)| < rpm)
  {
  }

  /** Without another call, a key refused for tokens stays refused exactly while its live
      tokens reach the limit, whatever its request limit. */
  lemma LaterDecision(log: Log, rpm: int, tpm: int, now: int, clock: int, t: int, clock': int)
    requires Decide(log, rpm, tpm, now, clock).Refused? && Decide(log, rpm, tpm, now, clock).limit.Tpm?
    requires now <= t
    ensures Decide(log, rpm, tpm, t, clock').Refused? <==> Sum(LiveSamples(log.samples, t)) >= tpm
  {
    TokenRefusal(log, rpm, tpm, now, clock);
    LaterCountIsSmaller(log.admitted, now, t);
  }

  /** Nothing is admitted before the announced instant. */
  lemma TpmWaitIsALowerBound(
      log: Log, rpm: int, tpm: int, now: int, clock: int, t: int, clock': int)
    requires Ordered(log) && log.last <= now <= t
    requires Decide(log, rpm, tpm, now, clock).Refused? && Decide(log, rpm, tpm, now, clock).limit.Tpm?
    requires t < clock + Decide(log, rpm, tpm, now, clock).wait
    ensures Decide(log, rpm, tpm, t, clock').Refused?
  {
    var live := Pending(log, now);
    TokenRefusal(log, rpm, tpm, now, clock);
    LiveSamplesStaySorted(log.samples, now);
    LiveSamplesIsSuffix(live, t, 0);
    LiveSamplesAgain(log.samples, now, t);
    LaterDecision(log, rpm, tpm, now, clock, t, clock');
  }

  lemma LogIsSorted(log: Log)
    requires Ordered(log)
    ensures SortedSamples(log.samples)
  {
  }

  /** At the announced instant the key is admitted if and only if what is live now, without
      what was reported at its oldest instant, is below the limit. */
  lemma AdmittedWhenAnnounced(log: Log, rpm: int, tpm: int, now: int, clock: int, clock': int)
    requires Ordered(log) && log.last <= now
    requires Decide(log, rpm, tpm, now, clock).Refused? && Decide(log, rpm, tpm, now, clock).limit.Tpm?
    ensures var live := Pending(log, now);
            && live != []
            && (Decide(log, rpm, tpm, live[0].at + SIXTY_SECONDS, clock').Allowed? <==> RestIsBelow(live, tpm))
  {
    hide Decide, LiveSamples, Sum, SumAt, Ordered;
    LogIsSorted(log);
    var live := Pending(log, now);
    TokenRefusal(log, rpm, tpm, now, clock);
    var announced := live[0].at + SIXTY_SECONDS;
    LiveSamplesStaySorted(log.samples, now);
    assert live[0] in live;
    forall s | s in live
      ensures s.at >= live[0].at
    {
      var k :| 0 <= k < |live| && live[k] == s;
    }
    AfterTheOldest(live, live[0].at);
    LiveSamplesAgain(log.samples, now, announced);
    LaterDecision(log, rpm, tpm, now, clock, announced, clock');
  }

  lemma {:induction false} RunKeepsOrder(logs: map<int, Log>, calls: seq<Call>, id: int)
    requires ClockForward(logs, calls, id)
    requires id in logs ==> Ordered(logs[id]) && Positive(logs[id])
    ensures id in Run(logs, calls) ==> Ordered(Run(logs, calls)[id]) && Positive(Run(logs, calls)[id])
    decreases |calls|
  {
    if calls != [] {
      StepKeepsOrder(logs, calls[0], id);
      RunKeepsOrder(Step(logs, calls[0]), calls[1..], id);
    }
  }

  lemma StepKeepsOrder(logs: map<int, Log>, c: Call, id: int)
    requires c.id == id && id in logs ==> logs[id].last <= c.now
    requires id in logs ==> Ordered(logs[id]) && Positive(logs[id])
    ensures id in Step(logs, c) ==> Ordered(Step(logs, c)[id]) && Positive(Step(logs, c)[id])
  {
    if c.id == id {
      var log := LogOf(logs, id, c.now);
      hide Decide;
      match c
      case Ask(_, _, _, now, _) => OrderedAfterAdmission(log, now);
      case Report(_, usage, now) =>
        if usage.Total? {
          OrderedAfterRecord(log, usage.tokens, now);
        }
    }
  }

  /** When the announced duration is exact: after any run, for any request limit, the key is
      refused at precisely the instants before the announced one if and only if what was live
      at the refusal, without its oldest instant, is below the limit. */
  lemma TpmWaitIsExactIff(
      calls: seq<Call>, id: int, rpm: int, tpm: int, now: int, clock: int, clock': int)
    requires ClockForward(map[], calls, id) && id in Run(map[], calls)
    requires Run(map[], calls)[id].last <= now
    requires Decide(Run(map[], calls)[id], rpm, tpm, now, clock).Refused?
    requires Decide(Run(map[], calls)[id], rpm, tpm, now, clock).limit.Tpm?
    ensures var log := Run(map[], calls)[id];
            var wait := Decide(log, rpm, tpm, now, clock).wait;
            && Pending(log, now) != []
            && ((forall t | now <= t ::
                   Decide(log, rpm, tpm, t, clock').Refused? <==> t < clock + wait)
                <==> RestIsBelow(Pending(log, now), tpm))
  {
    RunKeepsOrder(map[], calls, id);
    var log := Run(map[], calls)[id];
    var live := Pending(log, now);
    TokenRefusal(log, rpm, tpm, now, clock);
    var announced := live[0].at + SIXTY_SECONDS;
    AdmittedWhenAnnounced(log, rpm, tpm, now, clock, clock');
    LiveSamplesStaySorted(log.samples, now);
    assert live[0] in live;
    hide Decide;
    if RestIsBelow(live, tpm) {
      forall t | now <= t
        ensures Decide(log, rpm, tpm, t, clock').Refused? <==> t < announced
      {
        if t < announced {
          TpmWaitIsALowerBound(log, rpm, tpm, now, clock, t, clock');
        } else {
          LaterDecision(log, rpm, tpm, now, clock, announced, clock');
          LaterDecision(log, rpm, tpm, now, clock, t, clock');
          LaterSumIsSmaller(log.samples, announced, t);
        }
      }
    }
  }

  const TWO_REPORTS := [Report(1, Total(1), 0), Report(1, Total(5), 1_000_000_000)]
  const TWO_SAMPLES := [Sample(0, 1), Sample(1_000_000_000, 5)]

  lemma TwoReportsLeaveTwoSamples()
    ensures ClockForward(map[], TWO_REPORTS, 1)
    ensures Run(map[], TWO_REPORTS) == map[1 := Log([], TWO_SAMPLES, 1_000_000_000)]
  {
    var none: map<int, Log> := map[];
    var first := map[1 := Log([], [TWO_SAMPLES[0]], 0)];
    assert Step(none, TWO_REPORTS[0]) == first by {
      assert [] + [TWO_SAMPLES[0]] == [TWO_SAMPLES[0]];
    }
    assert Step(first, TWO_REPORTS[1]) == map[1 := Log([], TWO_SAMPLES, 1_000_000_000)] by {
      assert [TWO_SAMPLES[0]] + [TWO_SAMPLES[1]] == TWO_SAMPLES;
    }
    hide Step;
    assert TWO_REPORTS[1..] == [TWO_REPORTS[1]] && [TWO_REPORTS[1]][1..] == [];
    assert Run(first, [TWO_REPORTS[1]]) == Run(Step(first, TWO_REPORTS[1]), []);
  }

  lemma TwoSamples()
    ensures Sum(TWO_SAMPLES) == 6 && SumAt(TWO_SAMPLES, 0) == 1
    ensures LiveSamples(TWO_SAMPLES, 2_000_000_000) == TWO_SAMPLES
    ensures Ordered(Log([], TWO_SAMPLES, 1_000_000_000))
  {
    assert TWO_SAMPLES[1..] == [TWO_SAMPLES[1]];
    assert Sum(TWO_SAMPLES[1..]) == 5;
    assert SumAt(TWO_SAMPLES[1..], 0) == 0;
    LiveSamplesIsSuffix(TWO_SAMPLES, 2_000_000_000, 0);
  }

  /** A run in which it is not: of two reports a second apart, the second alone reaches the
      limit, so the key is still refused when the announced duration is over. */
  lemma TpmWaitCanBeTooShort()
    ensures ClockForward(map[], TWO_REPORTS, 1) && 1 in Run(map[], TWO_REPORTS)
    ensures var log := Run(map[], TWO_REPORTS)[1];
            && Decide(log, 0, 5, 2_000_000_000, 2_000_000_000) == Refused(SIXTY_SECONDS - 2_000_000_000, Tpm)
            && Pending(log, 2_000_000_000) != [] && !RestIsBelow(Pending(log, 2_000_000_000), 5)
            && Decide(log, 0, 5, SIXTY_SECONDS, SIXTY_SECONDS).Refused?
  {
    TwoReportsLeaveTwoSamples();
    TwoSamples();
    hide Run, Step, ClockForward, Sum, SumAt, LiveSamples, Ordered;
    var log := Log([], TWO_SAMPLES, 1_000_000_000);
    assert Decide(log, 0, 5, 2_000_000_000, 2_000_000_000) == Refused(SIXTY_SECONDS - 2_000_000_000, Tpm);
    AdmittedWhenAnnounced(log, 0, 5, 2_000_000_000, 2_000_000_000, SIXTY_SECONDS);
  }
}
