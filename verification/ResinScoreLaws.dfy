/** What the score store promises over whole runs of picks and observations. */
module ResinScoreLaws {
  import opened ResinScores
  import Arithmetic

  // ------------------------------------------------------------------------------------
  // Decay.
  // ------------------------------------------------------------------------------------

  /** Decaying in two steps is decaying once. */
  lemma DecayIsPathIndependent(entry: Score, t1: int, t2: int)
    requires t1 <= t2
    ensures Decay(Decay(entry, t1), t2) == Decay(entry, t2)
  {
    if entry.updated.At? {
      var n := Steps(entry.updated.ns, t1);
      var rest := Steps(entry.updated.ns + n * STEP, t2);
      StepsAdd(entry.updated.ns, n, t2);
    }
  }

  lemma StepsAdd(from: int, n: nat, now: int)
    requires n > 0 ==> from + n * STEP <= now
    ensures Steps(from, now) == n + Steps(from + n * STEP, now)
  {
    if n > 0 {
      var a := Steps(from, now);
      var b := Steps(from + n * STEP, now);
      assert from + (n + b) * STEP <= now < from + (n + b + 1) * STEP;
      StepsUnique(from, now, a, n + b);
    }
  }

  lemma StepsUnique(from: int, now: int, a: nat, b: nat)
    requires from + a * STEP <= now < from + (a + 1) * STEP
    requires from + b * STEP <= now < from + (b + 1) * STEP
    ensures a == b
  {
  }

  /** How far: after k whole five-minute steps a score has moved k points towards zero, no
      further, and its stamp by exactly k steps. */
  lemma DecayIsExact(value: int, t: int, k: nat, now: int)
    requires t + k * 300_000_000_000 <= now < t + (k + 1) * 300_000_000_000
    ensures Decay(Score(value, At(t)), now).updated == At(t + k * 300_000_000_000)
    ensures value > 0 ==> Decay(Score(value, At(t)), now).value == if k < value then value - k else 0
    ensures value <= 0 ==> Decay(Score(value, At(t)), now).value == if k < -value then value + k else 0
  {
    var n := Steps(t, now);
    if n != k {
      StepsUnique(t, now, n, k);
    }
  }

  /** A score stamped later than now, or never, is left alone. */
  lemma NoDecayBackwards(entry: Score, now: int)
    requires entry.updated.Never? || now < entry.updated.ns
    ensures Decay(entry, now) == entry
  {
  }

  /** A decayed score keeps its sign or reaches zero, and never gains size. */
  lemma DecayNeverCrossesZero(entry: Score, now: int)
    ensures entry.value >= 0 ==> 0 <= Decay(entry, now).value <= entry.value
    ensures entry.value <= 0 ==> entry.value <= Decay(entry, now).value <= 0
  {
  }

  // ------------------------------------------------------------------------------------
  // Runs.
  // ------------------------------------------------------------------------------------

  datatype Op =
    | Pick(now: int)
    | Observe(account: Account, status: int, failure: Failure, now: int)

  /** The state changes the two methods ensure. */
  ghost predicate Steps1(before: Entries, op: Op, after: Entries) {
    match op
    case Pick(now) => after == DecayAll(before, now)
    case Observe(account, status, failure, now) =>
      AfterObserve(before, account, status, failure, now, after)
  }

  /** `states` is a run of `ops` from the empty store. */
  ghost predicate IsRun(states: seq<Entries>, ops: seq<Op>) {
    && |states| == |ops| + 1
    && states[0] == map[]
    && forall i | 0 <= i < |ops| :: Steps1(states[i], ops[i], states[i + 1])
  }

  ghost predicate InRange(entries: Entries) {
    && "" !in entries
    && forall a | a in entries :: -20 <= entries[a].value <= 20
  }

  /** Every reachable score lies between -20 and 20. */
  lemma {:induction false} ScoresStayInRange(states: seq<Entries>, ops: seq<Op>, k: nat)
    requires IsRun(states, ops) && k < |states|
    ensures InRange(states[k])
  {
    if k > 0 {
      ScoresStayInRange(states, ops, k - 1);
      StepStaysInRange(states[k - 1], ops[k - 1], states[k]);
    }
  }

  lemma StepStaysInRange(before: Entries, op: Op, after: Entries)
    requires InRange(before) && Steps1(before, op, after)
    ensures InRange(after)
  {
    hide Steps, Delta;
    if op.Pick? {
      forall a | a in before
        ensures -20 <= Decay(before[a], op.now).value <= 20
      {
        DecayNeverCrossesZero(before[a], op.now);
      }
      hide Decay;
    }
  }

  // ------------------------------------------------------------------------------------
  // Silence.
  // ------------------------------------------------------------------------------------

  /** An observation of this account that is recorded. */
  predicate Records(op: Op, a: Account) {
    op.Observe? && op.account == a && a != "" && !op.failure.Cancelled?
  }

  /** The score was observed at this instant and has lost a point for each of the j steps its
      stamp has moved since. */
  predicate Aged(entry: Score, at: int, j: nat) {
    entry.updated == At(at + j * 300_000_000_000) && entry.value <= if j < 20 then 20 - j else 0
  }

  /** The score of an account stems from one of its observations. */
  ghost predicate StemsFrom(entry: Score, ops: seq<Op>, k: nat, a: Account)
    requires k <= |ops|
  {
    exists i, j: nat :: 0 <= i < k && Records(ops[i], a) && Aged(entry, ops[i].now, j)
  }

  lemma DecayAges(entry: Score, at: int, j: nat, now: int)
    requires Aged(entry, at, j)
    ensures Aged(Decay(entry, now), at, j + Steps(entry.updated.ns, now))
  {
  }

  lemma DecayStems(entry: Score, ops: seq<Op>, k: nat, a: Account, now: int)
    requires k < |ops| && StemsFrom(entry, ops, k, a)
    ensures StemsFrom(entry, ops, k + 1, a) && StemsFrom(Decay(entry, now), ops, k + 1, a)
  {
    hide Records, Aged, Decay;
    var i, j: nat :| 0 <= i < k && Records(ops[i], a) && Aged(entry, ops[i].now, j);
    AgedIsStamped(entry, ops[i].now, j);
    DecayAges(entry, ops[i].now, j, now);
    assert 0 <= i < k + 1;
  }

  lemma AgedIsStamped(entry: Score, at: int, j: nat)
    requires Aged(entry, at, j)
    ensures entry.updated.At?
  {
  }

  lemma ObservationStems(before: Entries, ops: seq<Op>, k: nat, after: Entries, a: Account)
    requires k < |ops| && Records(ops[k], a) && Steps1(before, ops[k], after) && InRange(before)
    ensures a in after && StemsFrom(after[a], ops, k + 1, a)
  {
    StepStaysInRange(before, ops[k], after);
    ObservedAccountSurvives(before, ops[k], after);
    assert Aged(after[a], ops[k].now, 0);
  }

  lemma {:induction false} ScoresStem(states: seq<Entries>, ops: seq<Op>, k: nat, a: Account)
    requires IsRun(states, ops) && k < |states| && a in states[k]
    ensures k <= |ops| && StemsFrom(states[k][a], ops, k, a)
  {
    hide Steps1, StemsFrom, Records, Decay, InRange;
    if k > 0 {
      var before, op := states[k - 1], ops[k - 1];
      StepOf(states, ops, k - 1);
      ScoresStayInRange(states, ops, k - 1);
      if Records(op, a) {
        ObservationStems(before, ops, k - 1, states[k], a);
      } else {
        OthersSurviveUnchanged(before, op, states[k], a);
        ScoresStem(states, ops, k - 1, a);
        DecayStems(before[a], ops, k - 1, a, op.now);
      }
    }
  }

  /** An account the step does not observe keeps its score, or what is left of it. */
  lemma OthersSurviveUnchanged(before: Entries, op: Op, after: Entries, a: Account)
    requires Steps1(before, op, after) && a in after && !Records(op, a) && InRange(before)
    ensures a in before
    ensures after[a] == if op.Pick? then Decay(before[a], op.now) else before[a]
  {
    hide Decay, Clamp, Delta;
  }

  /** An account of which nothing was recorded in the last 100 minutes is eligible for no pick,
      whatever else happened. */
  lemma SilentAccountsAreNotEligible(
      states: seq<Entries>, ops: seq<Op>, k: nat, a: Account, used: set<Account>)
    requires IsRun(states, ops) && k < |ops| && ops[k].Pick?
    requires forall i | 0 <= i < k && Records(ops[i], a) :: ops[i].now + 6_000_000_000_000 <= ops[k].now
    ensures !Eligible(states[k + 1], used, a)
  {
    StepOf(states, ops, k);
    RunLength(states, ops);
    hide IsRun, Records;
    if a in states[k] {
      ScoresStem(states, ops, k, a);
      var entry := states[k][a];
      var i, j: nat :| 0 <= i < k && Records(ops[i], a) && Aged(entry, ops[i].now, j);
      DecayAges(entry, ops[i].now, j, ops[k].now);
      assert j + Steps(entry.updated.ns, ops[k].now) >= 20;
    }
  }

  lemma RunLength(states: seq<Entries>, ops: seq<Op>)
    requires IsRun(states, ops)
    ensures |states| == |ops| + 1
  {
  }

  // ------------------------------------------------------------------------------------
  // The size of the store.
  // ------------------------------------------------------------------------------------

  /** Every observation reads the clock strictly after everything before it. */
  ghost predicate ObservationsAdvance(ops: seq<Op>) {
    forall i, j | 0 <= i < j < |ops| && ops[j].Observe? :: ops[i].now < ops[j].now
  }

  /** No stamp is newer than every reading so far. */
  ghost predicate Stamped(entries: Entries, ops: seq<Op>, k: nat)
    requires k <= |ops|
  {
    forall a | a in entries ::
      entries[a].updated.At? && exists i :: 0 <= i < k && entries[a].updated.ns <= ops[i].now
  }

  lemma DecayStamp(entry: Score, now: int)
    requires entry.updated.At?
    ensures Decay(entry, now).updated.At?
    ensures Decay(entry, now).updated.ns <= now || Decay(entry, now) == entry
  {
  }

  lemma {:induction false} RunIsStamped(states: seq<Entries>, ops: seq<Op>, k: nat)
    requires IsRun(states, ops) && k <= |ops|
    ensures Stamped(states[k], ops, k)
  {
    if k > 0 {
      RunIsStamped(states, ops, k - 1);
      assert Steps1(states[k - 1], ops[k - 1], states[k]);
      forall a | a in states[k]
        ensures states[k][a].updated.At?
        ensures exists i :: 0 <= i < k && states[k][a].updated.ns <= ops[i].now
      {
        if ops[k - 1].Pick? {
          DecayStamp(states[k - 1][a], ops[k - 1].now);
        }
        if a in states[k - 1] && states[k - 1][a] == states[k][a] {
          var i :| 0 <= i < k - 1 && states[k - 1][a].updated.ns <= ops[i].now;
          assert 0 <= i < k;
        } else {
          assert states[k][a].updated.ns <= ops[k - 1].now;
        }
      }
    }
  }

  lemma StepFits(states: seq<Entries>, ops: seq<Op>, k: nat)
    requires IsRun(states, ops) && ObservationsAdvance(ops) && k < |ops|
    requires |states[k]| <= 256
    ensures |states[k + 1]| <= 256
  {
    RunIsStamped(states, ops, k);
    if ops[k].Pick? {
      SameSize(states[k], states[k + 1]);
    } else {
      LateObservationFits(states[k], ops, k, states[k + 1]);
    }
  }

  /** The store never holds more than its capacity. */
  lemma {:induction false} StoreIsBounded(states: seq<Entries>, ops: seq<Op>, k: nat)
    requires IsRun(states, ops) && ObservationsAdvance(ops) && k < |states|
    ensures |states[k]| <= 256
  {
    hide Steps1, ObservationsAdvance;
    if k == 0 {
      assert states[0] == map[];
    } else {
      StoreIsBounded(states, ops, k - 1);
      StepFits(states, ops, k - 1);
    }
  }

  lemma SameSize(left: Entries, right: Entries)
    requires left.Keys == right.Keys
    ensures |left| == |right|
  {
    assert |left| == |left.Keys| && |right| == |right.Keys|;
  }

  lemma FullStoreHasAnAccount(entries: Entries)
    ensures |entries| < 256 || exists a :: a in entries
  {
    if forall a :: a !in entries {
      assert entries == map[];
    }
  }

  lemma AllStampsAreOlder(entries: Entries, ops: seq<Op>, k: nat)
    requires k < |ops| && ops[k].Observe? && ObservationsAdvance(ops) && Stamped(entries, ops, k)
    ensures forall a | a in entries :: Before(entries[a].updated, ops[k].now)
  {
  }

  lemma LateObservationFits(before: Entries, ops: seq<Op>, k: nat, after: Entries)
    requires k < |ops| && ops[k].Observe? && ObservationsAdvance(ops) && Stamped(before, ops, k)
    requires |before| <= 256 && Steps1(before, ops[k], after)
    ensures |after| <= 256
  {
    AllStampsAreOlder(before, ops, k);
    FullStoreHasAnAccount(before);
    ObservationFits(before, ops[k], after);
  }

  /** One observation of a store within its capacity stays within it exactly when it adds no
      account too many or some stamp is older than its clock reading. */
  lemma ObservationFits(before: Entries, op: Op, after: Entries)
    requires op.Observe? && |before| <= 256 && Steps1(before, op, after)
    ensures |after| <= 256 <==>
              || Ignored(op.account, op.failure) || op.account in before
              || |before| < 256
              || exists a :: a in before && Before(before[a].updated, op.now)
  {
    if !Ignored(op.account, op.failure) {
      var grown := Observed(before, op.account, Delta(op.status, op.failure), op.now);
      GrownStore(before, op.account, Delta(op.status, op.failure), op.now);
      hide Observed, Delta;
      if |grown| > 256 && exists a :: a in grown && Before(grown[a].updated, op.now) {
        var victim :| IsOldest(grown, victim, op.now) && after == grown - {victim};
        LosesOne(grown, victim);
        assert victim in before;
      }
    }
  }

  lemma GrownStore(before: Entries, account: Account, delta: int, now: int)
    ensures var grown := Observed(before, account, delta, now);
            && account in grown && !Before(grown[account].updated, now)
            && |grown| == |before| + (if account in before then 0 else 1)
            && (forall a | a != account :: a in grown <==> a in before)
            && forall a | a in before && a != account :: grown[a] == before[a]
  {
    hide Decay, Clamp;
    var grown := Observed(before, account, delta, now);
    assert grown.Keys == before.Keys + {account};
    assert |grown| == |grown.Keys| && |before| == |before.Keys|;
  }

  lemma LosesOne(entries: Entries, victim: Account)
    requires victim in entries
    ensures |entries - {victim}| == |entries| - 1
  {
    var after := entries - {victim};
    assert after.Keys == entries.Keys - {victim};
    assert |after| == |after.Keys| && |entries| == |entries.Keys|;
  }

  /** An observation is never lost to its own eviction. */
  lemma ObservedAccountSurvives(before: Entries, op: Op, after: Entries)
    requires op.Observe? && !Ignored(op.account, op.failure) && Steps1(before, op, after)
    ensures op.account in after
    ensures after[op.account] ==
            Observed(before, op.account, Delta(op.status, op.failure), op.now)[op.account]
  {
    var grown := Observed(before, op.account, Delta(op.status, op.failure), op.now);
    assert !Before(grown[op.account].updated, op.now);
  }

  // ------------------------------------------------------------------------------------
  // Picks do not influence later scores.
  // ------------------------------------------------------------------------------------

  /** The step of a store that evicts nothing. */
  function Quiet(entries: Entries, op: Op): Entries {
    match op
    case Pick(now) => DecayAll(entries, now)
    case Observe(account, status, failure, now) =>
      if Ignored(account, failure) then entries
      else Observed(entries, account, Delta(status, failure), now)
  }

  function QuietRun(entries: Entries, ops: seq<Op>): Entries
    decreases |ops|
  {
    if ops == [] then entries else QuietRun(Quiet(entries, ops[0]), ops[1..])
  }

  function Observations(ops: seq<Op>): seq<Op> {
    if ops == [] then []
    else if ops[0].Observe? then [ops[0]] + Observations(ops[1..])
    else Observations(ops[1..])
  }

  ghost predicate FitsThroughout(entries: Entries, ops: seq<Op>)
    decreases |ops|
  {
    |entries| <= 256 && (ops != [] ==> FitsThroughout(Quiet(entries, ops[0]), ops[1..]))
  }

  ghost predicate ClockForward(from: int, ops: seq<Op>)
    decreases |ops|
  {
    ops != [] ==> from <= ops[0].now && ClockForward(ops[0].now, ops[1..])
  }

  /** Same accounts, and the same scores once both are decayed to `now`. */
  ghost predicate SameFrom(left: Entries, right: Entries, now: int) {
    && left.Keys == right.Keys
    && forall a | a in left :: Decay(left[a], now) == Decay(right[a], now)
  }

  lemma SameLater(left: Entries, right: Entries, t1: int, t2: int)
    requires SameFrom(left, right, t1) && t1 <= t2
    ensures SameFrom(left, right, t2)
  {
    forall a | a in left
      ensures Decay(left[a], t2) == Decay(right[a], t2)
    {
      DecayIsPathIndependent(left[a], t1, t2);
      DecayIsPathIndependent(right[a], t1, t2);
    }
  }

  /** While nothing is evicted, picks interleaved with the observations leave every later
      decayed score as if only the observations had happened. */
  lemma {:induction false} PicksLeaveNoTrace(
      left: Entries, right: Entries, ops: seq<Op>, from: int, end: int)
    requires SameFrom(left, right, from) && ClockForward(from, ops) && from <= end
    requires forall op | op in ops :: op.now <= end
    ensures SameFrom(QuietRun(left, ops), QuietRun(right, Observations(ops)), end)
    decreases |ops|
  {
    if ops == [] {
      SameLater(left, right, from, end);
    } else {
      var now := ops[0].now;
      SameLater(left, right, from, now);
      assert forall op | op in ops[1..] :: op in ops;
      if ops[0].Observe? {
        assert Observations(ops)[1..] == Observations(ops[1..]);
        PicksLeaveNoTrace(Quiet(left, ops[0]), Quiet(right, ops[0]), ops[1..], now, end);
      } else {
        forall a | a in left
          ensures Decay(DecayAll(left, now)[a], now) == Decay(right[a], now)
        {
          DecayIsPathIndependent(left[a], now, now);
        }
        PicksLeaveNoTrace(DecayAll(left, now), right, ops[1..], now, end);
      }
    }
  }

  /** A run whose store always fits is the quiet run. */
  lemma {:induction false} FittingRunsAreQuiet(states: seq<Entries>, ops: seq<Op>)
    requires |states| == |ops| + 1
    requires forall i | 0 <= i < |ops| :: Steps1(states[i], ops[i], states[i + 1])
    requires FitsThroughout(states[0], ops)
    ensures states[|ops|] == QuietRun(states[0], ops)
    decreases |ops|
  {
    if ops != [] {
      assert Steps1(states[0], ops[0], states[1]);
      assert FitsThroughout(Quiet(states[0], ops[0]), ops[1..]);
      assert |Quiet(states[0], ops[0])| <= 256;
      assert states[1] == Quiet(states[0], ops[0]);
      forall i | 0 <= i < |ops[1..]|
        ensures Steps1(states[1..][i], ops[1..][i], states[1..][i + 1])
      {
        assert Steps1(states[i + 1], ops[i + 1], states[i + 2]);
      }
      FittingRunsAreQuiet(states[1..], ops[1..]);
    }
  }

  // ------------------------------------------------------------------------------------
  // What outcomes do to an account.
  // ------------------------------------------------------------------------------------

  /** The account answered, or it is to blame that it did not. */
  predicate Succeeded(status: int, failure: Failure) {
    failure.NoError? && 200 <= status < 300
  }

  predicate Failed(status: int, failure: Failure) {
    || failure.Timeout? || failure.OtherError?
    || (failure.NoError? && (status in {401, 408, 429} || status >= 500))
  }

  /** What each outcome is worth. */
  lemma PointsAreExact(status: int, failure: Failure)
    ensures failure.Timeout? ==> Delta(status, failure) == -6
    ensures failure.OtherError? ==> Delta(status, failure) == -4
    ensures failure.Cancelled? ==> Delta(status, failure) == 0
    ensures failure.NoError? ==>
              && (status == 401 || status == 429 ==> Delta(status, failure) == -10)
              && (status == 408 || status == 504 ==> Delta(status, failure) == -6)
              && (status >= 500 && status != 504 ==> Delta(status, failure) == -5)
              && (200 <= status <= 299 ==> Delta(status, failure) == 3)
              && (status < 200 || (300 <= status < 500 && status !in {401, 408, 429}) ==> Delta(status, failure) == 0)
  {
  }

  /** What an observation leaves of its account: the decayed score and the points of the
      outcome, within -20 and 20, stamped with the observation. */
  lemma ObservationScores(before: Entries, op: Op, after: Entries)
    requires op.Observe? && op.account != "" && !op.failure.Cancelled? && Steps1(before, op, after)
    ensures op.account in after && after[op.account].updated == At(op.now)
    ensures var sum := (if op.account in before then Decay(before[op.account], op.now).value else 0)
                       + Delta(op.status, op.failure);
            after[op.account].value == if sum > 20 then 20 else if sum < -20 then -20 else sum
  {
    hide Decay, Delta;
    ObservedAccountSurvives(before, op, after);
    NoDecayBackwards(UNSCORED, op.now);
  }

  /** What is not recorded: an observation of nobody, and the client's own cancellation. */
  lemma WhatIsNotObserved(before: Entries, op: Op, after: Entries)
    requires op.Observe? && (op.account == "" || op.failure.Cancelled?) && Steps1(before, op, after)
    ensures after == before
  {
  }

  /** Who leaves the store. Up to 256 accounts nobody does; the 257th displaces one of those
      with the smallest stamp, if that is older than the observation; all others stay as they
      are. */
  lemma TheOldestLeaves(before: Entries, op: Op, after: Entries)
    requires op.Observe? && op.account != "" && !op.failure.Cancelled? && Steps1(before, op, after)
    requires |before| <= 256 && forall a | a in before :: before[a].updated.At?
    ensures forall a | a in after && a != op.account :: a in before && after[a] == before[a]
    ensures |before| < 256 || op.account in before
            || (forall a | a in before :: before[a].updated.ns >= op.now) ==>
              after.Keys == before.Keys + {op.account}
    ensures |before| == 256 && op.account !in before
            && (exists a :: a in before && before[a].updated.ns < op.now) ==>
              exists victim ::
                && victim in before && before[victim].updated.ns < op.now
                && (forall a | a in before :: before[victim].updated.ns <= before[a].updated.ns)
                && after.Keys == before.Keys + {op.account} - {victim}
  {
    var grown := Observed(before, op.account, Delta(op.status, op.failure), op.now);
    GrownStore(before, op.account, Delta(op.status, op.failure), op.now);
    hide Observed, Delta;
    assert grown.Keys == before.Keys + {op.account};
    if |grown| > 256 && exists a :: a in grown && Before(grown[a].updated, op.now) {
      var victim :| IsOldest(grown, victim, op.now) && after == grown - {victim};
      assert victim in before && before[victim].updated.ns < op.now;
      assert after.Keys == grown.Keys - {victim};
    } else if |grown| > 256 {
      assert forall a | a in before && a != op.account :: grown[a] == before[a] && !Before(grown[a].updated, op.now);
    }
  }

  /** Only an answer raises a score, by 3; every failure costs between 4 and 10; nothing else
      changes it. */
  lemma DeltaFollowsTheOutcome(status: int, failure: Failure)
    ensures Delta(status, failure) > 0 <==> Succeeded(status, failure)
    ensures Delta(status, failure) < 0 <==> Failed(status, failure)
    ensures Succeeded(status, failure) ==> Delta(status, failure) == 3
    ensures Failed(status, failure) ==> -10 <= Delta(status, failure) <= -4
  {
  }

  predicate FailureOf(op: Op, a: Account) {
    op.Observe? && op.account == a && Failed(op.status, op.failure)
  }

  /** How many of the operations i, ..., k - 1 are failures of account a. */
  function FailuresOf(ops: seq<Op>, i: nat, k: nat, a: Account): nat
    requires i <= k <= |ops|
    decreases k
  {
    if i == k then 0
    else FailuresOf(ops, i, k - 1, a) + if FailureOf(ops[k - 1], a) then 1 else 0
  }

  ghost predicate NeverAnswers(ops: seq<Op>, i: nat, k: nat, a: Account)
    requires i <= k <= |ops|
  {
    forall m | i <= m < k :: ops[m].Observe? && ops[m].account == a ==> !Succeeded(ops[m].status, ops[m].failure)
  }

  predicate AtMost(entries: Entries, a: Account, bound: int) {
    a in entries ==> entries[a].value <= bound
  }

  /** From anywhere in a run, n failures of an account without an answer in between leave it at
      20 - 4n or at most at zero, whatever picks, other accounts, time and evictions do. */
  lemma {:induction false} FailuresPullDown(states: seq<Entries>, ops: seq<Op>, i: nat, k: nat, a: Account)
    requires IsRun(states, ops) && i <= k <= |ops| && a != ""
    requires NeverAnswers(ops, i, k, a)
    ensures AtMost(states[k], a, Max(0, 20 - 4 * FailuresOf(ops, i, k, a)))
    decreases k
  {
    hide IsRun, Steps1, Failed, Succeeded, FailureOf, AtMost;
    InBounds(states, ops, k, a);
    if i < k {
      InBounds(states, ops, k - 1, a);
      StepOf(states, ops, k - 1);
      FailuresPullDown(states, ops, i, k - 1, a);
      FailurePullsDown(states[k - 1], ops[k - 1], states[k], a, Max(0, 20 - 4 * FailuresOf(ops, i, k - 1, a)));
    }
  }

  lemma StepOf(states: seq<Entries>, ops: seq<Op>, k: nat)
    requires IsRun(states, ops) && k < |ops|
    ensures Steps1(states[k], ops[k], states[k + 1])
  {
  }

  lemma InBounds(states: seq<Entries>, ops: seq<Op>, k: nat, a: Account)
    requires IsRun(states, ops) && k <= |ops|
    ensures |states| == |ops| + 1 && "" !in states[k] && AtMost(states[k], a, 20)
  {
    ScoresStayInRange(states, ops, k);
  }

  lemma FailurePullsDown(before: Entries, op: Op, after: Entries, a: Account, bound: nat)
    requires Steps1(before, op, after) && "" !in before && a != ""
    requires AtMost(before, a, bound)
    requires op.Observe? && op.account == a ==> !Succeeded(op.status, op.failure)
    ensures AtMost(after, a, if FailureOf(op, a) then Max(0, bound - 4) else bound)
  {
    if op.Observe? {
      DeltaFollowsTheOutcome(op.status, op.failure);
      hide Delta;
      DecayNeverCrossesZero(ScoreOf(before, op.account), op.now);
    } else {
      if a in before {
        DecayNeverCrossesZero(before[a], op.now);
      }
    }
  }

  /** So five failures in a row rule an account out of every pick until it answers again. */
  lemma FiveFailuresRuleOut(states: seq<Entries>, ops: seq<Op>, i: nat, k: nat, a: Account, used: set<Account>)
    requires IsRun(states, ops) && i <= k <= |ops| && a != ""
    requires NeverAnswers(ops, i, k, a) && FailuresOf(ops, i, k, a) >= 5
    ensures !Eligible(states[k], used, a)
  {
    hide IsRun, NeverAnswers, FailuresOf;
    FailuresPullDown(states, ops, i, k, a);
  }

  // ------------------------------------------------------------------------------------
  // Fairness of the choice.
  // ------------------------------------------------------------------------------------

  /** A pick returns the newcomer or a known, unused account with a positive score. */
  lemma {:induction false} SlotIsEligible(
      entries: Entries, used: set<Account>, order: seq<Account>, choice: nat)
    requires choice < TotalWeight(entries, used, order)
    ensures Slot(entries, used, order, choice) in order
    ensures Eligible(entries, used, Slot(entries, used, order, choice))
  {
    var w := Weight(entries, used, order[0]);
    if choice >= w {
      SlotIsEligible(entries, used, order[1..], choice - w);
    }
  }

  lemma PickIsNewcomerOrEligible(
      entries: Entries, used: set<Account>, order: seq<Account>, cursor: nat)
    ensures match Choose(entries, used, order, cursor)
            case Explore => true
            case Known(a) => a in order && Eligible(entries, used, a)
  {
    var choice := cursor % (EXPLORE + TotalWeight(entries, used, order));
    if choice >= EXPLORE {
      SlotIsEligible(entries, used, order, choice - EXPLORE);
    }
  }

  lemma {:induction false} SlotIs(
      entries: Entries, used: set<Account>, order: seq<Account>, choice: nat, i: nat)
    requires i < |order|
    requires TotalWeight(entries, used, order[..i]) <= choice
    requires choice < TotalWeight(entries, used, order[..i]) + Weight(entries, used, order[i])
    ensures choice < TotalWeight(entries, used, order)
    ensures Slot(entries, used, order, choice) == order[i]
    decreases i
  {
    if i > 0 {
      assert order[..i][0] == order[0] && order[..i][1..] == order[1..][..i - 1];
      SlotIs(entries, used, order[1..], choice - Weight(entries, used, order[0]), i - 1);
    }
  }

  /** Where a cursor value points: its remainder by the total explores below 4, and otherwise
      falls into the interval that is as long as the account's score and begins after those of
      the accounts visited before. */
  lemma ChoiceIsItsPlace(
      entries: Entries, used: set<Account>, order: seq<Account>, cursor: nat, i: nat)
    ensures var c := cursor % (4 + TotalWeight(entries, used, order));
            Choose(entries, used, order, cursor).Explore? <==> c < 4
    ensures i < |order| ==>
              var c := cursor % (4 + TotalWeight(entries, used, order));
              var from := 4 + TotalWeight(entries, used, order[..i]);
              var w := if order[i] in entries && order[i] !in used then entries[order[i]].value else 0;
              from <= c < from + w ==> Choose(entries, used, order, cursor) == Known(order[i])
  {
    if i < |order| {
      var c := cursor % (4 + TotalWeight(entries, used, order));
      var from := 4 + TotalWeight(entries, used, order[..i]);
      if from <= c < from + Weight(entries, used, order[i]) {
        SlotIs(entries, used, order, c - 4, i);
      }
    }
  }

  /** How often `what` is chosen by the cursor values from, from + 1, ..., from + n - 1. */
  function Tally(entries: Entries, used: set<Account>, order: seq<Account>, what: Choice,
                 from: nat, n: nat): nat
  {
    if n == 0 then 0
    else Tally(entries, used, order, what, from, n - 1)
         + if Choose(entries, used, order, from + n - 1) == what then 1 else 0
  }

  lemma {:induction false} TallyShift(
      entries: Entries, used: set<Account>, order: seq<Account>, what: Choice, from: nat, n: nat)
    ensures Tally(entries, used, order, what, from, n)
              + (if Choose(entries, used, order, from + n) == what then 1 else 0)
            == Tally(entries, used, order, what, from + 1, n)
              + if Choose(entries, used, order, from) == what then 1 else 0
  {
    if n > 0 {
      TallyShift(entries, used, order, what, from, n - 1);
    }
  }

  lemma AddModulus(c: nat, m: nat)
    requires m > 0
    ensures (c + m) % m == c % m
  {
    var k := (c + m) / m - c / m - 1;
    assert k * m == c % m - (c + m) % m;
    Arithmetic.MultipleSize(k, m);
  }

  lemma ChoiceRepeats(
      entries: Entries, used: set<Account>, order: seq<Account>, c: nat)
    ensures Choose(entries, used, order, c + EXPLORE + TotalWeight(entries, used, order)) ==
            Choose(entries, used, order, c)
  {
    AddModulus(c, EXPLORE + TotalWeight(entries, used, order));
    assert c + EXPLORE + TotalWeight(entries, used, order)
        == c + (EXPLORE + TotalWeight(entries, used, order));
  }

  lemma {:induction false} TallyAnywhere(
      entries: Entries, used: set<Account>, order: seq<Account>, what: Choice, from: nat)
    ensures var total := EXPLORE + TotalWeight(entries, used, order);
            Tally(entries, used, order, what, from, total) ==
            Tally(entries, used, order, what, 0, total)
  {
    if from > 0 {
      var total := EXPLORE + TotalWeight(entries, used, order);
      TallyAnywhere(entries, used, order, what, from - 1);
      TallyShift(entries, used, order, what, from - 1, total);
      ChoiceRepeats(entries, used, order, from - 1);
      assert from - 1 + EXPLORE + TotalWeight(entries, used, order) == from - 1 + total;
    }
  }

  /** How many of the first n weight slots belong to `a`. */
  function SlotTally(entries: Entries, used: set<Account>, order: seq<Account>, a: Account, n: nat)
      : nat
    requires n <= TotalWeight(entries, used, order)
  {
    if n == 0 then 0
    else SlotTally(entries, used, order, a, n - 1)
         + if Slot(entries, used, order, n - 1) == a then 1 else 0
  }

  lemma {:induction false} SlotTallySplit(
      entries: Entries, used: set<Account>, order: seq<Account>, a: Account, n: nat)
    requires order != [] && n <= TotalWeight(entries, used, order)
    ensures var w := Weight(entries, used, order[0]);
            SlotTally(entries, used, order, a, n) ==
            (if order[0] == a then Min(n, w) else 0)
            + if n > w then SlotTally(entries, used, order[1..], a, n - w) else 0
  {
    if n > 0 {
      SlotTallySplit(entries, used, order, a, n - 1);
    }
  }

  lemma {:induction false} SlotsMatchWeights(
      entries: Entries, used: set<Account>, order: seq<Account>, a: Account)
    requires forall i, j | 0 <= i < j < |order| :: order[i] != order[j]
    ensures SlotTally(entries, used, order, a, TotalWeight(entries, used, order)) ==
            if a in order then Weight(entries, used, a) else 0
  {
    if order != [] {
      SlotTallySplit(entries, used, order, a, TotalWeight(entries, used, order));
      SlotsMatchWeights(entries, used, order[1..], a);
    }
  }

  lemma {:induction false} TallyFromZero(
      entries: Entries, used: set<Account>, order: seq<Account>, what: Choice, n: nat)
    requires n <= EXPLORE + TotalWeight(entries, used, order)
    ensures Tally(entries, used, order, what, 0, n) ==
            match what
            case Explore => Min(n, EXPLORE)
            case Known(a) => if n > EXPLORE then SlotTally(entries, used, order, a, n - EXPLORE) else 0
  {
    if n > 0 {
      TallyFromZero(entries, used, order, what, n - 1);
      SmallCursor(entries, used, order, n - 1);
    }
  }

  lemma SmallCursor(entries: Entries, used: set<Account>, order: seq<Account>, c: nat)
    requires c < EXPLORE + TotalWeight(entries, used, order)
    ensures Choose(entries, used, order, c) ==
            if c < EXPLORE then Explore else Known(Slot(entries, used, order, c - EXPLORE))
  {
    SmallModulus(c, EXPLORE + TotalWeight(entries, used, order));
  }

  lemma SmallModulus(c: nat, m: nat)
    requires c < m
    ensures c % m == c
  {
  }

  /** How often `what` is chosen by the next n picks of a store whose cursor stands at
      `cursor`. */
  function PickTally(entries: Entries, used: set<Account>, order: seq<Account>, what: Choice,
                     cursor: nat, n: nat): nat
    decreases n
  {
    if n == 0 then 0
    else
      var next := (cursor + 1) % CURSOR_MODULUS;
      (if Choose(entries, used, order, next) == what then 1 else 0)
      + PickTally(entries, used, order, what, next, n - 1)
  }

  lemma {:induction false} TallyFirst(
      entries: Entries, used: set<Account>, order: seq<Account>, what: Choice, from: nat, n: nat)
    requires n > 0
    ensures Tally(entries, used, order, what, from, n) ==
            (if Choose(entries, used, order, from) == what then 1 else 0)
            + Tally(entries, used, order, what, from + 1, n - 1)
  {
    TallyShift(entries, used, order, what, from, n - 1);
  }

  /** As long as the cursor does not wrap after the first of them, picks take its values in
      a row. */
  lemma {:induction false} PicksFollowTheCursor(
      entries: Entries, used: set<Account>, order: seq<Account>, what: Choice, cursor: nat, n: nat)
    requires (cursor + 1) % CURSOR_MODULUS + n <= CURSOR_MODULUS
    ensures PickTally(entries, used, order, what, cursor, n) ==
            Tally(entries, used, order, what, (cursor + 1) % CURSOR_MODULUS, n)
    decreases n
  {
    if n > 0 {
      var next := (cursor + 1) % CURSOR_MODULUS;
      TallyFirst(entries, used, order, what, next, n);
      if n > 1 {
        SmallModulus(next + 1, CURSOR_MODULUS);
        PicksFollowTheCursor(entries, used, order, what, next, n - 1);
      }
    }
  }

  /** If the total divides 2^64, wrapping goes unnoticed. */
  lemma {:induction false} PicksIgnoreTheWrap(
      entries: Entries, used: set<Account>, order: seq<Account>, what: Choice,
      cursor: nat, v: nat, n: nat)
    requires var total := EXPLORE + TotalWeight(entries, used, order);
             CURSOR_MODULUS % total == 0 && v % total == cursor % total
    ensures PickTally(entries, used, order, what, cursor, n) == Tally(entries, used, order, what, v + 1, n)
    decreases n
  {
    if n > 0 {
      var total := EXPLORE + TotalWeight(entries, used, order);
      var next := (cursor + 1) % CURSOR_MODULUS;
      Arithmetic.RemainderOfRemainder(cursor + 1, CURSOR_MODULUS, total);
      Arithmetic.SameRemainderPlus(v, cursor, 1, total);
      PicksIgnoreTheWrap(entries, used, order, what, next, v + 1, n - 1);
      TallyFirst(entries, used, order, what, v + 1, n);
    }
  }

  /** The wrap of the cursor does not disturb the next `total` picks: it falls outside them or
      before the first, or the total divides 2^64. */
  predicate Undisturbed(cursor: nat, total: nat)
    requires total > 0
  {
    || cursor + total < 0x1_0000_0000_0000_0000
    || (cursor == 0xFFFF_FFFF_FFFF_FFFF && total <= 0x1_0000_0000_0000_0000)
    || 0x1_0000_0000_0000_0000 % total == 0
  }

  /** Where the k-th next pick points, of `total` places. */
  function Place(cursor: nat, k: nat, total: nat): nat
    requires total > 0
  {
    ((cursor + k) % CURSOR_MODULUS) % total
  }

  ghost predicate EachPlaceOnce(cursor: nat, total: nat)
    requires total > 0
  {
    forall j, k | 1 <= j < k <= total :: Place(cursor, j, total) != Place(cursor, k, total)
  }

  /** Over any `total` consecutive picks with the same scores, used accounts and visiting
      order, exploration wins exactly four times and each account exactly as often as its
      score, unless the wrap of the 64-bit cursor disturbs them. */
  lemma ChoiceIsProportional(
      entries: Entries, used: set<Account>, order: seq<Account>, what: Choice, cursor: nat)
    requires Visits(order, entries) && cursor < CURSOR_MODULUS
    requires Undisturbed(cursor, 4 + TotalWeight(entries, used, order))
    ensures PickTally(entries, used, order, what, cursor, 4 + TotalWeight(entries, used, order)) ==
            match what
            case Explore => 4
            case Known(a) => if a in entries && a !in used && entries[a].value > 0 then entries[a].value else 0
  {
    var total := EXPLORE + TotalWeight(entries, used, order);
    PicksAreATurn(entries, used, order, what, cursor);
    hide PickTally, Tally, TotalWeight, Undisturbed;
    TallyFromZero(entries, used, order, what, total);
    if what.Known? {
      SlotsMatchWeights(entries, used, order, what.account);
    }
  }

  /** Undisturbed, the next `total` picks choose like the first cursor values. */
  lemma PicksAreATurn(
      entries: Entries, used: set<Account>, order: seq<Account>, what: Choice, cursor: nat)
    requires cursor < CURSOR_MODULUS && Undisturbed(cursor, EXPLORE + TotalWeight(entries, used, order))
    ensures var total := EXPLORE + TotalWeight(entries, used, order);
            PickTally(entries, used, order, what, cursor, total) == Tally(entries, used, order, what, 0, total)
  {
    hide TotalWeight, Tally, PickTally;
    var total := EXPLORE + TotalWeight(entries, used, order);
    if CURSOR_MODULUS % total == 0 {
      PicksIgnoreTheWrap(entries, used, order, what, cursor, cursor, total);
      TallyAnywhere(entries, used, order, what, cursor + 1);
    } else {
      if cursor + 1 < CURSOR_MODULUS {
        SmallModulus(cursor + 1, CURSOR_MODULUS);
      }
      PicksFollowTheCursor(entries, used, order, what, cursor, total);
      TallyAnywhere(entries, used, order, what, (cursor + 1) % CURSOR_MODULUS);
    }
  }

  /** And that condition is exact: the next `total` picks point at each of the `total` places
      once if and only if the wrap does not disturb them. */
  lemma EachPlaceOnceIffUndisturbed(cursor: nat, total: nat)
    requires cursor < CURSOR_MODULUS && total > 0
    ensures EachPlaceOnce(cursor, total) <==> Undisturbed(cursor, total)
  {
    if Undisturbed(cursor, total) {
      forall j, k | 1 <= j < k <= total
        ensures Place(cursor, j, total) != Place(cursor, k, total)
      {
        DifferentPlaces(cursor, j, k, total);
      }
    } else {
      var j, k := SamePlaceTwice(cursor, total);
    }
  }

  lemma PlaceBeforeTheWrap(cursor: nat, k: nat, total: nat)
    requires total > 0 && cursor + k < CURSOR_MODULUS
    ensures Place(cursor, k, total) == (cursor + k) % total
  {
    SmallModulus(cursor + k, CURSOR_MODULUS);
  }

  lemma PlaceAfterTheWrap(cursor: nat, k: nat, total: nat)
    requires total > 0 && CURSOR_MODULUS <= cursor + k < 2 * CURSOR_MODULUS
    ensures Place(cursor, k, total) == (cursor + k - CURSOR_MODULUS) % total
  {
    var c := cursor + k - CURSOR_MODULUS;
    AddModulus(c, CURSOR_MODULUS);
    SmallModulus(c, CURSOR_MODULUS);
    assert c + CURSOR_MODULUS == cursor + k;
  }

  lemma DifferentPlaces(cursor: nat, j: nat, k: nat, total: nat)
    requires cursor < CURSOR_MODULUS && 1 <= j < k <= total && Undisturbed(cursor, total)
    ensures Place(cursor, j, total) != Place(cursor, k, total)
  {
    if CURSOR_MODULUS % total == 0 {
      Arithmetic.RemainderOfRemainder(cursor + j, CURSOR_MODULUS, total);
      Arithmetic.RemainderOfRemainder(cursor + k, CURSOR_MODULUS, total);
      NearbyRemainders(cursor + j, cursor + k, total);
    } else if cursor + total < CURSOR_MODULUS {
      PlaceBeforeTheWrap(cursor, j, total);
      PlaceBeforeTheWrap(cursor, k, total);
      NearbyRemainders(cursor + j, cursor + k, total);
    } else {
      PlaceAfterTheWrap(cursor, j, total);
      PlaceAfterTheWrap(cursor, k, total);
      NearbyRemainders(j - 1, k - 1, total);
    }
  }

  lemma NearbyRemainders(a: nat, b: nat, t: nat)
    requires a < b < a + t
    ensures a % t != b % t
  {
    if a % t == b % t {
      var d := b / t - a / t;
      assert d * t == b - a;
      Arithmetic.MultipleSize(d, t);
    }
  }

  /** Two picks around a disturbing wrap that point at the same place. */
  lemma SamePlaceTwice(cursor: nat, total: nat) returns (j: nat, k: nat)
    requires cursor < CURSOR_MODULUS && total > 0 && !Undisturbed(cursor, total)
    ensures 1 <= j < k <= total && Place(cursor, j, total) == Place(cursor, k, total)
  {
    if total > CURSOR_MODULUS {
      j, k := 1, 1 + CURSOR_MODULUS;
      AddModulus(cursor + 1, CURSOR_MODULUS);
      assert cursor + k == cursor + 1 + CURSOR_MODULUS;
    } else {
      var wrap := CURSOR_MODULUS - cursor;
      var r := CURSOR_MODULUS % total;
      if r < wrap {
        j, k := wrap - r, wrap;
        BeforeTheWrap(r, total);
        PlaceBeforeTheWrap(cursor, j, total);
        PlaceAfterTheWrap(cursor, k, total);
        assert cursor + j == CURSOR_MODULUS - r && cursor + k == CURSOR_MODULUS;
      } else {
        j, k := 1, r + 1;
        BeforeTheWrap(wrap - 1, total);
        PlaceBeforeTheWrap(cursor, j, total);
        PlaceAfterTheWrap(cursor, k, total);
        assert cursor + k - CURSOR_MODULUS == r + 1 - wrap;
        Arithmetic.SmallRemainder(r + 1 - wrap, total);
      }
      hide Place;
    }
  }

  /** The cursor d steps before the wrap points d places before the remainder of 2^64. */
  lemma BeforeTheWrap(d: nat, total: nat)
    requires total > 0 && d <= CURSOR_MODULUS % total && total <= CURSOR_MODULUS
    ensures CURSOR_MODULUS >= d && (CURSOR_MODULUS - d) % total == CURSOR_MODULUS % total - d
  {
    var q, r := CURSOR_MODULUS / total, CURSOR_MODULUS % total;
    assert CURSOR_MODULUS - d == q * total + (r - d);
    Arithmetic.DivMod(q, r - d, total);
  }
}
