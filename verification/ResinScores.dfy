/** The score store of Resin accounts: decaying clamped scores, a cursor that walks through
    a weighted choice, and a bounded number of accounts. Instants are nanoseconds. */
module ResinScores {
  import Iteration

  const STEP := 5 * 60 * 1_000_000_000
  const EXPLORE := 4
  const CAPACITY := 256
  const CURSOR_MODULUS := 0x1_0000_0000_0000_0000

  type Account = string

  /** Go's zero time marks a score that was never observed. */
  datatype Stamp = Never | At(ns: int)

  datatype Score = Score(value: int, updated: Stamp)

  const UNSCORED := Score(0, Never)

  datatype Failure = NoError | Cancelled | Timeout | OtherError

  type Entries = map<Account, Score>

  /** Whole steps that fit into the time from `from` to `now`; none if the clock went back. */
  function Steps(from: int, now: int): (n: nat)
    ensures n > 0 ==> from + n * STEP <= now < from + (n + 1) * STEP
    ensures n == 0 <==> now < from + STEP
  {
    if now < from then 0 else (now - from) / STEP
  }

  function Min(a: int, b: int): int { if a < b then a else b }

  function Max(a: int, b: int): int { if a > b then a else b }

  /** A score moves one point towards zero every five minutes and keeps the unused rest. */
  function Decay(entry: Score, now: int): Score {
    if entry.updated.Never? || Steps(entry.updated.ns, now) == 0 then entry
    else
      var n := Steps(entry.updated.ns, now);
      Score(if entry.value > 0 then Max(0, entry.value - n) else Min(0, entry.value + n),
            At(entry.updated.ns + n * STEP))
  }

  function DecayAll(entries: Entries, now: int): Entries {
    map a | a in entries :: Decay(entries[a], now)
  }

  /** What one observation adds, before clamping. */
  function Delta(status: int, failure: Failure): int {
    match failure
    case Timeout => -6
    case OtherError => -4
    case Cancelled => 0
    case NoError =>
      if status == 401 || status == 429 then -10
      else if status == 408 || status == 504 then -6
      else if status >= 500 then -5
      else if 200 <= status < 300 then 3
      else 0
  }

  function Clamp(v: int): int { Max(-20, Min(20, v)) }

  function ScoreOf(entries: Entries, account: Account): Score {
    if account in entries then entries[account] else UNSCORED
  }

  /** The entries after an observation, before anything is evicted. */
  function Observed(entries: Entries, account: Account, delta: int, now: int): Entries {
    entries[account := Score(Clamp(Decay(ScoreOf(entries, account), now).value + delta), At(now))]
  }

  /** Observations of nobody and of the client's own cancellation are not recorded. */
  predicate Ignored(account: Account, failure: Failure) {
    account == "" || failure.Cancelled?
  }

  predicate Before(s: Stamp, now: int) {
    s.Never? || s.ns < now
  }

  predicate Earlier(a: Stamp, b: Stamp) {
    b.At? && (a.Never? || a.ns < b.ns)
  }

  /** The victim is older than the observation and nothing is older than the victim. */
  ghost predicate IsOldest(entries: Entries, victim: Account, now: int) {
    && victim in entries
    && Before(entries[victim].updated, now)
    && forall a | a in entries :: !Earlier(entries[a].updated, entries[victim].updated)
  }

  /** A store over its capacity loses one oldest account, if any is older than `now`. */
  ghost predicate AfterEviction(grown: Entries, now: int, after: Entries) {
    if |grown| > CAPACITY && exists a :: a in grown && Before(grown[a].updated, now)
    then exists victim :: IsOldest(grown, victim, now) && after == grown - {victim}
    else after == grown
  }

  /** Everything an observation may leave behind. */
  ghost predicate AfterObserve(
      before: Entries, account: Account, status: int, failure: Failure, now: int, after: Entries)
  {
    if Ignored(account, failure) then after == before
    else AfterEviction(Observed(before, account, Delta(status, failure), now), now, after)
  }

  // ------------------------------------------------------------------------------------
  // The weighted choice.
  // ------------------------------------------------------------------------------------

  predicate Eligible(entries: Entries, used: set<Account>, a: Account) {
    a in entries && a !in used && entries[a].value > 0
  }

  function Weight(entries: Entries, used: set<Account>, a: Account): (w: nat)
    ensures w > 0 <==> Eligible(entries, used, a)
  {
    if Eligible(entries, used, a) then entries[a].value else 0
  }

  function TotalWeight(entries: Entries, used: set<Account>, order: seq<Account>): nat {
    if order == [] then 0
    else Weight(entries, used, order[0]) + TotalWeight(entries, used, order[1..])
  }

  /** `order` visits every account once. */
  ghost predicate Visits(order: seq<Account>, entries: Entries) {
    && (forall a :: a in order <==> a in entries)
    && (forall i, j | 0 <= i < j < |order| :: order[i] != order[j])
  }

  /** The account whose weight interval holds `choice`. */
  function Slot(entries: Entries, used: set<Account>, order: seq<Account>, choice: nat): Account
    requires choice < TotalWeight(entries, used, order)
  {
    var w := Weight(entries, used, order[0]);
    if choice < w then order[0] else Slot(entries, used, order[1..], choice - w)
  }

  datatype Choice = Explore | Known(account: Account)

  /** What a cursor value points at: the first few values explore, the others fall into the
      weight interval of a known account. */
  function Choose(entries: Entries, used: set<Account>, order: seq<Account>, cursor: nat): Choice {
    var choice := cursor % (EXPLORE + TotalWeight(entries, used, order));
    if choice < EXPLORE then Explore else Known(Slot(entries, used, order, choice - EXPLORE))
  }

  function Chosen(choice: Choice, newcomer: Account): Account {
    match choice
    case Explore => newcomer
    case Known(account) => account
  }

  lemma {:induction false} TotalWeightWithout(
      entries: Entries, used: set<Account>, order: seq<Account>, i: nat)
    requires i < |order|
    ensures TotalWeight(entries, used, order) ==
            Weight(entries, used, order[i]) + TotalWeight(entries, used, order[..i] + order[i + 1..])
  {
    if i == 0 {
      assert order[..0] + order[1..] == order[1..];
    } else {
      var rest := order[1..];
      TotalWeightWithout(entries, used, rest, i - 1);
      assert rest[..i - 1] + rest[i..] == (order[..i] + order[i + 1..])[1..];
    }
  }

  /** The order in which the map is visited does not change the total. */
  lemma {:induction false} TotalIsOrderFree(
      entries: Entries, used: set<Account>, left: seq<Account>, right: seq<Account>)
    requires forall i, j | 0 <= i < j < |left| :: left[i] != left[j]
    requires forall i, j | 0 <= i < j < |right| :: right[i] != right[j]
    requires forall a :: a in left <==> a in right
    ensures TotalWeight(entries, used, left) == TotalWeight(entries, used, right)
  {
    assert right != [] ==> right[0] in right;
    if left != [] {
      assert left[0] in right;
      var i :| 0 <= i < |right| && right[i] == left[0];
      var rest := right[..i] + right[i + 1..];
      TotalWeightWithout(entries, used, right, i);
      forall a
        ensures a in left[1..] <==> a in rest
      {
        assert a in left[1..] <==> a in left && a != left[0];
        assert a in rest <==> a in right && a != left[0] by {
          assert a in right <==> a in right[..i] || a == right[i] || a in right[i + 1..];
        }
      }
      TotalIsOrderFree(entries, used, left[1..], rest);
    }
  }

  /** The first n accounts of the visiting order are decayed, the others not yet. */
  ghost function PartlyDecayed(was: Entries, order: seq<Account>, n: nat, now: int): Entries
    requires n <= |order|
  {
    map a | a in was :: if a in order[..n] then Decay(was[a], now) else was[a]
  }

  lemma DecayNext(was: Entries, order: seq<Account>, n: nat, now: int)
    requires Visits(order, was) && n < |order|
    ensures var partly := PartlyDecayed(was, order, n, now);
            && order[n] in partly && partly[order[n]] == was[order[n]]
            && PartlyDecayed(was, order, n + 1, now) == partly[order[n] := Decay(was[order[n]], now)]
            && order[n] in DecayAll(was, now)
            && DecayAll(was, now)[order[n]] == Decay(was[order[n]], now)
  {
    assert order[n] in order;
    assert order[..n + 1] == order[..n] + [order[n]];
  }

  lemma NoneDecayed(was: Entries, order: seq<Account>, now: int)
    ensures PartlyDecayed(was, order, 0, now) == was
  {
  }

  lemma TotalWeightFrom(entries: Entries, used: set<Account>, order: seq<Account>, i: nat)
    requires i < |order| && order[i] in entries
    ensures TotalWeight(entries, used, order[i..]) ==
            (if order[i] !in used && entries[order[i]].value > 0 then entries[order[i]].value else 0)
            + TotalWeight(entries, used, order[i + 1..])
  {
    assert order[i..][0] == order[i] && order[i..][1..] == order[i + 1..];
  }

  lemma AllDecayed(was: Entries, order: seq<Account>, now: int)
    requires Visits(order, was)
    ensures PartlyDecayed(was, order, |order|, now) == DecayAll(was, now)
  {
    assert order[..|order|] == order;
  }

  class ResinScoreStore {
    var entries: Entries
    var cursor: nat

    constructor ()
      ensures entries == map[] && cursor == 0
    {
      entries, cursor := map[], 0;
    }

    /** Decays every score, then takes the account the next cursor value points at. The two
        loops may visit the map in different orders. */
    method Pick(newcomer: Account, used: set<Account>, now: int,
                first: seq<Account>, second: seq<Account>) returns (picked: Account)
      requires Visits(first, entries) && Visits(second, entries)
      modifies this
      ensures entries == DecayAll(old(entries), now)
      ensures cursor == (old(cursor) + 1) % CURSOR_MODULUS
      ensures picked == Chosen(Choose(entries, used, second, cursor), newcomer)
    {
      var total := DecayScores(used, now, first);
      TotalIsOrderFree(entries, used, first, second);
      cursor := (cursor + 1) % CURSOR_MODULUS;
      var choice := cursor % total;
      if choice < EXPLORE {
        return newcomer;
      }
      picked := Walk(newcomer, used, choice - EXPLORE, second);
    }

    /** The second loop: the account whose interval holds `choice`. It never runs off the end,
        so the newcomer is not returned from here. */
    method Walk(newcomer: Account, used: set<Account>, start: nat, order: seq<Account>)
        returns (picked: Account)
      requires forall a | a in order :: a in entries
      requires start < TotalWeight(entries, used, order)
      ensures picked == Slot(entries, used, order, start)
    {
      var choice := start;
      var i := 0;
      assert order[0..] == order;
      while i < |order|
        invariant 0 <= i <= |order|
        invariant 0 <= choice < TotalWeight(entries, used, order[i..])
        invariant Slot(entries, used, order, start) == Slot(entries, used, order[i..], choice)
      {
        var account := order[i];
        assert order[i..][0] == account && order[i..][1..] == order[i + 1..];
        if account !in used && entries[account].value > 0 {
          if choice < entries[account].value {
            return account;
          }
          choice := choice - entries[account].value;
        }
        i := i + 1;
      }
      assert false;
      return newcomer;
    }

    method DecayScores(used: set<Account>, now: int, order: seq<Account>) returns (total: nat)
      requires Visits(order, entries)
      modifies this`entries
      ensures entries == DecayAll(old(entries), now)
      ensures total == EXPLORE + TotalWeight(entries, used, order)
    {
      hide Decay, DecayAll, Eligible, Visits, PartlyDecayed;
      ghost var was := entries;
      total := EXPLORE;
      var i := 0;
      assert order[0..] == order;
      NoneDecayed(was, order, now);
      while i < |order|
        invariant 0 <= i <= |order|
        invariant entries == PartlyDecayed(was, order, i, now)
        invariant total + TotalWeight(DecayAll(was, now), used, order[i..]) ==
                  EXPLORE + TotalWeight(DecayAll(was, now), used, order)
      {
        var account := order[i];
        DecayNext(was, order, i, now);
        TotalWeightFrom(DecayAll(was, now), used, order, i);
        var entry := Decay(entries[account], now);
        entries := entries[account := entry];
        if account !in used && entry.value > 0 {
          total := total + entry.value;
        }
        i := i + 1;
      }
      AllDecayed(was, order, now);
    }

    /** Records one outcome. A store that outgrows its capacity loses an account with the
        smallest time stamp, provided that stamp is older than this observation. */
    method Observe(account: Account, status: int, failure: Failure, now: int)
      requires "" !in entries
      modifies this`entries
      ensures AfterObserve(old(entries), account, status, failure, now, entries)
    {
      if account == "" || failure.Cancelled? {
        return;
      }
      var entry := Decay(ScoreOf(entries, account), now);
      var value := Rescore(entry.value, status, failure);
      ghost var grown := Observed(entries, account, Delta(status, failure), now);
      entries := entries[account := Score(Clamp(value), At(now))];
      assert entries == grown;
      EvictIfFull(now);
    }

    method Rescore(old': int, status: int, failure: Failure) returns (value: int)
      ensures value == old' + Delta(status, failure)
    {
      value := old';
      if failure.Timeout? {
        value := value - 6;
      } else if failure.OtherError? {
        value := value - 4;
      } else if failure.Cancelled? {
      } else if status == 401 || status == 429 {
        value := value - 10;
      } else if status == 408 || status == 504 {
        value := value - 6;
      } else if status >= 500 {
        value := value - 5;
      } else if 200 <= status < 300 {
        value := value + 3;
      }
    }

    method EvictIfFull(now: int)
      requires "" !in entries
      modifies this`entries
      ensures AfterEviction(old(entries), now, entries)
    {
      if |entries| > CAPACITY {
        var victim := Oldest(now);
        entries := entries - {victim};
      }
    }

    /** The victim of an eviction, or the empty name if no stamp is older than `now`. */
    method Oldest(now: int) returns (victim: Account)
      requires "" !in entries
      ensures victim != "" ==> IsOldest(entries, victim, now)
      ensures victim == "" ==> forall a | a in entries :: !Before(entries[a].updated, now)
    {
      victim := "";
      var oldest := At(now);
      var left := entries.Keys;
      while left != {}
        invariant left <= entries.Keys
        invariant victim == "" ==> oldest == At(now)
        invariant victim != "" ==>
                    victim in entries && oldest == entries[victim].updated && Before(oldest, now)
        invariant forall a | a in entries && a !in left :: !Earlier(entries[a].updated, oldest)
        decreases left
      {
        var candidate := Iteration.AnyOf(left);
        if Earlier(entries[candidate].updated, oldest) {
          victim, oldest := candidate, entries[candidate].updated;
        }
        left := left - {candidate};
      }
    }
  }
}
