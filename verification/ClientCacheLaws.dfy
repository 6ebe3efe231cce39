/** Any number of callers of the client cache, one atomic step at a time: what every
    reachable state satisfies, and what a caller can rely on across steps. */
module ClientCacheLaws {

  import opened ClientCache
  import opened Wrappers

  type Thread = nat

  /** A caller that missed: before and after building its client. */
  datatype Waiting =
    | Building(proxy: Proxy, now: int)
    | Ready(proxy: Proxy, now: int, client: Client)

  datatype State = State(view: View, waiting: map<Thread, Waiting>, built: nat)

  datatype Action =
    | Lookup(t: Thread, proxy: Proxy, now: int)
    | Build(t: Thread)
    | BuildFails(t: Thread)
    | Install(t: Thread, victim: Option<string>)
    | Invalidate

  predicate Enabled(s: State, a: Action) {
    match a
    case Lookup(t, _, _) => t !in s.waiting
    case Build(t) => t in s.waiting && s.waiting[t].Building?
    case BuildFails(t) => t in s.waiting && s.waiting[t].Building?
    case Install(t, victim) =>
      && t in s.waiting && s.waiting[t].Ready?
      && var w := s.waiting[t];
         CacheKey(w.proxy) in s.view.cache || MayEvict(Swept(s.view.cache, w.now), w.proxy, victim)
    case Invalidate => true
  }

  function Next(s: State, a: Action): State
    requires Enabled(s, a)
  {
    match a
    case Lookup(t, p, now) =>
      if CacheKey(p) in s.view.cache then s.(view := AfterLookup(s.view, p, now))
      else s.(waiting := s.waiting[t := Building(p, now)])
    case Build(t) =>
      var w := s.waiting[t];
      s.(waiting := s.waiting[t := Ready(w.proxy, w.now, s.built)], built := s.built + 1)
    case BuildFails(t) => s.(waiting := s.waiting - {t})
    case Install(t, victim) =>
      var w := s.waiting[t];
      s.(view := AfterInstall(s.view, w.proxy, w.now, w.client, victim), waiting := s.waiting - {t})
    case Invalidate => s.(view := AfterInvalidate(s.view))
  }

  /** The key and client a step answers its caller with, if it answers one. */
  function Answer(s: State, a: Action): Option<(string, Client)>
    requires Enabled(s, a)
  {
    match a
    case Lookup(t, p, _) =>
      if CacheKey(p) in s.view.cache then Some((CacheKey(p), s.view.cache[CacheKey(p)].client)) else None
    case Install(t, _) =>
      var w := s.waiting[t];
      var key := CacheKey(w.proxy);
      Some((key, if key in s.view.cache then s.view.cache[key].client else w.client))
    case _ => None
  }

  const START := State(View(map[], {}), map[], 0)

  ghost predicate IsRun(run: seq<State>, acts: seq<Action>) {
    && |run| == |acts| + 1 && run[0] == START
    && forall i | 0 <= i < |acts| :: Enabled(run[i], acts[i]) && run[i + 1] == Next(run[i], acts[i])
  }

  // ------------------------------------------------------------------------------------
  // The bound on dynamic clients.
  // ------------------------------------------------------------------------------------

  predicate Bounded(s: State) {
    NamedKeys(s.view.cache) && |DynamicKeys(s.view.cache)| <= 256
  }

  lemma FewerKeys(small: set<string>, large: set<string>)
    requires small <= large
    ensures |small| <= |large|
  {
    assert large == small + (large - small);
  }

  /** Sweeping and evicting leave room for a newcomer. */
  lemma RoomIsMade(m: Cache, p: Proxy, now: int, victim: Option<string>)
    requires |DynamicKeys(m)| <= 256 && MayEvict(Swept(m, now), p, victim)
    ensures var kept := Evicted(Swept(m, now), victim);
            |DynamicKeys(kept)| <= if IsDynamic(p) then 256 - 1 else 256
  {
    var swept := Swept(m, now);
    assert DynamicKeys(swept) <= DynamicKeys(m);
    FewerKeys(DynamicKeys(swept), DynamicKeys(m));
    if victim.Some? {
      assert DynamicKeys(Evicted(swept, victim)) == DynamicKeys(swept) - {victim.value};
    }
  }

  lemma AddingADynamicClient(m: Cache, key: string, entry: Cached)
    ensures |DynamicKeys(m[key := entry])| <= |DynamicKeys(m)| + if entry.dynamic then 1 else 0
  {
    var after := DynamicKeys(m[key := entry]);
    if entry.dynamic {
      assert after == DynamicKeys(m) + {key};
    } else {
      FewerKeys(after, DynamicKeys(m));
    }
  }

  lemma InstallIsBounded(v: View, p: Proxy, now: int, built: Client, victim: Option<string>)
    requires NamedKeys(v.cache) && |DynamicKeys(v.cache)| <= 256
    requires CacheKey(p) in v.cache || MayEvict(Swept(v.cache, now), p, victim)
    ensures var after := AfterInstall(v, p, now, built, victim).cache;
            NamedKeys(after) && |DynamicKeys(after)| <= 256
  {
    var key := CacheKey(p);
    if key in v.cache {
      assert DynamicKeys(Touched(v.cache, key, now)) == DynamicKeys(v.cache);
    } else {
      RoomIsMade(v.cache, p, now, victim);
      var kept := Evicted(Swept(v.cache, now), victim);
      hide DynamicKeys, MayEvict, Swept, CacheKey, IsDynamic;
      AddingADynamicClient(kept, key, Cached(built, now, IsDynamic(p)));
    }
  }

  lemma StepIsBounded(s: State, a: Action)
    requires Bounded(s) && Enabled(s, a)
    ensures Bounded(Next(s, a))
  {
    match a {
      case Lookup(t, p, now) =>
        if CacheKey(p) in s.view.cache {
          assert DynamicKeys(AfterLookup(s.view, p, now).cache) == DynamicKeys(s.view.cache);
        }
      case Install(t, victim) =>
        InstallIsBounded(s.view, s.waiting[t].proxy, s.waiting[t].now, s.waiting[t].client, victim);
      case _ =>
    }
  }

  /** No reachable state holds more than 256 dynamic clients, whatever the callers do. */
  lemma {:induction false} AtMost256Dynamic(run: seq<State>, acts: seq<Action>, i: nat)
    requires IsRun(run, acts) && i < |run|
    ensures |DynamicKeys(run[i].view.cache)| <= 256 && NamedKeys(run[i].view.cache)
  {
    if i > 0 {
      AtMost256Dynamic(run, acts, i - 1);
      StepIsBounded(run[i - 1], acts[i - 1]);
    }
  }

  // ------------------------------------------------------------------------------------
  // Where every client is.
  // ------------------------------------------------------------------------------------

  function Held(waiting: map<Thread, Waiting>): set<Client> {
    set t | t in waiting && waiting[t].Ready? :: waiting[t].client
  }

  /** The first n clients. */
  function FirstBuilt(n: nat): (clients: set<Client>)
    ensures forall c: Client :: c in clients <==> c < n
  {
    if n == 0 then {} else FirstBuilt(n - 1) + {n - 1}
  }

  /** Every client built so far is in one place: in the cache under one key, with the one
      caller that built it, or closed. */
  ghost predicate Accounted(s: State) {
    && (forall k, l | k in s.view.cache && l in s.view.cache && k != l ::
          s.view.cache[k].client != s.view.cache[l].client)
    && (forall t, u | t in s.waiting && u in s.waiting && t != u && s.waiting[t].Ready? && s.waiting[u].Ready? ::
          s.waiting[t].client != s.waiting[u].client)
    && Clients(s.view.cache) !! Held(s.waiting)
    && (Clients(s.view.cache) + Held(s.waiting)) !! s.view.closed
    && Clients(s.view.cache) + Held(s.waiting) + s.view.closed == FirstBuilt(s.built)
  }

  lemma {:induction false} EveryClientIsAccountedFor(run: seq<State>, acts: seq<Action>, i: nat)
    requires IsRun(run, acts) && i < |run|
    ensures Accounted(run[i])
  {
    if i > 0 {
      EveryClientIsAccountedFor(run, acts, i - 1);
      StepAccounts(run[i - 1], acts[i - 1]);
    }
  }

  lemma StepAccounts(s: State, a: Action)
    requires Accounted(s) && Enabled(s, a)
    ensures Accounted(Next(s, a))
  {
    match a {
      case Lookup(t, p, now) => LookupAccounts(s, t, p, now);
      case Build(t) => BuildAccounts(s, t);
      case BuildFails(t) => SameReady(s.waiting, s.waiting - {t});
      case Install(t, victim) => InstallAccounts(s, t, victim);
      case Invalidate => assert Clients(map[]) == {};
    }
  }

  lemma SameReady(before: map<Thread, Waiting>, after: map<Thread, Waiting>)
    requires forall t | t in before && before[t].Ready? :: t in after && after[t] == before[t]
    requires forall t | t in after && after[t].Ready? :: t in before && before[t] == after[t]
    ensures Held(after) == Held(before)
  {
  }

  lemma LookupAccounts(s: State, t: Thread, p: Proxy, now: int)
    requires Accounted(s) && Enabled(s, Lookup(t, p, now))
    ensures Accounted(Next(s, Lookup(t, p, now)))
  {
    var after := Next(s, Lookup(t, p, now));
    SameReady(s.waiting, after.waiting);
    if CacheKey(p) in s.view.cache {
      TouchKeepsClients(s.view.cache, CacheKey(p), now);
    }
  }

  lemma TouchKeepsClients(m: Cache, key: string, now: int)
    requires key in m
    ensures Clients(Touched(m, key, now)) == Clients(m)
  {
    var after := Touched(m, key, now);
    forall k | k in m
      ensures after[k].client == m[k].client && m[k].client in Clients(after)
    {
    }
  }

  lemma BuildAccounts(s: State, t: Thread)
    requires Accounted(s) && Enabled(s, Build(t))
    ensures Accounted(Next(s, Build(t)))
  {
    var after := Next(s, Build(t));
    assert Held(after.waiting) == Held(s.waiting) + {s.built} by {
      assert after.waiting[t].client == s.built;
      forall u | u in s.waiting && s.waiting[u].Ready?
        ensures s.waiting[u].client in Held(after.waiting)
      {
        assert after.waiting[u] == s.waiting[u];
      }
    }
    assert s.built !in Clients(s.view.cache) + Held(s.waiting) + s.view.closed;
  }

  lemma InstallAccounts(s: State, t: Thread, victim: Option<string>)
    requires Accounted(s) && Enabled(s, Install(t, victim))
    ensures Accounted(Next(s, Install(t, victim)))
  {
    var w := s.waiting[t];
    var key := CacheKey(w.proxy);
    var after := Next(s, Install(t, victim));
    assert Held(after.waiting) == Held(s.waiting) - {w.client} by {
      forall u | u in s.waiting && u != t && s.waiting[u].Ready?
        ensures s.waiting[u].client in Held(after.waiting)
      {
        assert u in after.waiting && after.waiting[u] == s.waiting[u];
      }
    }
    assert w.client in Held(s.waiting);
    if key in s.view.cache {
      TouchKeepsClients(s.view.cache, key, w.now);
    } else {
      var kept := Evicted(Swept(s.view.cache, w.now), victim);
      InstallSplitsClients(s.view.cache, kept, key, Cached(w.client, w.now, IsDynamic(w.proxy)));
    }
  }

  /** The clients not kept and the clients kept are all the old ones, none in both. */
  lemma InstallSplitsClients(m: Cache, kept: Cache, key: string, entry: Cached)
    requires kept.Keys <= m.Keys && forall k | k in kept :: kept[k] == m[k]
    requires key !in m
    requires forall k, l | k in m && l in m && k != l :: m[k].client != m[l].client
    ensures var gone := ClientsOf(m, m.Keys - kept.Keys);
            && Clients(kept[key := entry]) == Clients(kept) + {entry.client}
            && Clients(m) == Clients(kept) + gone
            && Clients(kept) !! gone
  {
    var after := kept[key := entry];
    assert key in after && after[key] == entry;
    forall k | k in kept
      ensures kept[k].client in Clients(after)
    {
      assert k in after && after[k] == kept[k];
    }
  }

  // ------------------------------------------------------------------------------------
  // What callers see.
  // ------------------------------------------------------------------------------------

  /** An answer is the client the cache holds under the caller's key, stamped with its clock. */
  lemma AnswersAreCached(s: State, a: Action)
    requires Enabled(s, a) && Answer(s, a).Some?
    ensures var (key, client) := Answer(s, a).value;
            && key in Next(s, a).view.cache
            && Next(s, a).view.cache[key].client == client
            && Next(s, a).view.cache[key].lastUsed == if a.Lookup? then a.now else s.waiting[a.t].now
  {
  }

  /** The client of a key does not change while it stays. */
  lemma StayingMeansSame(s: State, a: Action, key: string)
    requires Enabled(s, a) && key in s.view.cache && key in Next(s, a).view.cache
    ensures Next(s, a).view.cache[key].client == s.view.cache[key].client
  {
  }

  /** The dynamic clients used in the last ten minutes. */
  function InUse(m: Cache, now: int): set<string> {
    set k | k in m && m[k].dynamic && now - m[k].lastUsed < 600_000_000_000
  }

  /** A client leaves the cache for one of three reasons: everything is dropped, it was not
      used for ten minutes, or it is a dynamic client, used longest ago, that makes room for
      another dynamic one, of a proxy without a row. A client of the pool is never evicted for
      room. */
  lemma WhyAClientLeaves(s: State, a: Action, key: string)
    requires Bounded(s) && Enabled(s, a)
    requires key in s.view.cache
    ensures key !in Next(s, a).view.cache <==>
            || a.Invalidate?
            || (&& a.Install?
                && var w, entry := s.waiting[a.t], s.view.cache[key];
                && CacheKey(w.proxy) !in s.view.cache
                && (|| w.now - entry.lastUsed >= 600_000_000_000
                    || (&& a.victim == Some(key)
                        && w.proxy.id == 0 && w.proxy.uri != "" && entry.dynamic
                        && |InUse(s.view.cache, w.now)| == 256
                        && forall k | k in InUse(s.view.cache, w.now) ::
                             entry.lastUsed <= s.view.cache[k].lastUsed)))
  {
    if a.Install? {
      var w := s.waiting[a.t];
      var swept := Swept(s.view.cache, w.now);
      FewerKeys(DynamicKeys(swept), DynamicKeys(s.view.cache));
      assert DynamicKeys(swept) == InUse(s.view.cache, w.now);
    }
  }

  /** What a step leaves of the entries: the one under the caller's key is stamped with the
      caller's clock, a new one is the caller's own client, dynamic if its proxy has no row but
      an address; every other entry that stays is as it was. */
  lemma EntriesAfter(s: State, a: Action, key: string)
    requires Enabled(s, a) && key in Next(s, a).view.cache
    ensures var entry := Next(s, a).view.cache[key];
            if a.Lookup? && CacheKey(a.proxy) == key then
              key in s.view.cache && entry == s.view.cache[key].(lastUsed := a.now)
            else if a.Install? && CacheKey(s.waiting[a.t].proxy) == key then
              var w := s.waiting[a.t];
              entry == if key in s.view.cache then s.view.cache[key].(lastUsed := w.now)
                       else Cached(w.client, w.now, w.proxy.id == 0 && w.proxy.uri != "")
            else key in s.view.cache && entry == s.view.cache[key]
  {
  }

  /** While a key stays cached it keeps its client. */
  lemma {:induction false} SameClientWhileCached(run: seq<State>, acts: seq<Action>, i: nat, j: nat, key: string)
    requires IsRun(run, acts) && i <= j < |run|
    requires forall m | i <= m <= j :: key in run[m].view.cache
    ensures key in run[i].view.cache && key in run[j].view.cache
    ensures run[j].view.cache[key].client == run[i].view.cache[key].client
    decreases j - i
  {
    if i < j {
      SameClientWhileCached(run, acts, i, j - 1, key);
      assert key in run[j].view.cache;
      StayingMeansSame(run[j - 1], acts[j - 1], key);
    }
  }

  /** Two callers of one key get the same client, however their steps interleave, unless the
      cache was without that key at some point between their answers. */
  lemma CallersShareAClient(run: seq<State>, acts: seq<Action>, i: nat, j: nat, key: string)
    requires IsRun(run, acts) && i < j < |acts|
    requires Answer(run[i], acts[i]).Some? && Answer(run[i], acts[i]).value.0 == key
    requires Answer(run[j], acts[j]).Some? && Answer(run[j], acts[j]).value.0 == key
    requires forall m | i < m <= j :: key in run[m].view.cache
    ensures Answer(run[i], acts[i]).value.1 == Answer(run[j], acts[j]).value.1
  {
    AnswersAreCached(run[i], acts[i]);
    SameClientWhileCached(run, acts, i + 1, j, key);
    AnswersAreCached(run[j], acts[j]);
    StayingMeansSame(run[j], acts[j], key);
  }

  // ------------------------------------------------------------------------------------
  // Keys tell proxies apart.
  // ------------------------------------------------------------------------------------

  lemma LastDiffers(a: string, c: char, b: string, d: char)
    requires a + [c] == b + [d]
    ensures a == b && c == d
  {
    assert a == (a + [c])[..|a|] && b == (b + [d])[..|b|];
    assert c == (a + [c])[|a|] && d == (b + [d])[|b|];
  }

  function Front(n: nat): string {
    if n < 10 then "" else Digits(n / 10)
  }

  lemma DigitDiffers(c: nat, d: nat)
    requires c < 10 && d < 10 && Digit(c) == Digit(d)
    ensures c == d
  {
  }

  lemma {:induction false} DigitsDiffer(m: nat, n: nat)
    requires Digits(m) == Digits(n)
    ensures m == n
  {
    assert Digits(m) == Front(m) + [Digit(m % 10)];
    assert Digits(n) == Front(n) + [Digit(n % 10)];
    hide Digits, Digit;
    LastDiffers(Front(m), Digit(m % 10), Front(n), Digit(n % 10));
    DigitDiffers(m % 10, n % 10);
    if m >= 10 && n >= 10 {
      DigitsDiffer(m / 10, n / 10);
    }
  }

  lemma FormatIntDiffers(m: int, n: int)
    requires FormatInt(m) == FormatInt(n)
    ensures m == n
  {
    SignShows(m);
    SignShows(n);
    hide FormatInt, Digits;
    if m < 0 {
      DigitsDiffer(-m, -n);
    } else {
      DigitsDiffer(m, n);
    }
  }

  lemma SignShows(n: int)
    ensures FormatInt(n) != "" && (FormatInt(n)[0] == '-' <==> n < 0)
    ensures n >= 0 ==> FormatInt(n) == Digits(n)
    ensures n < 0 ==> FormatInt(n)[1..] == Digits(-n)
  {
    hide Digits;
  }

  function BeforeNul(s: string): string {
    if s == "" || s[0] == NUL then "" else [s[0]] + BeforeNul(s[1..])
  }

  lemma {:induction false} FieldIsBeforeNul(a: string, rest: string)
    requires NUL !in a
    ensures BeforeNul(a + [NUL] + rest) == a
  {
    if a != "" {
      assert (a + [NUL] + rest)[1..] == a[1..] + [NUL] + rest;
      FieldIsBeforeNul(a[1..], rest);
    }
  }

  /** Text before the first separator can be read off. */
  lemma FirstFieldDiffers(a: string, restA: string, b: string, restB: string)
    requires NUL !in a && NUL !in b
    requires a + [NUL] + restA == b + [NUL] + restB
    ensures a == b && restA == restB
  {
    FieldIsBeforeNul(a, restA);
    FieldIsBeforeNul(b, restB);
    assert restA == (a + [NUL] + restA)[|a| + 1..] && restB == (b + [NUL] + restB)[|b| + 1..];
  }

  /** Proxies whose address and user name hold no NUL share a key only if they are the same,
      so the one client of a key serves one proxy. */
  lemma KeysTellProxiesApart(p: Proxy, q: Proxy)
    requires NUL !in p.uri && NUL !in q.uri && NUL !in p.username && NUL !in q.username
    ensures CacheKey(p) == CacheKey(q) <==> p == q
  {
    if CacheKey(p) == CacheKey(q) {
      var restP := p.uri + [NUL] + p.username + [NUL] + p.password;
      var restQ := q.uri + [NUL] + q.username + [NUL] + q.password;
      NoNulInNumbers(p.id);
      NoNulInNumbers(q.id);
      assert CacheKey(p) == FormatInt(p.id) + [NUL] + restP;
      assert CacheKey(q) == FormatInt(q.id) + [NUL] + restQ;
      FirstFieldDiffers(FormatInt(p.id), restP, FormatInt(q.id), restQ);
      FormatIntDiffers(p.id, q.id);
      assert restP == p.uri + [NUL] + (p.username + [NUL] + p.password);
      assert restQ == q.uri + [NUL] + (q.username + [NUL] + q.password);
      FirstFieldDiffers(p.uri, p.username + [NUL] + p.password, q.uri, q.username + [NUL] + q.password);
      FirstFieldDiffers(p.username, p.password, q.username, q.password);
    }
  }

  lemma NoNulInNumbers(n: int)
    ensures NUL !in FormatInt(n)
  {
  }
}
