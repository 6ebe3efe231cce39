/** The HTTP clients kept per proxy. A caller looks its client up under the read lock, builds
    one outside any lock on a miss, and installs it under the write lock after checking again.
    Clients are told apart by the order in which they were built; instants are nanoseconds. */
module ClientCache {

  import Iteration
  import opened Wrappers

  type Client = nat

  datatype Proxy = Proxy(id: int, uri: string, username: string, password: string)

  datatype Cached = Cached(client: Client, lastUsed: int, dynamic: bool)

  type Cache = map<string, Cached>

  const IDLE_LIMIT := 600_000_000_000
  const MAX_DYNAMIC := 256
  const NUL: char := '\0'

  function Digit(d: nat): (c: char)
    requires d < 10
    ensures '0' <= c <= '9'
  {
    "0123456789"[d]
  }

  function Digits(n: nat): (s: string)
    ensures s != "" && forall k | 0 <= k < |s| :: '0' <= s[k] <= '9'
  {
    (if n < 10 then "" else Digits(n / 10)) + [Digit(n % 10)]
  }

  function FormatInt(n: int): string {
    if n < 0 then "-" + Digits(-n) else Digits(n)
  }

  function CacheKey(p: Proxy): (key: string)
    ensures key != ""
  {
    FormatInt(p.id) + [NUL] + p.uri + [NUL] + p.username + [NUL] + p.password
  }

  /** Resin accounts; the proxies of the pool have row ids. */
  predicate IsDynamic(p: Proxy) {
    p.id == 0 && p.uri != ""
  }

  predicate Idle(c: Cached, now: int) {
    now - c.lastUsed >= IDLE_LIMIT
  }

  function DynamicKeys(m: Cache): set<string> {
    set k | k in m && m[k].dynamic
  }

  function Clients(m: Cache): set<Client> {
    set k | k in m :: m[k].client
  }

  function Touched(m: Cache, key: string, now: int): Cache
    requires key in m
  {
    m[key := m[key].(lastUsed := now)]
  }

  function Swept(m: Cache, now: int): Cache {
    map k | k in m && !Idle(m[k], now) :: m[k]
  }

  /** The dynamic client used longest ago, or one of them. */
  predicate IsOldest(m: Cache, key: string) {
    && key in DynamicKeys(m)
    && forall k | k in DynamicKeys(m) :: m[key].lastUsed <= m[k].lastUsed
  }

  /** The oldest of the clients seen so far, and when it was used. */
  ghost predicate Surveyed(m: Cache, seen: set<string>, key: string, oldest: int) {
    && seen <= m.Keys && (key == "" <==> seen == {})
    && (key != "" ==> key in seen && oldest == m[key].lastUsed && forall k | k in seen :: oldest <= m[k].lastUsed)
  }

  lemma NothingSeen(m: Cache)
    ensures DynamicKeys(m) - m.Keys == {} && DynamicKeys(m) <= m.Keys
  {
  }

  lemma DynamicIs(m: Cache, key: string)
    requires key in m
    ensures key in DynamicKeys(m) <==> m[key].dynamic
  {
  }

  /** A dynamic newcomer displaces one client when there are too many, nobody otherwise. */
  predicate MayEvict(m: Cache, p: Proxy, victim: Option<string>) {
    if IsDynamic(p) && |DynamicKeys(m)| >= MAX_DYNAMIC
    then victim.Some? && IsOldest(m, victim.value)
    else victim.None?
  }

  function Evicted(m: Cache, victim: Option<string>): Cache {
    if victim.Some? then m - {victim.value} else m
  }

  /** What the locks protect, and the clients whose idle connections were closed. */
  datatype View = View(cache: Cache, closed: set<Client>)

  function AfterLookup(v: View, p: Proxy, now: int): View {
    if CacheKey(p) in v.cache then v.(cache := Touched(v.cache, CacheKey(p), now)) else v
  }

  function AfterInstall(v: View, p: Proxy, now: int, built: Client, victim: Option<string>): View {
    if CacheKey(p) in v.cache then
      View(Touched(v.cache, CacheKey(p), now), v.closed + {built})
    else
      var kept := Evicted(Swept(v.cache, now), victim);
      View(kept[CacheKey(p) := Cached(built, now, IsDynamic(p))],
           v.closed + ClientsOf(v.cache, v.cache.Keys - kept.Keys))
  }

  function ClientsOf(m: Cache, keys: set<string>): set<Client>
    requires keys <= m.Keys
  {
    set k | k in keys :: m[k].client
  }

  function AfterInvalidate(v: View): View {
    View(map[], v.closed + Clients(v.cache))
  }

  predicate NamedKeys(m: Cache) {
    "" !in m
  }

  // ------------------------------------------------------------------------------------
  // The cache as an object; each method runs under one hold of the lock.
  // ------------------------------------------------------------------------------------

  class HttpClients {
    var clients: Cache
    var closed: set<Client>

    constructor ()
      ensures Now() == View(map[], {})
    {
      clients, closed := map[], {};
    }

    function Now(): View
      reads this
    {
      View(clients, closed)
    }

    method Lookup(p: Proxy, now: int) returns (client: Option<Client>)
      modifies this
      ensures Now() == AfterLookup(old(Now()), p, now)
      ensures client == if CacheKey(p) in old(clients) then Some(old(clients)[CacheKey(p)].client) else None
    {
      var key := CacheKey(p);
      if key in clients {
        clients := clients[key := clients[key].(lastUsed := now)];
        return Some(clients[key].client);
      }
      return None;
    }

    method Install(p: Proxy, now: int, built: Client) returns (client: Client, ghost victim: Option<string>)
      requires NamedKeys(clients)
      modifies this
      ensures NamedKeys(clients)
      ensures CacheKey(p) in old(clients) || MayEvict(Swept(old(clients), now), p, victim)
      ensures Now() == AfterInstall(old(Now()), p, now, built, victim)
      ensures client == if CacheKey(p) in old(clients) then old(clients)[CacheKey(p)].client else built
    {
      var key := CacheKey(p);
      victim := None;
      if key in clients {
        closed := closed + {built};
        clients := clients[key := clients[key].(lastUsed := now)];
        return clients[key].client, None;
      }
      Sweep(now);
      if IsDynamic(p) {
        victim := EvictOldest();
      }
      clients := clients[key := Cached(built, now, IsDynamic(p))];
      client := built;
    }

    /** Drops every client that has not been used for ten minutes. */
    method Sweep(now: int)
      modifies this
      ensures clients == Swept(old(clients), now)
      ensures closed == old(closed) + ClientsOf(old(clients), old(clients).Keys - clients.Keys)
    {
      var left := clients.Keys;
      while left != {}
        invariant left <= old(clients).Keys
        invariant clients == map k | k in old(clients) && (k in left || !Idle(old(clients)[k], now)) :: old(clients)[k]
        invariant closed == old(closed) + ClientsOf(old(clients), old(clients).Keys - clients.Keys)
        decreases |left|
      {
        var key := Iteration.AnyOf(left);
        left := left - {key};
        if now - clients[key].lastUsed >= IDLE_LIMIT {
          closed := closed + {clients[key].client};
          clients := clients - {key};
        }
      }
    }

    /** Makes room for one more dynamic client. */
    method EvictOldest() returns (ghost victim: Option<string>)
      requires NamedKeys(clients)
      modifies this
      ensures |DynamicKeys(old(clients))| >= MAX_DYNAMIC ==> victim.Some? && IsOldest(old(clients), victim.value)
      ensures |DynamicKeys(old(clients))| < MAX_DYNAMIC ==> victim.None?
      ensures clients == Evicted(old(clients), victim)
      ensures closed == old(closed) + ClientsOf(old(clients), old(clients).Keys - clients.Keys)
    {
      victim := None;
      var count, oldestKey := Survey();
      if count >= MAX_DYNAMIC && oldestKey != "" {
        victim := Some(oldestKey);
        closed := closed + {clients[oldestKey].client};
        clients := clients - {oldestKey};
      }
    }

    /** Counts the dynamic clients and finds the one used longest ago. */
    method Survey() returns (count: nat, oldestKey: string)
      requires NamedKeys(clients)
      ensures count == |DynamicKeys(clients)|
      ensures if count == 0 then oldestKey == "" else oldestKey != "" && IsOldest(clients, oldestKey)
    {
      hide DynamicKeys;
      count, oldestKey := 0, "";
      var oldest := 0;
      var left := clients.Keys;
      ghost var seen: set<string> := {};
      NothingSeen(clients);
      while left != {}
        invariant left <= clients.Keys
        invariant seen == DynamicKeys(clients) - left && count == |seen|
        invariant Surveyed(clients, seen, oldestKey, oldest)
        decreases |left|
      {
        var key := Iteration.AnyOf(left);
        DynamicIs(clients, key);
        left := left - {key};
        if clients[key].dynamic {
          count := count + 1;
          seen := seen + {key};
          var lastUsed := clients[key].lastUsed;
          if oldestKey == "" || lastUsed < oldest {
            oldestKey, oldest := key, lastUsed;
          }
        }
      }
      assert seen == DynamicKeys(clients);
    }

    method Invalidate()
      modifies this
      ensures Now() == AfterInvalidate(old(Now()))
    {
      var left := clients.Keys;
      while left != {}
        invariant left <= clients.Keys && clients == old(clients)
        invariant closed == old(closed) + ClientsOf(clients, clients.Keys - left)
        decreases |left|
      {
        var key := Iteration.AnyOf(left);
        left := left - {key};
        closed := closed + {clients[key].client};
      }
      assert ClientsOf(clients, clients.Keys) == Clients(clients);
      clients := map[];
    }

    /** `clientFor` with no other caller in between; `built` is what building would give. */
    method ClientFor(p: Proxy, now: int, built: Option<Client>) returns (client: Option<Client>)
      requires NamedKeys(clients)
      modifies this
      ensures NamedKeys(clients)
      ensures client.Some? ==>
                && CacheKey(p) in clients && clients[CacheKey(p)].client == client.value
                && clients[CacheKey(p)].lastUsed == now
      ensures CacheKey(p) in old(clients) ==> client == Some(old(clients)[CacheKey(p)].client)
      ensures CacheKey(p) !in old(clients) ==> client == built
      ensures client.None? ==> Now() == old(Now())
    {
      client := Lookup(p, now);
      if client.Some? || built.None? {
        return;
      }
      var installed, _ := Install(p, now, built.value);
      client := Some(installed);
    }
  }
}
