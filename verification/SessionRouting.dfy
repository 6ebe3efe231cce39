/** Sticky routing: which proxy or which Resin account generation the next request of a
    session uses, with the quota that moves a session on. */
module SessionRouting {

  datatype Proxy = Proxy(id: int, uri: string)

  /** A row of `session_proxy_routes`. */
  datatype Binding = Binding(proxyId: int, count: int)

  /** A row of `resin_session_routes`. */
  datatype ResinRow = ResinRow(generation: int, count: int)

  /** Which database statement of a call fails, if any. */
  datatype Fault = NoFault | ReadFails | WriteFails

  datatype Pick = Chosen(proxy: Proxy) | Dry | Broken

  /** Stands for the hash of the session key and the generation. */
  datatype Account = Anonymous | Derived(key: string, generation: int)

  datatype AccountResult = Ok(account: Account) | Failed

  type Bindings = map<string, Binding>
  type ResinRows = map<string, ResinRow>

  predicate Distinct(proxies: seq<Proxy>) {
    forall i, j | 0 <= i < j < |proxies| :: proxies[i].id != proxies[j].id
  }

  function Unused(proxies: seq<Proxy>, used: set<int>): (r: seq<Proxy>)
    ensures forall p | p in r :: p in proxies && p.id !in used
    ensures forall p | p in proxies && p.id !in used :: p in r
  {
    if proxies == [] then []
    else if proxies[0].id in used then Unused(proxies[1..], used)
    else [proxies[0]] + Unused(proxies[1..], used)
  }

  lemma UnusedFrom(proxies: seq<Proxy>, i: nat, used: set<int>)
    requires i < |proxies|
    ensures Unused(proxies[i..], used) ==
            (if proxies[i].id in used then [] else [proxies[i]]) + Unused(proxies[i + 1..], used)
  {
    assert proxies[i..][1..] == proxies[i + 1..];
  }

  lemma NoneUnused(proxies: seq<Proxy>, used: set<int>)
    ensures proxies[0..] == proxies && proxies[|proxies|..] == [] && Unused([], used) == []
    ensures [] + Unused(proxies, used) == Unused(proxies, used)
  {
  }

  lemma OneMore(eligible: seq<Proxy>, p: Proxy, rest: seq<Proxy>)
    ensures eligible + ([p] + rest) == eligible + [p] + rest
  {
  }

  /** The session stays on its proxy: still offered, not yet tried, quota not used up. */
  predicate Stays(b: Binding, p: Proxy, used: set<int>, limit: int) {
    p.id == b.proxyId && p.id !in used && (limit == 0 || b.count < limit)
  }

  predicate Sticky(routes: Bindings, key: string, proxies: seq<Proxy>, used: set<int>, limit: int) {
    key in routes && exists p :: p in proxies && Stays(routes[key], p, used, limit)
  }

  datatype Table = Table(routes: Bindings, rr: nat)

  /** One pick and the table it leaves. */
  function PickFrom(t: Table, key: string, proxies: seq<Proxy>, used: set<int>, limit: int,
                    fault: Fault): (Pick, Table)
    requires Distinct(proxies)
  {
    if key != "" && fault.ReadFails? then (Broken, t)
    else if key != "" && Sticky(t.routes, key, proxies, used, limit) then
      if fault.WriteFails? then (Broken, t)
      else
        var b := t.routes[key];
        (Chosen(TheProxy(proxies, b.proxyId)), t.(routes := t.routes[key := b.(count := b.count + 1)]))
    else
      var eligible := Unused(proxies, used);
      if eligible == [] then (Dry, t)
      else
        var p := eligible[t.rr % |eligible|];
        if key == "" then (Chosen(p), t.(rr := t.rr + 1))
        else if fault.WriteFails? then (Broken, t.(rr := t.rr + 1))
        else (Chosen(p), Table(t.routes[key := Binding(p.id, 1)], t.rr + 1))
  }

  function TheProxy(proxies: seq<Proxy>, id: int): (p: Proxy)
    requires exists p :: p in proxies && p.id == id
    ensures p in proxies && p.id == id
  {
    if proxies[0].id == id then proxies[0] else TheProxy(proxies[1..], id)
  }

  lemma TheProxyIs(proxies: seq<Proxy>, i: nat)
    requires Distinct(proxies) && i < |proxies|
    ensures TheProxy(proxies, proxies[i].id) == proxies[i]
  {
    assert proxies[i] in proxies;
  }

  /** One call for the next account of a session and the rows it leaves. */
  function NextAccount(rows: ResinRows, key: string, limit: int, fault: Fault)
      : (AccountResult, ResinRows)
  {
    if key == "" then (Ok(Anonymous), rows)
    else if !fault.NoFault? then (Failed, rows)
    else
      var row :=
        if key !in rows then ResinRow(0, 1)
        else if limit > 0 && rows[key].count >= limit then ResinRow(rows[key].generation + 1, 1)
        else rows[key].(count := rows[key].count + 1);
      (Ok(Derived(key, row.generation)), rows[key := row])
  }

  function Advanced(rows: ResinRows, key: string, fault: Fault): ResinRows {
    if key == "" || !fault.NoFault? || key !in rows then rows
    else rows[key := ResinRow(rows[key].generation + 1, 0)]
  }

  class SessionRouter {
    var routes: Bindings
    var rr: nat
    var resin: ResinRows

    constructor ()
      ensures routes == map[] && rr == 0 && resin == map[]
    {
      routes, rr, resin := map[], 0, map[];
    }

    ghost function State(): Table
      reads this
    {
      Table(routes, rr)
    }

    method PickSessionProxy(key: string, proxies: seq<Proxy>, used: set<int>, limit: int, fault: Fault)
        returns (pick: Pick)
      requires Distinct(proxies)
      modifies this`routes, this`rr
      ensures (pick, State()) == PickFrom(old(State()), key, proxies, used, limit, fault)
    {
      hide Unused, Distinct, TheProxy;
      if key != "" {
        if fault.ReadFails? {
          return Broken;
        }
        if key in routes {
          var current := routes[key];
          var i := 0;
          while i < |proxies| && proxies[i].id != current.proxyId
            invariant 0 <= i <= |proxies|
            invariant forall j | 0 <= j < i :: proxies[j].id != current.proxyId
          {
            i := i + 1;
          }
          if i < |proxies| {
            var candidate := proxies[i];
            TheProxyIs(proxies, i);
            if candidate.id !in used && (limit == 0 || current.count < limit) {
              assert Stays(current, candidate, used, limit);
              if fault.WriteFails? {
                return Broken;
              }
              routes := routes[key := current.(count := current.count + 1)];
              return Chosen(candidate);
            }
          }
        }
      }
      var eligible := EligibleProxies(proxies, used);
      if |eligible| == 0 {
        return Dry;
      }
      rr := rr + 1;
      var selected := eligible[(rr - 1) % |eligible|];
      if key != "" {
        if fault.WriteFails? {
          return Broken;
        }
        routes := routes[key := Binding(selected.id, 1)];
      }
      return Chosen(selected);
    }

    method EligibleProxies(proxies: seq<Proxy>, used: set<int>) returns (eligible: seq<Proxy>)
      ensures eligible == Unused(proxies, used)
    {
      NoneUnused(proxies, used);
      hide Unused;
      eligible := [];
      var i := 0;
      while i < |proxies|
        invariant 0 <= i <= |proxies|
        invariant eligible + Unused(proxies[i..], used) == Unused(proxies, used)
      {
        UnusedFrom(proxies, i, used);
        if proxies[i].id !in used {
          OneMore(eligible, proxies[i], Unused(proxies[i + 1..], used));
          eligible := eligible + [proxies[i]];
        } else {
          assert [] + Unused(proxies[i + 1..], used) == Unused(proxies[i + 1..], used);
        }
        i := i + 1;
      }
    }

    method ClearSessionProxy(key: string, proxyId: int)
      modifies this`routes
      ensures routes == if key != "" && key in old(routes) && old(routes)[key].proxyId == proxyId
                        then old(routes) - {key} else old(routes)
    {
      if key == "" {
        return;
      }
      if key in routes && routes[key].proxyId == proxyId {
        routes := routes - {key};
      }
    }

    method NextResinAccount(key: string, limit: int, fault: Fault) returns (result: AccountResult)
      modifies this`resin
      ensures (result, resin) == NextAccount(old(resin), key, limit, fault)
    {
      if key == "" {
        return Ok(Anonymous);
      }
      if fault.ReadFails? {
        return Failed;
      }
      var generation, requestCount := 0, 1;
      if key in resin {
        generation, requestCount := resin[key].generation, resin[key].count;
        if limit > 0 && requestCount >= limit {
          generation := generation + 1;
          requestCount := 1;
        } else {
          requestCount := requestCount + 1;
        }
      }
      if fault.WriteFails? {
        return Failed;
      }
      resin := resin[key := ResinRow(generation, requestCount)];
      return Ok(Derived(key, generation));
    }

    method AdvanceResinAccount(key: string, fault: Fault)
      modifies this`resin
      ensures resin == Advanced(old(resin), key, fault)
    {
      if key == "" || !fault.NoFault? {
        return;
      }
      if key in resin {
        resin := resin[key := ResinRow(resin[key].generation + 1, 0)];
      }
    }
  }
}
