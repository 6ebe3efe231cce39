/** Quotas and fairness of session routing over runs of picks of many sessions. */
module SessionRoutingLaws {
  import opened SessionRouting
  import Arithmetic

  // ------------------------------------------------------------------------------------
  // Bindings to pool proxies.
  // ------------------------------------------------------------------------------------

  /** One pick by some session. */
  datatype Call = Call(key: string, proxies: seq<Proxy>, used: set<int>, fault: Fault)

  ghost predicate WellFormed(calls: seq<Call>) {
    forall c | c in calls :: Distinct(c.proxies)
  }

  function Run(t: Table, calls: seq<Call>, limit: int): Table
    requires WellFormed(calls)
    decreases |calls|
  {
    if calls == [] then t
    else
      var c := calls[0];
      assert c in calls;
      assert forall d | d in calls[1..] :: d in calls;
      Run(PickFrom(t, c.key, c.proxies, c.used, limit, c.fault).1, calls[1..], limit)
  }

  /** The picks `key` gets during a run. */
  function Picks(t: Table, calls: seq<Call>, limit: int, key: string): seq<Pick>
    requires WellFormed(calls)
    decreases |calls|
  {
    if calls == [] then []
    else
      var c := calls[0];
      assert c in calls;
      assert forall d | d in calls[1..] :: d in calls;
      var (pick, next) := PickFrom(t, c.key, c.proxies, c.used, limit, c.fault);
      (if c.key == key then [pick] else []) + Picks(next, calls[1..], limit, key)
  }

  /** Proxy `id` stays eligible for every pick of `key`: it is offered and not used up by the
      attempts of the same request. */
  ghost predicate Offered(calls: seq<Call>, key: string, id: int) {
    forall c | c in calls && c.key == key ::
      id !in c.used && c.fault.NoFault? && exists p :: p in c.proxies && p.id == id
  }

  /** While its quota lasts, a binding serves every pick of its session, whatever other
      sessions do in between, and counts each one. A limit of 0 is no limit. */
  lemma {:induction false} BindingServesUntilItsQuota(
      t: Table, calls: seq<Call>, limit: int, key: string)
    requires WellFormed(calls) && key != "" && key in t.routes
    requires Offered(calls, key, t.routes[key].proxyId)
    requires limit == 0 || t.routes[key].count + |Picks(t, calls, limit, key)| <= limit
    ensures var picks := Picks(t, calls, limit, key);
            && (forall p | p in picks :: p.Chosen? && p.proxy.id == t.routes[key].proxyId)
            && key in Run(t, calls, limit).routes
            && Run(t, calls, limit).routes[key] ==
               Binding(t.routes[key].proxyId, t.routes[key].count + |picks|)
    decreases |calls|
  {
    hide Unused, Distinct, TheProxy;
    if calls != [] {
      var c := calls[0];
      assert c in calls;
      assert forall d | d in calls[1..] :: d in calls;
      var (pick, next) := PickFrom(t, c.key, c.proxies, c.used, limit, c.fault);
      if c.key == key {
        var p :| p in c.proxies && p.id == t.routes[key].proxyId;
        assert Stays(t.routes[key], p, c.used, limit);
      } else {
        assert next.routes[key] == t.routes[key];
      }
      BindingServesUntilItsQuota(next, calls[1..], limit, key);
    }
  }

  /** A used-up binding is replaced by the next pick, which starts a new count. */
  lemma UsedUpBindingIsReplaced(t: Table, c: Call, limit: int)
    requires Distinct(c.proxies) && c.key != "" && c.key in t.routes && c.fault.NoFault?
    requires limit > 0 && t.routes[c.key].count >= limit
    requires Unused(c.proxies, c.used) != []
    ensures var (pick, next) := PickFrom(t, c.key, c.proxies, c.used, limit, c.fault);
            && pick.Chosen?
            && next.routes[c.key] == Binding(pick.proxy.id, 1)
            && next.rr == t.rr + 1
  {
    assert !Sticky(t.routes, c.key, c.proxies, c.used, limit);
  }

  /** The whole life of a binding. A pick that selects a proxy is followed by exactly L - 1
      more picks of that proxy, whatever other sessions do in between, and the pick after them
      selects anew, by turn. */
  lemma FreshBindingServesExactlyItsQuota(
      t: Table, first: Call, calls: seq<Call>, last: Call, limit: nat, key: string)
    requires key != "" && first.key == last.key == key && limit > 0
    requires Distinct(first.proxies) && Distinct(last.proxies) && WellFormed(calls)
    requires first.fault.NoFault? && !Sticky(t.routes, key, first.proxies, first.used, limit)
    requires last.fault.NoFault? && Unused(last.proxies, last.used) != []
    requires Unused(first.proxies, first.used) != []
    requires var (pick, bound) := PickFrom(t, key, first.proxies, first.used, limit, NoFault);
             && Offered(calls, key, bound.routes[key].proxyId)
             && |Picks(bound, calls, limit, key)| == limit - 1
    ensures var (pick, bound) := PickFrom(t, key, first.proxies, first.used, limit, NoFault);
            && pick.Chosen?
            && (forall p | p in Picks(bound, calls, limit, key) :: p.Chosen? && p.proxy.id == pick.proxy.id)
            && var before := Run(bound, calls, limit);
               var (again, after) := PickFrom(before, key, last.proxies, last.used, limit, NoFault);
               var eligible := Unused(last.proxies, last.used);
               && again == Chosen(eligible[before.rr % |eligible|])
               && after == Table(before.routes[key := Binding(again.proxy.id, 1)], before.rr + 1)
  {
    var (pick, bound) := PickFrom(t, key, first.proxies, first.used, limit, NoFault);
    assert bound.routes[key] == Binding(pick.proxy.id, 1);
    BindingServesUntilItsQuota(bound, calls, limit, key);
    assert !Sticky(Run(bound, calls, limit).routes, key, last.proxies, last.used, limit);
  }

  lemma StickyIff(t: Table, c: Call, limit: int)
    ensures Sticky(t.routes, c.key, c.proxies, c.used, limit) <==>
            && c.key in t.routes && (limit == 0 || t.routes[c.key].count < limit)
            && exists p :: p in Unused(c.proxies, c.used) && p.id == t.routes[c.key].proxyId
    ensures Sticky(t.routes, c.key, c.proxies, c.used, limit) ==>
              TheProxy(c.proxies, t.routes[c.key].proxyId) in Unused(c.proxies, c.used)
  {
    if c.key in t.routes && (limit == 0 || t.routes[c.key].count < limit) {
      forall p | p in Unused(c.proxies, c.used) && p.id == t.routes[c.key].proxyId
        ensures p in c.proxies && Stays(t.routes[c.key], p, c.used, limit)
      {
      }
    }
  }

  /** A pick in full. It fails when its session cannot be read or written; otherwise it is the
      proxy of the binding if that is offered, not tried and below its quota, and else the next
      in turn of those not tried, to which the session is bound with its first request. Only a
      pick by turn advances the turn, and only the session's own binding changes. */
  lemma PickIsExact(t: Table, c: Call, limit: int)
    requires Distinct(c.proxies)
    ensures var (pick, next) := PickFrom(t, c.key, c.proxies, c.used, limit, c.fault);
            var eligible := Unused(c.proxies, c.used);
            var n := |eligible|;
            if c.key == "" then
              if n == 0 then pick == Dry && next == t
              else pick == Chosen(eligible[t.rr % n]) && next == Table(t.routes, t.rr + 1)
            else if c.fault == ReadFails then pick == Broken && next == t
            else if && c.key in t.routes && (limit == 0 || t.routes[c.key].count < limit)
                    && exists p :: p in eligible && p.id == t.routes[c.key].proxyId then
              if c.fault == WriteFails then pick == Broken && next == t
              else
                var b := t.routes[c.key];
                && pick.Chosen? && pick.proxy in eligible && pick.proxy.id == b.proxyId
                && next == Table(t.routes[c.key := Binding(b.proxyId, b.count + 1)], t.rr)
            else if n == 0 then pick == Dry && next == t
            else if c.fault == WriteFails then pick == Broken && next == Table(t.routes, t.rr + 1)
            else
              && pick == Chosen(eligible[t.rr % n])
              && next == Table(t.routes[c.key := Binding(pick.proxy.id, 1)], t.rr + 1)
  {
    hide Sticky, Distinct, Unused;
    StickyIff(t, c, limit);
  }

  /** The proxies not tried stay in the order in which they are offered. */
  lemma {:induction false} UnusedKeepTheirOrder(left: seq<Proxy>, right: seq<Proxy>, used: set<int>)
    ensures Unused(left + right, used) == Unused(left, used) + Unused(right, used)
  {
    if left == [] {
      assert left + right == right;
    } else {
      assert (left + right)[1..] == left[1..] + right;
      UnusedKeepTheirOrder(left[1..], right, used);
    }
  }

  /** A pick that is not the session's own never changes its binding. */
  lemma OthersKeepTheBinding(t: Table, c: Call, limit: int, key: string)
    requires Distinct(c.proxies) && c.key != key
    ensures var next := PickFrom(t, c.key, c.proxies, c.used, limit, c.fault).1;
            && (key in next.routes <==> key in t.routes)
            && (key in t.routes ==> next.routes[key] == t.routes[key])
  {
  }

  // ------------------------------------------------------------------------------------
  // Requests without a session.
  // ------------------------------------------------------------------------------------

  lemma {:induction false} NothingUsed(proxies: seq<Proxy>)
    ensures Unused(proxies, {}) == proxies
  {
    if proxies != [] {
      NothingUsed(proxies[1..]);
    }
  }

  lemma SessionlessPick(t: Table, proxies: seq<Proxy>)
    requires Distinct(proxies) && proxies != []
    ensures PickFrom(t, "", proxies, {}, 0, NoFault) ==
            (Chosen(proxies[t.rr % |proxies|]), t.(rr := t.rr + 1))
  {
    hide Sticky, Unused, Distinct;
    NothingUsed(proxies);
  }

  /** The proxies that n consecutive sessionless picks return. */
  function Round(t: Table, proxies: seq<Proxy>, n: nat): seq<Pick>
    requires Distinct(proxies)
    decreases n
  {
    if n == 0 then []
    else
      var (pick, next) := PickFrom(t, "", proxies, {}, 0, NoFault);
      [pick] + Round(next, proxies, n - 1)
  }

  lemma {:induction false} RoundGoesRound(t: Table, proxies: seq<Proxy>, n: nat)
    requires Distinct(proxies) && proxies != []
    ensures |Round(t, proxies, n)| == n
    ensures forall k | 0 <= k < n :: Round(t, proxies, n)[k] == Chosen(proxies[(t.rr + k) % |proxies|])
    decreases n
  {
    if n > 0 {
      SessionlessPick(t, proxies);
      var next := t.(rr := t.rr + 1);
      RoundGoesRound(next, proxies, n - 1);
      forall k | 0 < k < n
        ensures Round(t, proxies, n)[k] == Chosen(proxies[(t.rr + k) % |proxies|])
      {
        assert Round(t, proxies, n)[k] == Round(next, proxies, n - 1)[k - 1];
        assert next.rr + (k - 1) == t.rr + k;
      }
    }
  }

  lemma SameResidue(a: nat, b: nat, n: nat)
    requires n > 0 && a <= b < a + n && a % n == b % n
    ensures a == b
  {
    var k := b / n - a / n;
    assert k * n == b - a;
    Arithmetic.MultipleSize(k, n);
  }

  lemma ResidueAfter(rr: nat, j: nat, n: nat) returns (k: nat)
    requires j < n
    ensures k < n && (rr + k) % n == j
  {
    var r := rr % n;
    k := if j >= r then j - r else j + n - r;
    var q := rr / n;
    assert rr + k == (if j >= r then q else q + 1) * n + j;
    Arithmetic.DivMod(if j >= r then q else q + 1, j, n);
  }

  /** Any |proxies| consecutive sessionless picks visit every proxy exactly once. */
  lemma RoundVisitsEachOnce(t: Table, proxies: seq<Proxy>, p: Proxy)
    requires Distinct(proxies) && p in proxies
    ensures var picks := Round(t, proxies, |proxies|);
            && Chosen(p) in picks
            && forall i, j | 0 <= i < j < |picks| :: picks[i] != picks[j]
  {
    var n := |proxies|;
    var picks := Round(t, proxies, n);
    var j :| 0 <= j < n && proxies[j] == p;
    var k := ResidueAfter(t.rr, j, n);
    RoundGoesRound(t, proxies, n);
    assert picks[k] == Chosen(p);
    forall a, b | 0 <= a < b < n
      ensures picks[a] != picks[b]
    {
      if (t.rr + a) % n == (t.rr + b) % n {
        SameResidue(t.rr + a, t.rr + b, n);
      }
    }
  }

  // ------------------------------------------------------------------------------------
  // Resin account generations.
  // ------------------------------------------------------------------------------------

  /** A call for the next account or a rotation, and the database fault it meets. */
  datatype ResinOp = Next(key: string, fault: Fault) | Rotate(key: string, fault: Fault)

  function ResinRun(rows: ResinRows, ops: seq<ResinOp>, limit: int): ResinRows
    decreases |ops|
  {
    if ops == [] then rows
    else
      var before := ResinRun(rows, ops[..|ops| - 1], limit);
      match ops[|ops| - 1]
      case Next(key, fault) => NextAccount(before, key, limit, fault).1
      case Rotate(key, fault) => Advanced(before, key, fault)
  }

  /** A call that gets an account. */
  predicate Serves(op: ResinOp, key: string) {
    op == Next(key, NoFault)
  }

  /** The generation the last call of a run uses. */
  function GenerationUsed(rows: ResinRows, ops: seq<ResinOp>, limit: int): int
    requires ops != [] && ops[|ops| - 1].Next? && ops[|ops| - 1].key != "" && ops[|ops| - 1].fault.NoFault?
  {
    NextAccount(ResinRun(rows, ops[..|ops| - 1], limit), ops[|ops| - 1].key, limit, NoFault).0.account.generation
  }

  /** How many calls of `key` a run has served with generation g. */
  function Served(ops: seq<ResinOp>, limit: int, key: string, g: int): nat
    requires key != ""
    decreases |ops|
  {
    if ops == [] then 0
    else
      Served(ops[..|ops| - 1], limit, key, g)
      + if Serves(ops[|ops| - 1], key) && GenerationUsed(map[], ops, limit) == g then 1 else 0
  }

  function Calls(ops: seq<ResinOp>, key: string): nat {
    if ops == [] then 0
    else Calls(ops[..|ops| - 1], key) + if Serves(ops[|ops| - 1], key) then 1 else 0
  }

  /** A generation serves at most `limit` calls, however calls and rotations of all sessions
      interleave and whichever of them fail, and no later generation has served any call. */
  lemma {:induction false} NoGenerationExceedsItsQuota(ops: seq<ResinOp>, limit: nat, key: string, g: int)
    requires limit > 0 && key != ""
    ensures Served(ops, limit, key, g) <= limit
    ensures var rows := ResinRun(map[], ops, limit);
            if key !in rows then Served(ops, limit, key, g) == 0
            else
              && 0 <= rows[key].count <= limit
              && (g == rows[key].generation ==> Served(ops, limit, key, g) == rows[key].count)
              && (g > rows[key].generation ==> Served(ops, limit, key, g) == 0)
    decreases |ops|
  {
    if ops != [] {
      NoGenerationExceedsItsQuota(ops[..|ops| - 1], limit, key, g);
    }
  }

  /** While a session's row lives, its generation never decreases. */
  lemma {:induction false} GenerationsNeverDecrease(
      rows: ResinRows, ops: seq<ResinOp>, limit: nat, key: string)
    requires key in rows
    ensures key in ResinRun(rows, ops, limit)
    ensures rows[key].generation <= ResinRun(rows, ops, limit)[key].generation
    decreases |ops|
  {
    if ops != [] {
      GenerationsNeverDecrease(rows, ops[..|ops| - 1], limit, key);
    }
  }

  /** Without rotations, the k-th served call of a session uses generation (k - 1) / limit. */
  lemma {:induction false} KthCallUsesItsGeneration(ops: seq<ResinOp>, limit: nat, key: string)
    requires limit > 0 && key != "" && Rotate(key, NoFault) !in ops
    ensures var rows := ResinRun(map[], ops, limit);
            var k := Calls(ops, key);
            if k == 0 then key !in rows
            else key in rows && rows[key] == ResinRow((k - 1) / limit, (k - 1) % limit + 1)
    ensures ops != [] && Serves(ops[|ops| - 1], key) ==>
              GenerationUsed(map[], ops, limit) == (Calls(ops, key) - 1) / limit
    decreases |ops|
  {
    if ops != [] {
      var front, last := ops[..|ops| - 1], ops[|ops| - 1];
      assert last in ops && forall op | op in front :: op in ops;
      KthCallUsesItsGeneration(front, limit, key);
      OneMoreCall(ResinRun(map[], front, limit), last, limit, key, Calls(front, key));
      hide NextAccount, Advanced;
    }
  }

  lemma OneMoreCall(before: ResinRows, op: ResinOp, limit: nat, key: string, k: nat)
    requires limit > 0 && key != "" && op != Rotate(key, NoFault)
    requires if k == 0 then key !in before
             else key in before && before[key] == ResinRow((k - 1) / limit, (k - 1) % limit + 1)
    ensures var after := match op
                         case Next(other, fault) => NextAccount(before, other, limit, fault).1
                         case Rotate(other, fault) => Advanced(before, other, fault);
            var n := k + if Serves(op, key) then 1 else 0;
            if n == 0 then key !in after
            else key in after && after[key] == ResinRow((n - 1) / limit, (n - 1) % limit + 1)
    ensures NextAccount(before, key, limit, NoFault).0 == Ok(Derived(key, k / limit))
  {
    if k > 0 {
      NextQuotient(k - 1, limit);
    }
  }

  lemma NextQuotient(k: nat, n: nat)
    requires n > 0
    ensures k % n + 1 < n ==> (k + 1) / n == k / n && (k + 1) % n == k % n + 1
    ensures k % n + 1 == n ==> (k + 1) / n == k / n + 1 && (k + 1) % n == 0
  {
    var q, r := k / n, k % n;
    if r + 1 < n {
      assert k + 1 == q * n + (r + 1);
      Arithmetic.DivMod(q, r + 1, n);
    } else {
      assert k + 1 == (q + 1) * n + 0;
      Arithmetic.DivMod(q + 1, 0, n);
    }
  }

  /** A limit of 0 or less is no limit: without rotations every call uses the first generation. */
  lemma {:induction false} WithoutALimitNothingMoves(ops: seq<ResinOp>, limit: int, key: string)
    requires limit <= 0 && key != "" && Rotate(key, NoFault) !in ops
    ensures var rows := ResinRun(map[], ops, limit);
            if Calls(ops, key) == 0 then key !in rows
            else key in rows && rows[key] == ResinRow(0, Calls(ops, key))
    ensures ops != [] && Serves(ops[|ops| - 1], key) ==> GenerationUsed(map[], ops, limit) == 0
    decreases |ops|
  {
    if ops != [] {
      var front, last := ops[..|ops| - 1], ops[|ops| - 1];
      assert last in ops && forall op | op in front :: op in ops;
      WithoutALimitNothingMoves(front, limit, key);
    }
  }

  /** A rotation moves a session with a row on to the next generation, which has served nothing
      yet: whatever happens next, every later call uses that generation or a later one. */
  lemma RotationMovesOn(rows: ResinRows, ops: seq<ResinOp>, limit: nat, key: string)
    requires key != "" && key in rows && ops != [] && Serves(ops[|ops| - 1], key)
    ensures var rotated := ResinRun(rows, [Rotate(key, NoFault)], limit);
            && rotated == rows[key := ResinRow(rows[key].generation + 1, 0)]
            && GenerationUsed(rotated, ops, limit) > rows[key].generation
            && (|ops| == 1 ==> GenerationUsed(rotated, ops, limit) == rows[key].generation + 1)
  {
    var one := [Rotate(key, NoFault)];
    assert one[..0] == [] && ResinRun(rows, one[..0], limit) == rows;
    assert ResinRun(rows, one, limit) == Advanced(rows, key, NoFault);
    var rotated := ResinRun(rows, one, limit);
    GenerationsNeverDecrease(rotated, ops[..|ops| - 1], limit, key);
  }

  /** What leaves the rows as they are: no session, a failed statement, another session's call,
      and a rotation of a session without a row. */
  lemma WhatMovesNothing(rows: ResinRows, op: ResinOp, limit: int, key: string)
    requires || op.key == "" || op.fault != NoFault || op.key != key
             || (op.Rotate? && key !in rows)
    ensures var after := ResinRun(rows, [op], limit);
            && (key in after <==> key in rows)
            && (key in rows ==> after[key] == rows[key])
            && (op.Next? && op.key != "" && op.fault != NoFault ==>
                  NextAccount(rows, op.key, limit, op.fault).0 == Failed)
            && NextAccount(rows, "", limit, op.fault).0 == Ok(Anonymous)
  {
    assert [op][..0] == [] && ResinRun(rows, [op][..0], limit) == rows;
  }
}
