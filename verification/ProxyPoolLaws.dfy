/** Which proxies a request is offered, row by row, and what failures do to that over runs of
    uses, health changes and table changes. */
module ProxyPoolLaws {
  import opened ProxyPool
  import opened Wrappers

  // ------------------------------------------------------------------------------------
  // Row by row.
  // ------------------------------------------------------------------------------------

  predicate Ready(r: Row, now: int) {
    && r.enabled
    && (r.cooldown.None? || r.cooldown.value <= now)
    && (r.expires.None? || r.expires.value > now)
  }

  lemma {:induction false} UsableExactly(rows: seq<Row>, now: int, r: Row)
    ensures r in UsableRows(rows, now) <==> r in rows && Ready(r, now)
  {
    if rows != [] {
      UsableExactly(rows[1..], now, r);
    }
  }

  lemma {:induction false} WithoutExactly(rows: seq<Row>, ids: set<int>, r: Row)
    ensures r in Without(rows, ids) <==> r in rows && r.id !in ids
  {
    if rows != [] {
      WithoutExactly(rows[1..], ids, r);
    }
  }

  lemma {:induction false} UnexpiredExactly(rows: seq<Row>, now: int, r: Row)
    ensures r in Unexpired(rows, now) <==> r in rows && (r.expires.None? || r.expires.value > now)
  {
    if rows != [] {
      UnexpiredExactly(rows[1..], now, r);
    }
  }

  lemma {:induction false} CoolingExactly(rows: seq<Row>, now: int, id: int)
    ensures id in CoolingIds(rows, now) <==>
            exists r :: r in rows && r.id == id && r.cooldown.Some? && r.cooldown.value > now
  {
    if rows != [] {
      CoolingExactly(rows[1..], now, id);
      assert forall r | r in rows :: r == rows[0] || r in rows[1..];
    }
  }

  lemma {:induction false} SetHealthExactly(
      rows: seq<Row>, id: int, h: Health, failures: nat, cooldown: Option<int>, k: nat)
    requires k < |rows|
    ensures var after := SetHealth(rows, id, h, failures, cooldown);
            && |after| == |rows|
            && after[k] == if rows[k].id == id
                           then Row(id, rows[k].uri, rows[k].enabled, h, failures, cooldown, rows[k].expires)
                           else rows[k]
  {
    SetHealthFacts(rows, id, h, failures, cooldown);
    if k > 0 {
      SetHealthExactly(rows[1..], id, h, failures, cooldown, k - 1);
    }
  }

  lemma {:induction false} SetEnabledExactly(rows: seq<Row>, id: int, enabled: bool, k: nat)
    requires k < |rows|
    ensures var after := SetEnabled(rows, id, enabled);
            && |after| == |rows|
            && after[k] == if rows[k].id == id then rows[k].(enabled := enabled) else rows[k]
  {
    SetEnabledFacts(rows, id, enabled);
    if k > 0 {
      SetEnabledExactly(rows[1..], id, enabled, k - 1);
    }
  }

  /** Seconds of cooldown after the k-th failure in a row. */
  function Delay(k: nat): int
    requires k > 0
  {
    if k == 1 then 60 else if k == 2 then 120 else if k == 3 then 240
    else if k == 4 then 480 else if k == 5 then 960 else 1800
  }

  lemma BackoffIsDelay(k: nat)
    requires k > 0
    ensures Backoff(k) == Delay(k)
  {
    assert Shift(1) == 2 && Shift(2) == 4 && Shift(3) == 8 && Shift(4) == 16 && Shift(5) == 32;
  }

  /** What an operation does to the rows of the table that are there before it. */
  lemma RowsAfter(p: Pool, op: Op, k: nat)
    requires k < |p.rows|
    ensures var r, rows := p.rows[k], After(p, op).rows;
            match op
            case Use(now) =>
              if p.view.View? then rows == p.rows
              else (r in rows <==> r.expires.None? || r.expires.value > now)
            case Sweep(now) => r in rows <==> r.expires.None? || r.expires.value > now
            case Fail(id, now) =>
              && |rows| == |p.rows|
              && (r.id != id ==> rows[k] == r)
              && (r.id == id && Ordered(p.rows) ==>
                    rows[k] == Row(id, r.uri, r.enabled, Cooldown, r.failures + 1,
                                   Some(now + Delay(r.failures + 1)), r.expires))
            case Succeed(id, _) =>
              && |rows| == |p.rows|
              && rows[k] == if r.id == id then Row(id, r.uri, r.enabled, Healthy, 0, None, r.expires) else r
            case Insert(_, _) => p.rows <= rows
            case Patch(id, enabled) =>
              && |rows| == |p.rows|
              && rows[k] == if r.id == id then r.(enabled := enabled) else r
            case Delete(id) => r in rows <==> r.id != id
            case BulkDelete(ids) => r in rows <==> r.id !in ids
  {
    var r := p.rows[k];
    match op {
      case Use(now) => UnexpiredExactly(p.rows, now, r);
      case Sweep(now) => UnexpiredExactly(p.rows, now, r);
      case Fail(id, now) =>
        if HasId(p.rows, id) {
          var failures := FailuresOf(p.rows, id) + 1;
          SetHealthExactly(p.rows, id, Cooldown, failures, Some(now + Backoff(failures)), k);
          BackoffIsDelay(failures);
          if r.id == id && Ordered(p.rows) {
            FailuresAt(p.rows, k);
          }
        } else {
          assert r.id != id;
        }
      case Succeed(id, _) => SetHealthExactly(p.rows, id, Healthy, 0, None, k);
      case Insert(_, _) =>
      case Patch(id, enabled) => SetEnabledExactly(p.rows, id, enabled, k);
      case Delete(id) => WithoutExactly(p.rows, {id}, r);
      case BulkDelete(ids) => WithoutExactly(p.rows, ids, r);
    }
  }

  lemma {:induction false} FailuresAt(rows: seq<Row>, k: nat)
    requires Ordered(rows) && k < |rows|
    ensures HasId(rows, rows[k].id) && FailuresOf(rows, rows[k].id) == rows[k].failures
  {
    if k > 0 {
      TailIds(rows);
      FailuresAt(rows[1..], k - 1);
      assert rows[1..][k - 1] == rows[k] && rows[k] in rows[1..];
    }
  }

  // ------------------------------------------------------------------------------------
  // What a use is offered.
  // ------------------------------------------------------------------------------------

  ghost predicate IsPool(p: Pool) {
    && Ordered(p.rows)
    && (forall r | r in p.rows :: r.id < p.nextId)
    && (p.view.View? ==> p.view.at <= p.clock)
  }

  /** The pool of every valid runtime is one. */
  lemma RuntimesArePools(runtime: ProxyRuntime)
    requires runtime.Valid()
    ensures IsPool(runtime.State())
  {
  }

  /** A row is offered if and only if it is enabled, its cooldown is absent or over, it has not
      expired, and it was not cooling down when the snapshot was taken; each row once, in
      order. */
  lemma OfferedExactly(p: Pool, now: int, r: Row)
    requires IsPool(p)
    ensures r in Offered(p, now) <==>
            && r in p.rows && r.enabled
            && (r.cooldown.None? || r.cooldown.value <= now)
            && (r.expires.None? || r.expires.value > now)
            && (p.view.View? ==> r.id !in p.view.cooling)
    ensures Ordered(Offered(p, now))
  {
    var q := After(p, Use(now));
    WithoutExactly(UsableRows(q.rows, now), q.view.cooling, r);
    UsableExactly(q.rows, now, r);
    UnexpiredExactly(p.rows, now, r);
    UnexpiredIsOrdered(p.rows, now);
    UsableIsOrdered(q.rows, now);
    WithoutIsOrdered(UsableRows(q.rows, now), q.view.cooling);
    if p.view.NoView? && r in q.rows {
      CoolingIdsOf(q.rows, now, r);
    }
  }

  lemma {:induction false} UsableIsOrdered(rows: seq<Row>, now: int)
    requires Ordered(rows)
    ensures Ordered(UsableRows(rows, now))
  {
    if rows != [] {
      TailIds(rows);
      hide Ordered;
      UsableIsOrdered(rows[1..], now);
      forall r | r in UsableRows(rows[1..], now)
        ensures r in rows[1..]
      {
        UsableExactly(rows[1..], now, r);
      }
      OrderedCons(rows[0], UsableRows(rows[1..], now));
    } else {
      assert UsableRows(rows, now) == rows;
    }
  }

  /** A snapshot is taken by the first use that finds none, and hides the rows that are cooling
      down then and have not expired; every change of the table but to health drops it. */
  lemma ViewAfter(p: Pool, op: Op, id: int)
    ensures var view := After(p, op).view;
            match op
            case Use(now) =>
              if p.view.View? then view == p.view
              else
                && view.View? && view.at == now
                && (id in view.cooling <==>
                      exists r :: && r in p.rows && r.id == id
                                  && r.cooldown.Some? && r.cooldown.value > now
                                  && (r.expires.None? || r.expires.value > now))
            case Fail(_, _) => view == p.view
            case Succeed(_, _) => view == p.view
            case Sweep(now) =>
              view == if exists r :: r in p.rows && r.expires.Some? && r.expires.value <= now
                      then NoView else p.view
            case Insert(uri, _) => view == if exists r :: r in p.rows && r.uri == uri then p.view else NoView
            case Patch(known, _) => view == if exists r :: r in p.rows && r.id == known then NoView else p.view
            case Delete(known) => view == if exists r :: r in p.rows && r.id == known then NoView else p.view
            case BulkDelete(_) => view == NoView
  {
    if op.Use? {
      CoolingExactly(Unexpired(p.rows, op.now), op.now, id);
      forall r
        ensures r in Unexpired(p.rows, op.now) <==> r in p.rows && (r.expires.None? || r.expires.value > op.now)
      {
        UnexpiredExactly(p.rows, op.now, r);
      }
    } else if op.Sweep? {
      SweepExactly(p.rows, op.now);
    }
  }

  lemma {:induction false} SweepExactly(rows: seq<Row>, now: int)
    ensures Unexpired(rows, now) != rows <==>
            exists r :: r in rows && r.expires.Some? && r.expires.value <= now
  {
    if r :| r in rows && r.expires.Some? && r.expires.value <= now {
      UnexpiredExactly(rows, now, r);
    } else if rows != [] {
      SweepExactly(rows[1..], now);
      assert rows[0] in rows && forall r | r in rows[1..] :: r in rows;
    }
  }

  // ------------------------------------------------------------------------------------
  // Runs.
  // ------------------------------------------------------------------------------------

  ghost predicate InTime(p: Pool, op: Op) {
    op.Use? || op.Fail? || op.Succeed? || op.Sweep? ==> p.clock <= op.now
  }

  ghost function Run(p: Pool, ops: seq<Op>): Pool
    decreases |ops|
  {
    if ops == [] then p else Run(After(p, ops[0]), ops[1..])
  }

  /** The clock never runs backwards. */
  ghost predicate Forward(p: Pool, ops: seq<Op>)
    decreases |ops|
  {
    ops != [] ==> InTime(p, ops[0]) && Forward(After(p, ops[0]), ops[1..])
  }

  lemma StepKeepsPool(p: Pool, op: Op)
    requires IsPool(p) && InTime(p, op)
    ensures IsPool(After(p, op)) && p.clock <= After(p, op).clock && p.nextId <= After(p, op).nextId
  {
    if op.Fail? || op.Succeed? || op.Patch? {
      SameRowsKeepPool(p, op);
    } else if op.Insert? {
      hide Ordered;
      OneMoreRow(p.rows, Row(p.nextId, op.uri, true, Unknown, 0, None, op.expires));
    } else {
      FewerRowsKeepPool(p, op);
    }
  }

  lemma SameRowsKeepPool(p: Pool, op: Op)
    requires IsPool(p) && InTime(p, op) && (op.Fail? || op.Succeed? || op.Patch?)
    ensures IsPool(After(p, op)) && p.clock <= After(p, op).clock && p.nextId == After(p, op).nextId
  {
    hide Ordered, SameIds, HasId, SetHealth, SetEnabled, Backoff, FailuresOf;
    match op {
      case Fail(id, now) =>
        if HasId(p.rows, id) {
          var failures := FailuresOf(p.rows, id) + 1;
          var cooldown := Some(now + Backoff(failures));
          SetHealthFacts(p.rows, id, Cooldown, failures, cooldown);
          SameIdsSameOrder(p.rows, SetHealth(p.rows, id, Cooldown, failures, cooldown), p.nextId);
        }
      case Succeed(id, _) =>
        SetHealthFacts(p.rows, id, Healthy, 0, None);
        SameIdsSameOrder(p.rows, SetHealth(p.rows, id, Healthy, 0, None), p.nextId);
      case Patch(id, enabled) =>
        SetEnabledFacts(p.rows, id, enabled);
        SameIdsSameOrder(p.rows, SetEnabled(p.rows, id, enabled), p.nextId);
    }
  }

  lemma FewerRowsKeepPool(p: Pool, op: Op)
    requires IsPool(p) && InTime(p, op) && (op.Use? || op.Sweep? || op.Delete? || op.BulkDelete?)
    ensures IsPool(After(p, op)) && p.clock <= After(p, op).clock && p.nextId == After(p, op).nextId
  {
    hide Ordered, HasId, Unexpired, Without, CoolingIds;
    match op {
      case Use(now) =>
        UnexpiredIsPart(p.rows, now);
        UnexpiredIsOrdered(p.rows, now);
      case Sweep(now) =>
        UnexpiredIsPart(p.rows, now);
        UnexpiredIsOrdered(p.rows, now);
      case Delete(id) =>
        WithoutIsPart(p.rows, {id});
        WithoutIsOrdered(p.rows, {id});
      case BulkDelete(ids) =>
        WithoutIsPart(p.rows, ids);
        WithoutIsOrdered(p.rows, ids);
    }
  }

  lemma OneMoreRow(rows: seq<Row>, last: Row)
    requires Ordered(rows) && forall r | r in rows :: r.id < last.id
    ensures Ordered(rows + [last])
  {
    assert forall k | 0 <= k < |rows| :: rows[k] in rows;
  }

  /** What an operation can make of a row: every row after it comes from one before it, or is
      new. */
  lemma WhereRowsComeFrom(p: Pool, op: Op, r: Row)
    requires IsPool(p) && InTime(p, op) && r in After(p, op).rows
    ensures (op.Insert? && r.id == p.nextId && r.cooldown.None?)
            || exists was :: was in p.rows && was.id == r.id &&
                 (|| (r.cooldown == was.cooldown && r.failures == was.failures)
                  || (op.Succeed? && op.id == r.id && r.cooldown.None?)
                  || (op.Fail? && op.id == r.id && r.failures == was.failures + 1
                      && r.cooldown == Some(op.now + Delay(r.failures))))
  {
    var rows := After(p, op).rows;
    hide After, Delay;
    var k :| 0 <= k < |rows| && rows[k] == r;
    RowBefore(p, op, k);
  }

  lemma RowBefore(p: Pool, op: Op, k: nat)
    requires IsPool(p) && k < |After(p, op).rows|
    ensures var r := After(p, op).rows[k];
            || (op.Insert? && r.id == p.nextId && r.cooldown.None?)
            || exists was :: was in p.rows && was.id == r.id &&
                 (|| (r.cooldown == was.cooldown && r.failures == was.failures)
                  || (op.Succeed? && op.id == r.id && r.cooldown.None?)
                  || (op.Fail? && op.id == r.id && r.failures == was.failures + 1
                      && r.cooldown == Some(op.now + Delay(r.failures))))
  {
    hide Ordered, Delay;
    var r := After(p, op).rows[k];
    match op {
      case Use(now) => UnexpiredExactly(p.rows, now, r);
      case Sweep(now) => UnexpiredExactly(p.rows, now, r);
      case Fail(id, now) =>
        SameLength(p, op);
        RowsAfter(p, op, k);
        assert p.rows[k] in p.rows;
      case Succeed(id, _) =>
        SameLength(p, op);
        RowsAfter(p, op, k);
        assert p.rows[k] in p.rows;
      case Insert(_, _) =>
        assert k < |p.rows| ==> r == p.rows[k] && p.rows[k] in p.rows;
      case Patch(id, enabled) =>
        SameLength(p, op);
        RowsAfter(p, op, k);
        assert p.rows[k] in p.rows;
      case Delete(id) => WithoutExactly(p.rows, {id}, r);
      case BulkDelete(ids) => WithoutExactly(p.rows, ids, r);
    }
  }

  lemma SameLength(p: Pool, op: Op)
    requires op.Fail? || op.Succeed? || op.Patch?
    ensures |After(p, op).rows| == |p.rows|
  {
    match op {
      case Fail(id, now) =>
        if HasId(p.rows, id) {
          SetHealthFacts(p.rows, id, Cooldown, FailuresOf(p.rows, id) + 1,
                         Some(now + Backoff(FailuresOf(p.rows, id) + 1)));
        }
      case Succeed(id, _) => SetHealthFacts(p.rows, id, Healthy, 0, None);
      case Patch(id, enabled) => SetEnabledFacts(p.rows, id, enabled);
    }
  }

  /** Every row with this id cools down until `until` at least, after k failures or more. */
  ghost predicate Out(p: Pool, id: int, k: nat, until: int)
    requires k > 0
  {
    && IsPool(p) && id < p.nextId && until <= p.clock + Delay(k)
    && forall r | r in p.rows && r.id == id :: r.cooldown.Some? && r.cooldown.value >= until && r.failures >= k
  }

  lemma StaysOut(p: Pool, op: Op, id: int, k: nat, until: int)
    requires k > 0 && Out(p, id, k, until) && InTime(p, op)
    requires !(op.Succeed? && op.id == id)
    ensures Out(After(p, op), id, k, until)
  {
    hide After, Ordered;
    StepKeepsPool(p, op);
    forall r | r in After(p, op).rows && r.id == id
      ensures r.cooldown.Some? && r.cooldown.value >= until && r.failures >= k
    {
      WhereRowsComeFrom(p, op, r);
    }
  }

  lemma {:induction false} RunStaysOut(p: Pool, ops: seq<Op>, id: int, k: nat, until: int)
    requires k > 0 && Out(p, id, k, until) && Forward(p, ops)
    requires forall op | op in ops :: !(op.Succeed? && op.id == id)
    ensures Out(Run(p, ops), id, k, until)
    decreases |ops|
  {
    hide After, Out;
    if ops != [] {
      StaysOut(p, ops[0], id, k, until);
      RunStaysOut(After(p, ops[0]), ops[1..], id, k, until);
    }
  }

  /** After the k-th failure in a row a proxy is offered to no use for the next 1, 2, 4, 8, 16
      or 30 minutes, whatever else happens to the pool, unless it is reported healthy. */
  lemma NotOfferedBeforeTheDelay(p: Pool, id: int, t: int, ops: seq<Op>, now: int, r: Row)
    requires IsPool(p) && HasId(p.rows, id) && p.clock <= t
    requires Forward(After(p, Fail(id, t)), ops)
    requires forall op | op in ops :: !(op.Succeed? && op.id == id)
    requires Run(After(p, Fail(id, t)), ops).clock <= now < t + Delay(RowOf(p.rows, id).failures + 1)
    requires r in Offered(Run(After(p, Fail(id, t)), ops), now)
    ensures r.id != id
  {
    hide Run, Forward, Offered, Delay, Ordered, RowOf;
    var k := RowOf(p.rows, id).failures + 1;
    var until := t + Delay(k);
    StepKeepsPool(p, Fail(id, t));
    JustFailed(p, id, t);
    RunStaysOut(After(p, Fail(id, t)), ops, id, k, until);
    OfferedExactly(Run(After(p, Fail(id, t)), ops), now, r);
  }

  /** The row right after its failure. */
  lemma JustFailed(p: Pool, id: int, t: int)
    requires IsPool(p) && HasId(p.rows, id) && p.clock <= t
    ensures var k, q := RowOf(p.rows, id).failures + 1, After(p, Fail(id, t));
            && q.clock == t && id < q.nextId
            && forall r | r in q.rows && r.id == id :: r.cooldown == Some(t + Delay(k)) && r.failures == k
  {
    hide Ordered, Delay;
    var k := RowOf(p.rows, id).failures + 1;
    var q := After(p, Fail(id, t));
    SameLength(p, Fail(id, t));
    forall r | r in q.rows && r.id == id
      ensures r.cooldown == Some(t + Delay(k)) && r.failures == k
    {
      var i :| 0 <= i < |q.rows| && q.rows[i] == r;
      RowsAfter(p, Fail(id, t), i);
      FailuresAt(p.rows, i);
    }
  }

  /** No row with this id cools down beyond `until`, and a snapshot taken from then on does not
      hide it. */
  ghost predicate Back(p: Pool, id: int, until: int) {
    && IsPool(p)
    && (forall r | r in p.rows && r.id == id :: r.cooldown.None? || r.cooldown.value <= until)
    && (p.view.View? && id in p.view.cooling ==> p.view.at < until)
  }

  lemma ComesBack(p: Pool, op: Op, id: int, until: int)
    requires Back(p, id, until) && InTime(p, op)
    requires !(op.Fail? && op.id == id)
    ensures Back(After(p, op), id, until)
  {
    hide After, Ordered;
    StepKeepsPool(p, op);
    ViewAfter(p, op, id);
    forall r | r in After(p, op).rows && r.id == id
      ensures r.cooldown.None? || r.cooldown.value <= until
    {
      WhereRowsComeFrom(p, op, r);
    }
  }

  lemma {:induction false} RunComesBack(p: Pool, ops: seq<Op>, id: int, until: int)
    requires Back(p, id, until) && Forward(p, ops)
    requires forall op | op in ops :: !(op.Fail? && op.id == id)
    ensures Back(Run(p, ops), id, until)
    decreases |ops|
  {
    hide After, Back;
    if ops != [] {
      ComesBack(p, ops[0], id, until);
      RunComesBack(After(p, ops[0]), ops[1..], id, until);
    }
  }

  /** And from then on it is offered again by every snapshot taken from then on, unless it
      failed again, or its row is gone, disabled or expired. */
  lemma OfferedAfterTheDelay(p: Pool, id: int, t: int, ops: seq<Op>, now: int, r: Row)
    requires IsPool(p) && HasId(p.rows, id) && p.clock <= t
    requires Forward(After(p, Fail(id, t)), ops)
    requires forall op | op in ops :: !(op.Fail? && op.id == id)
    requires var q, until := Run(After(p, Fail(id, t)), ops), t + Delay(RowOf(p.rows, id).failures + 1);
             && q.clock <= now && until <= now
             && r in q.rows && r.id == id && r.enabled && (r.expires.None? || r.expires.value > now)
             && (q.view.NoView? || until <= q.view.at)
    ensures r in Offered(Run(After(p, Fail(id, t)), ops), now)
  {
    hide Run, Forward, Offered, Ordered, RowOf;
    var until := t + Delay(RowOf(p.rows, id).failures + 1);
    StepKeepsPool(p, Fail(id, t));
    JustFailed(p, id, t);
    ViewAfter(p, Fail(id, t), id);
    RunComesBack(After(p, Fail(id, t)), ops, id, until);
    OfferedExactly(Run(After(p, Fail(id, t)), ops), now, r);
  }
}
