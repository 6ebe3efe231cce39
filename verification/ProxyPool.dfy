/** The proxy pool as requests see it: a snapshot taken from the database once and filtered on
    every use, with health changes written to both. Instants are whole seconds, as stored. */
module ProxyPool {

  import opened Wrappers

  datatype Health = Unknown | Healthy | Cooldown

  /** A row of `proxies`, and also the record the snapshot keeps of it. */
  datatype Row = Row(
    id: int, uri: string, enabled: bool,
    health: Health, failures: nat, cooldown: Option<int>, expires: Option<int>)

  const MINUTE := 60

  predicate Cooling(r: Row, now: int) {
    r.cooldown.Some? && r.cooldown.value > now
  }

  predicate Expired(r: Row, now: int) {
    r.expires.Some? && r.expires.value <= now
  }

  predicate Usable(r: Row, now: int) {
    r.enabled && !Cooling(r, now) && !Expired(r, now)
  }

  /** What a load at `now` reads from the table, and what a use at `now` keeps of a snapshot. */
  function UsableRows(rows: seq<Row>, now: int): seq<Row> {
    if rows == [] then []
    else if Usable(rows[0], now) then [rows[0]] + UsableRows(rows[1..], now)
    else UsableRows(rows[1..], now)
  }

  /** A filter loop before its first row and after its last. */
  lemma AllUsable(rows: seq<Row>, now: int, out: seq<Row>)
    ensures [] + UsableRows(rows[0..], now) == UsableRows(rows, now)
    ensures out + UsableRows(rows[|rows|..], now) == out
  {
    assert rows[0..] == rows && rows[|rows|..] == [] && UsableRows([], now) == [];
  }

  /** One row more of a filter loop. */
  lemma NextUsable(rows: seq<Row>, now: int, i: nat, out: seq<Row>)
    requires i < |rows|
    ensures out + UsableRows(rows[i..], now) ==
            (if Usable(rows[i], now) then out + [rows[i]] else out) + UsableRows(rows[i + 1..], now)
  {
    assert rows[i..][1..] == rows[i + 1..];
  }

  function Unexpired(rows: seq<Row>, now: int): seq<Row> {
    if rows == [] then []
    else if Expired(rows[0], now) then Unexpired(rows[1..], now)
    else [rows[0]] + Unexpired(rows[1..], now)
  }

  /** Replaces the health of the row with this id. */
  function SetHealth(rows: seq<Row>, id: int, h: Health, failures: nat, cooldown: Option<int>): seq<Row> {
    if rows == [] then []
    else
      [if rows[0].id == id then rows[0].(health := h, failures := failures, cooldown := cooldown)
       else rows[0]] + SetHealth(rows[1..], id, h, failures, cooldown)
  }

  function SetEnabled(rows: seq<Row>, id: int, enabled: bool): seq<Row> {
    if rows == [] then []
    else
      [if rows[0].id == id then rows[0].(enabled := enabled) else rows[0]]
        + SetEnabled(rows[1..], id, enabled)
  }

  predicate HasId(rows: seq<Row>, id: int) {
    exists k :: 0 <= k < |rows| && rows[k].id == id
  }

  function FailuresOf(rows: seq<Row>, id: int): nat
    requires HasId(rows, id)
  {
    if rows[0].id == id then rows[0].failures else FailuresOf(rows[1..], id)
  }

  /** Doubling minutes, at most 32 of them before the cap, and at most 30 after it. */
  function Backoff(failures: nat): int
    requires failures > 0
  {
    var delay := MINUTE * Shift(if failures - 1 < 5 then failures - 1 else 5);
    if delay > 30 * MINUTE then 30 * MINUTE else delay
  }

  function Shift(n: nat): nat {
    if n == 0 then 1 else 2 * Shift(n - 1)
  }

  /** Rows come in the order of their ids. */
  ghost predicate Ordered(rows: seq<Row>) {
    forall i, j | 0 <= i < j < |rows| :: rows[i].id < rows[j].id
  }

  // ------------------------------------------------------------------------------------
  // The pool.
  // ------------------------------------------------------------------------------------

  datatype Snapshot = NotLoaded | LoadedAt(rows: seq<Row>)

  /** What a snapshot hides: when it was taken, and which rows were cooling down then. */
  datatype View = NoView | View(at: int, cooling: set<int>)

  /** The table, the snapshot over it, the next row id and the latest clock reading. */
  datatype Pool = Pool(rows: seq<Row>, view: View, nextId: int, clock: int)

  datatype Op =
    | Use(now: int)
    | Fail(id: int, now: int)
    | Succeed(id: int, now: int)
    | Insert(uri: string, expires: Option<int>)
    | Patch(id: int, enabled: bool)
    | Delete(id: int)
    | BulkDelete(ids: set<int>)
    | Sweep(now: int)

  /** What each operation makes of the pool. */
  ghost function After(p: Pool, op: Op): Pool {
    match op
    case Use(now) =>
      if p.view.View? then p.(clock := now)
      else
        var rows := Unexpired(p.rows, now);
        Pool(rows, View(now, CoolingIds(rows, now)), p.nextId, now)
    case Fail(id, now) =>
      if !HasId(p.rows, id) then p.(clock := now)
      else
        var failures := FailuresOf(p.rows, id) + 1;
        p.(rows := SetHealth(p.rows, id, Cooldown, failures, Some(now + Backoff(failures))), clock := now)
    case Succeed(id, now) =>
      p.(rows := SetHealth(p.rows, id, Healthy, 0, None), clock := now)
    case Insert(uri, expires) =>
      if exists k :: 0 <= k < |p.rows| && p.rows[k].uri == uri then p
      else
        Pool(p.rows + [Row(p.nextId, uri, true, Unknown, 0, None, expires)], NoView, p.nextId + 1, p.clock)
    case Patch(id, enabled) =>
      p.(rows := SetEnabled(p.rows, id, enabled), view := if HasId(p.rows, id) then NoView else p.view)
    case Delete(id) =>
      p.(rows := Without(p.rows, {id}), view := if HasId(p.rows, id) then NoView else p.view)
    case BulkDelete(ids) =>
      p.(rows := Without(p.rows, ids), view := NoView)
    case Sweep(now) =>
      var rows := Unexpired(p.rows, now);
      p.(rows := rows, view := if rows == p.rows then p.view else NoView, clock := now)
  }

  /** What a use of the pool at `now` gets. */
  ghost function Offered(p: Pool, now: int): seq<Row> {
    var q := After(p, Use(now));
    Without(UsableRows(q.rows, now), q.view.cooling)
  }

  class ProxyRuntime {
    /** The table, and the snapshot over it. */
    var rows: seq<Row>
    var snapshot: Snapshot

    /** The next row id; ids are never reused. */
    var nextId: int

    /** When the snapshot was loaded, and which rows were cooling down then. */
    ghost var loadedAt: int
    ghost var cooling: set<int>

    /** The latest clock reading. */
    ghost var clock: int

    constructor ()
      ensures Valid() && rows == [] && snapshot.NotLoaded?
      ensures State() == Pool([], NoView, 1, 0)
    {
      rows, snapshot, nextId := [], NotLoaded, 1;
      loadedAt, cooling, clock := 0, {}, 0;
    }

    ghost predicate Valid()
      reads this
    {
      && Ordered(rows)
      && (forall r | r in rows :: r.id < nextId)
      && (snapshot.LoadedAt? ==>
            && loadedAt <= clock
            && snapshot.rows == Seen(rows, loadedAt, cooling))
    }

    ghost function State(): Pool
      reads this
    {
      Pool(rows, if snapshot.NotLoaded? then NoView else View(loadedAt, cooling), nextId, clock)
    }

    method Invalidate()
      modifies this`snapshot
      ensures snapshot.NotLoaded?
    {
      snapshot := NotLoaded;
    }

    /** Deletes expired rows; the snapshot is dropped if any was deleted. */
    method DeleteExpiredProxies(now: int)
      requires Valid() && clock <= now
      modifies this`rows, this`snapshot, this`clock
      ensures Valid() && clock == now
      ensures rows == Unexpired(old(rows), now)
      ensures snapshot == if rows == old(rows) then old(snapshot) else NotLoaded
      ensures State() == After(old(State()), Sweep(now))
    {
      hide Ordered, Unexpired, Seen;
      clock := now;
      UnexpiredIsPart(rows, now);
      UnexpiredIsOrdered(rows, now);
      var kept := DropExpired(now);
      if |kept| < |rows| {
        rows := kept;
        Invalidate();
      }
    }

    method DropExpired(now: int) returns (kept: seq<Row>)
      ensures kept == Unexpired(rows, now)
    {
      kept := [];
      var i := 0;
      while i < |rows|
        invariant 0 <= i <= |rows|
        invariant kept + Unexpired(rows[i..], now) == Unexpired(rows, now)
      {
        assert rows[i..][1..] == rows[i + 1..];
        if !(rows[i].expires.Some? && rows[i].expires.value <= now) {
          kept := kept + [rows[i]];
        }
        i := i + 1;
      }
    }

    /** `loadAvailableProxiesFromDB`. */
    method LoadFromDB(now: int) returns (out: seq<Row>)
      requires Valid() && snapshot.NotLoaded? && clock <= now
      modifies this`rows, this`snapshot, this`clock
      ensures Valid() && clock == now && snapshot.NotLoaded?
      ensures rows == Unexpired(old(rows), now)
      ensures out == UsableRows(rows, now)
    {
      hide Ordered, Seen, Unexpired, UsableRows;
      DeleteExpiredProxies(now);
      out := ReadUsable(now);
    }

    /** The rows of the query. */
    method ReadUsable(now: int) returns (out: seq<Row>)
      ensures out == UsableRows(rows, now)
    {
      hide UsableRows;
      out := [];
      AllUsable(rows, now, out);
      var i := 0;
      while i < |rows|
        invariant 0 <= i <= |rows|
        invariant out + UsableRows(rows[i..], now) == UsableRows(rows, now)
      {
        var p := rows[i];
        NextUsable(rows, now, i, out);
        if p.enabled && !(p.cooldown.Some? && p.cooldown.value > now)
           && !(p.expires.Some? && p.expires.value <= now) {
          out := out + [p];
        }
        i := i + 1;
      }
      AllUsable(rows, now, out);
    }

    /** What a request may use now: the usable part of the snapshot, loading one if there is
        none. It is what a fresh load would return, except for the rows that were cooling
        down when the snapshot was taken. */
    method Available(now: int) returns (out: seq<Row>)
      requires Valid() && clock <= now
      modifies this
      ensures Valid() && clock == now && snapshot.LoadedAt?
      ensures old(snapshot).LoadedAt? ==>
                rows == old(rows) && snapshot == old(snapshot) && cooling == old(cooling)
      ensures old(snapshot).NotLoaded? ==> rows == Unexpired(old(rows), now)
      ensures out == Without(UsableRows(rows, now), cooling)
      ensures old(snapshot).NotLoaded? ==>
                loadedAt == now && cooling == CoolingIds(rows, now) && out == UsableRows(rows, now)
      ensures State() == After(old(State()), Use(now)) && out == Offered(old(State()), now)
    {
      hide Ordered, Unexpired, Seen, UsableRows, Without, CoolingIds;
      if snapshot.NotLoaded? {
        var proxies := LoadFromDB(now);
        snapshot := LoadedAt(proxies);
        loadedAt, cooling := now, CoolingIds(rows, now);
        FreshLoadIsSeen(rows, now);
      }
      clock := now;
      out := KeepUsable(now);
      SeenThenUsable(rows, loadedAt, cooling, now);
    }

    method KeepUsable(now: int) returns (out: seq<Row>)
      requires snapshot.LoadedAt?
      ensures out == UsableRows(snapshot.rows, now)
    {
      hide UsableRows;
      out := [];
      AllUsable(snapshot.rows, now, out);
      var i := 0;
      while i < |snapshot.rows|
        invariant 0 <= i <= |snapshot.rows|
        invariant out + UsableRows(snapshot.rows[i..], now) == UsableRows(snapshot.rows, now)
      {
        var p := snapshot.rows[i];
        NextUsable(snapshot.rows, now, i, out);
        if !(!p.enabled || (p.cooldown.Some? && p.cooldown.value > now)
             || (p.expires.Some? && p.expires.value <= now)) {
          out := out + [p];
        }
        i := i + 1;
      }
      AllUsable(snapshot.rows, now, out);
    }

    /** Updates the snapshot's copy of a row, if it has one. */
    method ReplaceHealth(id: int, h: Health, failures: nat, cooldown: Option<int>)
      requires snapshot.LoadedAt? ==> Ordered(snapshot.rows)
      modifies this`snapshot
      ensures snapshot == if old(snapshot).LoadedAt?
                          then LoadedAt(SetHealth(old(snapshot).rows, id, h, failures, cooldown))
                          else NotLoaded
    {
      if snapshot.NotLoaded? {
        return;
      }
      var proxies := snapshot.rows;
      var i := 0;
      while i < |proxies| && proxies[i].id != id
        invariant 0 <= i <= |proxies|
        invariant forall k | 0 <= k < i :: proxies[k].id != id
      {
        i := i + 1;
      }
      SetHealthAt(proxies, id, h, failures, cooldown, i);
      if i < |proxies| {
        snapshot := LoadedAt(proxies[i := proxies[i].(health := h, failures := failures, cooldown := cooldown)]);
      }
    }

    /** A health update keeps the table in order and the snapshot its view. */
    lemma HealthIsInStep(rows: seq<Row>, id: int, h: Health, failures: nat, cooldown: Option<int>)
      requires Ordered(rows) && forall r | r in rows :: r.id < nextId
      ensures var after := SetHealth(rows, id, h, failures, cooldown);
              && Ordered(after) && (forall r | r in after :: r.id < nextId)
              && Ordered(Seen(rows, loadedAt, cooling))
              && Seen(after, loadedAt, cooling) ==
                 SetHealth(Seen(rows, loadedAt, cooling), id, h, failures, cooldown)
    {
      var after := SetHealth(rows, id, h, failures, cooldown);
      SetHealthFacts(rows, id, h, failures, cooldown);
      SameIdsSameOrder(rows, after, nextId);
      SetHealthOfSeen(rows, id, h, failures, cooldown, loadedAt, cooling);
      SeenIsOrdered(rows, loadedAt, cooling);
    }

    method MarkProxyFailure(id: int, now: int)
      requires Valid() && clock <= now
      modifies this`rows, this`snapshot, this`clock
      ensures Valid() && clock == now
      ensures HasId(old(rows), id) ==>
                var failures := FailuresOf(old(rows), id) + 1;
                rows == SetHealth(old(rows), id, Cooldown, failures, Some(now + Backoff(failures)))
      ensures !HasId(old(rows), id) ==> rows == old(rows) && snapshot == old(snapshot)
      ensures snapshot.LoadedAt? <==> old(snapshot).LoadedAt?
      ensures State() == After(old(State()), Fail(id, now))
    {
      hide Ordered, Seen, SetHealth, Backoff;
      clock := now;
      if !HasId(rows, id) {
        return;
      }
      var failures := FailuresOf(rows, id) + 1;
      var cooldown := Some(now + Backoff(failures));
      HealthIsInStep(rows, id, Cooldown, failures, cooldown);
      rows := SetHealth(rows, id, Cooldown, failures, cooldown);
      ReplaceHealth(id, Cooldown, failures, cooldown);
    }

    method MarkProxySuccess(id: int, now: int)
      requires Valid() && clock <= now
      modifies this`rows, this`snapshot, this`clock
      ensures Valid() && clock == now
      ensures rows == SetHealth(old(rows), id, Healthy, 0, None)
      ensures snapshot.LoadedAt? <==> old(snapshot).LoadedAt?
      ensures State() == After(old(State()), Succeed(id, now))
    {
      hide Ordered, Seen, SetHealth;
      clock := now;
      HealthIsInStep(rows, id, Healthy, 0, None);
      rows := SetHealth(rows, id, Healthy, 0, None);
      ReplaceHealth(id, Healthy, 0, None);
    }

    /** A new row, healthy as far as anyone knows; the address must be new. */
    method InsertProxy(uri: string, expires: Option<int>) returns (id: Option<int>)
      requires Valid()
      modifies this`rows, this`snapshot, this`nextId
      ensures Valid()
      ensures id.None? <==> exists k :: 0 <= k < |old(rows)| && old(rows)[k].uri == uri
      ensures id.None? ==> rows == old(rows) && snapshot == old(snapshot)
      ensures id.Some? ==>
                && !HasId(old(rows), id.value)
                && rows == old(rows) + [Row(id.value, uri, true, Unknown, 0, None, expires)]
                && snapshot.NotLoaded?
      ensures State() == After(old(State()), Insert(uri, expires))
    {
      if exists k :: 0 <= k < |rows| && rows[k].uri == uri {
        return None;
      }
      id := Some(nextId);
      rows := rows + [Row(nextId, uri, true, Unknown, 0, None, expires)];
      nextId := nextId + 1;
      Invalidate();
    }

    method PatchProxy(id: int, enabled: bool) returns (found: bool)
      requires Valid()
      modifies this`rows, this`snapshot
      ensures Valid() && found == HasId(old(rows), id)
      ensures rows == SetEnabled(old(rows), id, enabled)
      ensures snapshot == if found then NotLoaded else old(snapshot)
      ensures State() == After(old(State()), Patch(id, enabled))
    {
      hide Ordered, Seen, SetEnabled, HasId, SameIds;
      found := HasId(rows, id);
      SetEnabledFacts(rows, id, enabled);
      SameIdsSameOrder(rows, SetEnabled(rows, id, enabled), nextId);
      if !found {
        return;
      }
      rows := SetEnabled(rows, id, enabled);
      Invalidate();
    }

    method DeleteProxy(id: int) returns (found: bool)
      requires Valid()
      modifies this`rows, this`snapshot
      ensures Valid() && found == HasId(old(rows), id)
      ensures rows == Without(old(rows), {id})
      ensures snapshot == if found then NotLoaded else old(snapshot)
      ensures State() == After(old(State()), Delete(id))
    {
      hide Ordered, Seen, Without;
      found := HasId(rows, id);
      WithoutIsPart(rows, {id});
      WithoutIsOrdered(rows, {id});
      if !found {
        UnknownIdDeletesNothing(rows, id);
        return;
      }
      rows := Without(rows, {id});
      Invalidate();
    }

    /** One transaction; the snapshot is dropped even if no id was known. */
    method BulkDeleteProxies(ids: set<int>)
      requires Valid()
      modifies this`rows, this`snapshot
      ensures Valid() && rows == Without(old(rows), ids) && snapshot.NotLoaded?
      ensures State() == After(old(State()), BulkDelete(ids))
    {
      hide Ordered, Seen, Without;
      WithoutIsPart(rows, ids);
      WithoutIsOrdered(rows, ids);
      rows := Without(rows, ids);
      Invalidate();
    }
  }

  /** The part of the table a snapshot taken at `loaded` shows: the rows that are enabled, had
      not expired then and were not cooling down then. */
  function Seen(rows: seq<Row>, loaded: int, cooling: set<int>): seq<Row> {
    if rows == [] then []
    else if rows[0].enabled && !Expired(rows[0], loaded) && rows[0].id !in cooling
    then [rows[0]] + Seen(rows[1..], loaded, cooling)
    else Seen(rows[1..], loaded, cooling)
  }

  function Without(rows: seq<Row>, ids: set<int>): seq<Row> {
    if rows == [] then []
    else if rows[0].id in ids then Without(rows[1..], ids)
    else [rows[0]] + Without(rows[1..], ids)
  }

  function CoolingIds(rows: seq<Row>, now: int): (ids: set<int>)
    ensures forall id | id in ids :: exists k :: 0 <= k < |rows| && rows[k].id == id && Cooling(rows[k], now)
  {
    if rows == [] then {}
    else (if Cooling(rows[0], now) then {rows[0].id} else {}) + CoolingIds(rows[1..], now)
  }

  // ------------------------------------------------------------------------------------
  // Facts about the row functions.
  // ------------------------------------------------------------------------------------

  lemma OrderedTail(rows: seq<Row>)
    requires Ordered(rows) && rows != []
    ensures Ordered(rows[1..]) && !HasId(rows[1..], rows[0].id)
  {
  }

  lemma OrderedCons(r: Row, rest: seq<Row>)
    requires Ordered(rest) && forall x | x in rest :: r.id < x.id
    ensures Ordered([r] + rest)
  {
    var all := [r] + rest;
    forall i, j | 0 <= i < j < |all|
      ensures all[i].id < all[j].id
    {
      assert all[j] == rest[j - 1] && all[j] in rest;
    }
  }

  lemma TailIds(rows: seq<Row>)
    requires Ordered(rows) && rows != []
    ensures Ordered(rows[1..])
    ensures forall r | r in rows[1..] :: r in rows && rows[0].id < r.id
  {
  }

  lemma {:induction false} UnexpiredIsPart(rows: seq<Row>, now: int)
    ensures forall r | r in Unexpired(rows, now) :: r in rows
    ensures |Unexpired(rows, now)| <= |rows|
    ensures |Unexpired(rows, now)| == |rows| ==> Unexpired(rows, now) == rows
  {
    if rows != [] {
      UnexpiredIsPart(rows[1..], now);
    }
  }

  lemma {:induction false} UnexpiredIsOrdered(rows: seq<Row>, now: int)
    requires Ordered(rows)
    ensures Ordered(Unexpired(rows, now))
  {
    if rows != [] {
      TailIds(rows);
      hide Ordered;
      UnexpiredIsOrdered(rows[1..], now);
      UnexpiredIsPart(rows[1..], now);
      OrderedCons(rows[0], Unexpired(rows[1..], now));
    } else {
      assert Unexpired(rows, now) == rows;
    }
  }

  lemma {:induction false} WithoutIsPart(rows: seq<Row>, ids: set<int>)
    ensures forall r | r in Without(rows, ids) :: r in rows
    ensures (forall r | r in rows :: r.id !in ids) ==> Without(rows, ids) == rows
  {
    if rows != [] {
      WithoutIsPart(rows[1..], ids);
    }
  }

  lemma {:induction false} WithoutIsOrdered(rows: seq<Row>, ids: set<int>)
    requires Ordered(rows)
    ensures Ordered(Without(rows, ids))
  {
    if rows != [] {
      TailIds(rows);
      hide Ordered;
      WithoutIsOrdered(rows[1..], ids);
      WithoutIsPart(rows[1..], ids);
      OrderedCons(rows[0], Without(rows[1..], ids));
    } else {
      assert Without(rows, ids) == rows;
    }
  }

  lemma UnknownIdDeletesNothing(rows: seq<Row>, id: int)
    requires !HasId(rows, id)
    ensures Without(rows, {id}) == rows
  {
    forall r | r in rows
      ensures r.id !in {id}
    {
      var k :| 0 <= k < |rows| && rows[k] == r;
    }
    WithoutIsPart(rows, {id});
  }

  /** Row by row the same ids, in the same order. */
  ghost predicate SameIds(left: seq<Row>, right: seq<Row>) {
    |left| == |right| && forall k | 0 <= k < |left| :: left[k].id == right[k].id
  }

  lemma SameIdsSameOrder(left: seq<Row>, right: seq<Row>, bound: int)
    requires SameIds(left, right) && Ordered(left)
    ensures Ordered(right)
    ensures (forall r | r in left :: r.id < bound) ==> forall r | r in right :: r.id < bound
  {
    if forall r | r in left :: r.id < bound {
      forall r | r in right
        ensures r.id < bound
      {
        var k :| 0 <= k < |right| && right[k] == r;
        assert left[k] in left;
      }
    }
  }

  lemma {:induction false} SetEnabledFacts(rows: seq<Row>, id: int, enabled: bool)
    ensures SameIds(rows, SetEnabled(rows, id, enabled))
    ensures !HasId(rows, id) ==> SetEnabled(rows, id, enabled) == rows
  {
    if rows != [] {
      SetEnabledFacts(rows[1..], id, enabled);
      TailHasId(rows, id);
    }
  }

  lemma {:induction false} SetHealthFacts(
      rows: seq<Row>, id: int, h: Health, failures: nat, cooldown: Option<int>)
    ensures var after := SetHealth(rows, id, h, failures, cooldown);
            && SameIds(rows, after)
            && (HasId(after, id) <==> HasId(rows, id))
            && (!HasId(rows, id) ==> after == rows)
            && (HasId(rows, id) ==> FailuresOf(after, id) == failures)
  {
    if rows != [] {
      SetHealthFacts(rows[1..], id, h, failures, cooldown);
      var after := SetHealth(rows, id, h, failures, cooldown);
      assert after[1..] == SetHealth(rows[1..], id, h, failures, cooldown);
      TailHasId(rows, id);
      TailHasId(after, id);
    }
  }

  lemma TailHasId(rows: seq<Row>, id: int)
    requires rows != []
    ensures HasId(rows, id) <==> rows[0].id == id || HasId(rows[1..], id)
  {
    if HasId(rows[1..], id) {
      var k :| 0 <= k < |rows[1..]| && rows[1..][k].id == id;
      assert rows[k + 1].id == id;
    }
    if HasId(rows, id) && rows[0].id != id {
      var k :| 0 <= k < |rows| && rows[k].id == id;
      assert rows[1..][k - 1].id == id;
    }
  }

  /** The first row with the id is the only one, so updating it in place is enough. */
  lemma {:induction false} SetHealthAt(
      rows: seq<Row>, id: int, h: Health, failures: nat, cooldown: Option<int>, i: nat)
    requires Ordered(rows) && i <= |rows|
    requires forall k | 0 <= k < i :: rows[k].id != id
    requires i < |rows| ==> rows[i].id == id
    ensures SetHealth(rows, id, h, failures, cooldown) ==
            if i < |rows| then rows[i := rows[i].(health := h, failures := failures, cooldown := cooldown)]
            else rows
  {
    hide Ordered, HasId;
    if rows != [] {
      OrderedTail(rows);
      if i < |rows| {
        UpdateSplit(rows, i, rows[i].(health := h, failures := failures, cooldown := cooldown));
      }
      if i == 0 {
        SetHealthFacts(rows[1..], id, h, failures, cooldown);
      } else {
        SetHealthAt(rows[1..], id, h, failures, cooldown, i - 1);
      }
    }
  }

  lemma UpdateSplit(rows: seq<Row>, i: nat, r: Row)
    requires i < |rows|
    ensures rows[i := r] == if i == 0 then [r] + rows[1..] else [rows[0]] + rows[1..][i - 1 := r]
  {
  }

  // ------------------------------------------------------------------------------------
  // The snapshot over the table.
  // ------------------------------------------------------------------------------------

  lemma {:induction false} SeenIsPart(rows: seq<Row>, loaded: int, cooling: set<int>)
    ensures forall r | r in Seen(rows, loaded, cooling) :: r in rows
  {
    if rows != [] {
      SeenIsPart(rows[1..], loaded, cooling);
    }
  }

  lemma {:induction false} SeenIsOrdered(rows: seq<Row>, loaded: int, cooling: set<int>)
    requires Ordered(rows)
    ensures Ordered(Seen(rows, loaded, cooling))
  {
    if rows != [] {
      TailIds(rows);
      hide Ordered;
      SeenIsOrdered(rows[1..], loaded, cooling);
      SeenIsPart(rows[1..], loaded, cooling);
      OrderedCons(rows[0], Seen(rows[1..], loaded, cooling));
    } else {
      assert Seen(rows, loaded, cooling) == rows;
    }
  }

  /** Changing health in the table and in the snapshot alike keeps one the view of the other. */
  lemma {:induction false} SetHealthOfSeen(
      rows: seq<Row>, id: int, h: Health, failures: nat, cooldown: Option<int>,
      loaded: int, cooling: set<int>)
    ensures Seen(SetHealth(rows, id, h, failures, cooldown), loaded, cooling) ==
            SetHealth(Seen(rows, loaded, cooling), id, h, failures, cooldown)
  {
    if rows != [] {
      SetHealthOfSeen(rows[1..], id, h, failures, cooldown, loaded, cooling);
    }
  }

  /** What is usable of a snapshot is what is usable of the table, but for the rows that were
      cooling down when it was taken. */
  lemma {:induction false} SeenThenUsable(rows: seq<Row>, loaded: int, cooling: set<int>, now: int)
    requires loaded <= now
    ensures UsableRows(Seen(rows, loaded, cooling), now) == Without(UsableRows(rows, now), cooling)
  {
    if rows != [] {
      SeenThenUsable(rows[1..], loaded, cooling, now);
    }
  }

  lemma {:induction false} CoolingIdsOf(rows: seq<Row>, now: int, r: Row)
    requires Ordered(rows) && r in rows
    ensures r.id in CoolingIds(rows, now) <==> Cooling(r, now)
  {
    OrderedTail(rows);
    if r == rows[0] {
      if r.id in CoolingIds(rows[1..], now) {
        assert HasId(rows[1..], r.id);
      }
    } else {
      CoolingIdsOf(rows[1..], now, r);
      assert r.id > rows[0].id;
    }
  }

  lemma {:induction false} SeenAgrees(rows: seq<Row>, now: int, cooling: set<int>)
    requires forall r | r in rows :: r.id in cooling <==> Cooling(r, now)
    ensures Seen(rows, now, cooling) == UsableRows(rows, now)
    ensures Without(UsableRows(rows, now), cooling) == UsableRows(rows, now)
  {
    if rows != [] {
      SeenAgrees(rows[1..], now, cooling);
    }
  }

  /** A snapshot just taken shows exactly the usable rows, and hides none of them. */
  lemma FreshLoadIsSeen(rows: seq<Row>, now: int)
    requires Ordered(rows)
    ensures Seen(rows, now, CoolingIds(rows, now)) == UsableRows(rows, now)
    ensures Without(UsableRows(rows, now), CoolingIds(rows, now)) == UsableRows(rows, now)
  {
    forall r | r in rows {
      CoolingIdsOf(rows, now, r);
    }
    SeenAgrees(rows, now, CoolingIds(rows, now));
  }

  /** Deleting the expired rows first does not change what a load reads. */
  lemma {:induction false} ExpiredRowsAreUnusable(rows: seq<Row>, now: int)
    ensures UsableRows(Unexpired(rows, now), now) == UsableRows(rows, now)
  {
    if rows != [] {
      ExpiredRowsAreUnusable(rows[1..], now);
    }
  }

  // ------------------------------------------------------------------------------------
  // Back-off.
  // ------------------------------------------------------------------------------------

  lemma {:induction false} ShiftGrows(m: nat, n: nat)
    requires m <= n
    ensures Shift(m) <= Shift(n)
  {
    if m < n {
      ShiftGrows(m, n - 1);
    }
  }

  /** k failures in a row: the smaller of 2^(k-1) and 30 minutes. */
  lemma BackoffIsCappedDoubling(k: nat)
    requires k > 0
    ensures Backoff(k) == MINUTE * (if Shift(k - 1) < 30 then Shift(k - 1) else 30)
  {
    assert Shift(5) == 32;
    if k > 6 {
      ShiftGrows(5, k - 1);
    } else {
      assert Shift(1) == 2 && Shift(2) == 4 && Shift(3) == 8 && Shift(4) == 16;
    }
  }

  /** The table after failures of one proxy at the given instants, nothing else in between. */
  function FailAt(rows: seq<Row>, id: int, at: seq<int>): seq<Row>
    requires Ordered(rows) && HasId(rows, id)
    decreases |at|
  {
    if at == [] then rows
    else
      var failures := FailuresOf(rows, id) + 1;
      SetHealthFacts(rows, id, Cooldown, failures, Some(at[0] + Backoff(failures)));
      SameIdsSameOrder(rows, SetHealth(rows, id, Cooldown, failures, Some(at[0] + Backoff(failures))), 0);
      FailAt(SetHealth(rows, id, Cooldown, failures, Some(at[0] + Backoff(failures))), id, at[1..])
  }

  function RowOf(rows: seq<Row>, id: int): (r: Row)
    requires HasId(rows, id)
    ensures r in rows && r.id == id && r.failures == FailuresOf(rows, id)
  {
    TailHasId(rows, id);
    if rows[0].id == id then rows[0] else RowOf(rows[1..], id)
  }

  lemma {:induction false} SetHealthRow(
      rows: seq<Row>, id: int, h: Health, failures: nat, cooldown: Option<int>)
    requires Ordered(rows) && HasId(rows, id)
    ensures var after := SetHealth(rows, id, h, failures, cooldown);
            && HasId(after, id)
            && RowOf(after, id) == RowOf(rows, id).(health := h, failures := failures, cooldown := cooldown)
  {
    SetHealthFacts(rows, id, h, failures, cooldown);
    OrderedTail(rows);
    TailHasId(rows, id);
    var after := SetHealth(rows, id, h, failures, cooldown);
    assert after[1..] == SetHealth(rows[1..], id, h, failures, cooldown);
    if rows[0].id != id {
      SetHealthRow(rows[1..], id, h, failures, cooldown);
    }
  }

  /** After k failures of a proxy that had none, the last of them at t, it cools down until t
      plus the capped doubling of k. */
  lemma {:induction false} FailuresAddUp(rows: seq<Row>, id: int, at: seq<int>)
    requires Ordered(rows) && HasId(rows, id) && at != []
    ensures HasId(FailAt(rows, id, at), id)
    ensures var k := FailuresOf(rows, id) + |at|;
            RowOf(FailAt(rows, id, at), id) ==
            RowOf(rows, id).(health := Cooldown, failures := k, cooldown := Some(at[|at| - 1] + Backoff(k)))
    decreases |at|
  {
    hide Ordered, SetHealth, RowOf, FailuresOf, HasId, Backoff;
    var failures := FailuresOf(rows, id) + 1;
    var cooldown := Some(at[0] + Backoff(failures));
    SetHealthFacts(rows, id, Cooldown, failures, cooldown);
    SetHealthRow(rows, id, Cooldown, failures, cooldown);
    var next := SetHealth(rows, id, Cooldown, failures, cooldown);
    SameIdsSameOrder(rows, next, 0);
    assert FailAt(rows, id, at) == FailAt(next, id, at[1..]);
    if |at| > 1 {
      FailuresAddUp(next, id, at[1..]);
      assert at[1..][|at| - 2] == at[|at| - 1];
    } else {
      assert at[1..] == [];
    }
  }
}
