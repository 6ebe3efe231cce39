/** The model cache as code: two maps filled by row loops from two queries, and cleared by
    writers. Each of its sections is a sequence of steps of the interleaving model, so what
    is proved there of every run holds for this object. */
module ModelRuntimeCache {

  import opened RuntimeCache

  /** A model record with its image support. */
  type Entry(==, !new)

  /** How the rows of the two queries read. */
  datatype Decoder = Decoder(models: Rows -> seq<(string, Entry)>, aliases: Rows -> seq<(string, string)>)

  /** The map a row loop fills; of two rows with one key the later wins. */
  function MapOf<V>(rows: seq<(string, V)>): map<string, V> {
    if rows == [] then map[]
    else
      var last := rows[|rows| - 1];
      MapOf(rows[..|rows| - 1])[last.0 := last.1]
  }

  /** What a key maps to: the value of its last row; a key without a row is not in the map. */
  lemma {:induction false} LastRowWins<V>(rows: seq<(string, V)>, key: string)
    ensures key in MapOf(rows) <==> exists k :: 0 <= k < |rows| && rows[k].0 == key
    ensures forall k | && 0 <= k < |rows| && rows[k].0 == key
                       && (forall j | k < j < |rows| :: rows[j].0 != key) ::
              MapOf(rows)[key] == rows[k].1
  {
    if rows != [] {
      var front := rows[..|rows| - 1];
      LastRowWins(front, key);
      assert forall k | 0 <= k < |front| :: front[k] == rows[k];
    }
  }

  method FillMap<V>(rows: seq<(string, V)>) returns (m: map<string, V>)
    ensures m == MapOf(rows)
  {
    m := map[];
    var i := 0;
    while i < |rows|
      invariant 0 <= i <= |rows| && m == MapOf(rows[..i])
    {
      assert rows[..i + 1][..i] == rows[..i];
      m := m[rows[i].0 := rows[i].1];
      i := i + 1;
    }
    assert rows[..i] == rows;
  }

  /** These steps lead from one state to the other. */
  ghost predicate Follows(from: State, acts: seq<Action>, to: State)
    decreases |acts|
  {
    if acts == [] then from == to
    else Enabled(from, acts[0]) && Follows(Next(from, acts[0]), acts[1..], to)
  }

  lemma {:induction false} FollowsOn(from: State, acts: seq<Action>, to: State, a: Action)
    requires Follows(from, acts, to) && Enabled(to, a)
    ensures Follows(from, acts + [a], Next(to, a))
    decreases |acts|
  {
    if acts == [] {
      assert [a][1..] == [];
    } else {
      assert (acts + [a])[1..] == acts[1..] + [a];
      FollowsOn(Next(from, acts[0]), acts[1..], to, a);
    }
  }

  /** A step sequence continues a run. */
  lemma {:induction false} RunGoesOn(run: seq<State>, acts: seq<Action>, more: seq<Action>, to: State)
    returns (longer: seq<State>)
    requires IsRun(run, acts) && Follows(run[|acts|], more, to)
    ensures IsRun(longer, acts + more) && longer[|acts + more|] == to
    ensures longer[..|run|] == run
    decreases |more|
  {
    if more == [] {
      longer := run;
      assert acts + more == acts;
    } else {
      var next := Next(run[|acts|], more[0]);
      longer := RunGoesOn(run + [next], acts + [more[0]], more[1..], to);
      assert acts + [more[0]] + more[1..] == acts + more;
      assert longer[..|run|] == longer[..|run| + 1][..|run|] == run;
    }
  }

  class ModelCache {
    const decoder: Decoder

    var loaded: bool
    var models: map<string, Entry>
    var aliases: map<string, string>

    /** The answers of the database to the two queries, as of now. */
    var db: seq<Rows>

    /** The interleaving so far: where it began, its steps, and where it stands. */
    ghost const first: State
    ghost var trace: seq<Action>
    ghost var state: State

    constructor (decoder: Decoder, table: seq<Rows>)
      requires |table| == 2
      ensures Valid() && this.decoder == decoder && db == table && trace == []
    {
      this.decoder := decoder;
      loaded, models, aliases, db := false, map[], map[], table;
      first, state, trace := Initial(table), Initial(table), [];
    }

    ghost predicate Shows(rows: seq<Stamped>, m: map<string, Entry>, a: map<string, string>) {
      && |rows| == 2
      && m == MapOf(decoder.models(rows[0].value))
      && a == MapOf(decoder.aliases(rows[1].value))
    }

    ghost predicate Begun()
      reads this`trace, this`state
    {
      && (exists table :: first == Initial(table))
      && Follows(first, trace, state)
    }

    ghost predicate Valid()
      reads this
    {
      && Begun() && Inv(state)
      && state.Queries() == |db| == 2 && db == state.history[state.Now()]
      && (loaded <==> state.cache.Loaded?)
      && (if loaded then Shows(state.cache.rows, models, aliases) else models == map[] && aliases == map[])
    }

    /** One step of the interleaving. */
    ghost method Take(a: Action)
      requires Begun() && Inv(state) && Enabled(state, a)
      modifies this`state, this`trace
      ensures Begun() && Inv(state)
      ensures state == Next(old(state), a) && trace == old(trace) + [a]
    {
      StepKeepsInv(state, a);
      FollowsOn(first, trace, state, a);
      state, trace := Next(state, a), trace + [a];
    }

    /** Every state of the object is reached by some run of the interleaving. */
    lemma IsReached() returns (run: seq<State>)
      requires Valid()
      ensures IsRun(run, trace) && run[|trace|] == state
    {
      hide Inv, Follows;
      run := RunGoesOn([first], [], trace, state);
      assert [] + trace == trace;
    }

    /** A filled cache holds what the database holds, once the newest writer has cleared it. */
    lemma ShowsTheDatabase()
      requires Valid() && loaded
      requires state.writes[|state.history| - 1].Flushed?
      ensures models == MapOf(decoder.models(db[0])) && aliases == MapOf(decoder.aliases(db[1]))
    {
      var run := IsReached();
      CoherentOnceTheNewestWriteIsFlushed(run, trace, |trace|);
    }

    /** The read-locked part of `loadModelRuntime`. */
    method Peek(t: Thread) returns (hit: bool, m: map<string, Entry>, a: map<string, string>)
      requires Valid() && Enabled(state, Begin(t))
      modifies this`state, this`trace
      ensures Valid() && trace == old(trace) + [Begin(t)]
      ensures hit == loaded
      ensures hit ==> state.At(t).Returned? && Shows(state.At(t).rows, m, a)
      ensures !hit ==> state.At(t).Missed?
    {
      hide Inv, Begun;
      hit, m, a := loaded, models, aliases;
      Take(Begin(t));
    }

    /** Loader t holds the lock and has read these answers. */
    ghost predicate Holding(t: Thread, rows: seq<Stamped>)
      reads this
    {
      Valid() && !loaded && state.At(t).Loading? && state.At(t).rows == rows
    }

    /** The second check, with the lock held. */
    method Recheck(t: Thread)
      requires Valid() && Enabled(state, Acquire(t))
      modifies this`state, this`trace
      ensures Valid() && trace == old(trace) + [Acquire(t)]
      ensures loaded ==> state.At(t).Returned? && Shows(state.At(t).rows, models, aliases)
      ensures !loaded ==> Holding(t, [])
    {
      hide Inv, Begun;
      Take(Acquire(t));
    }

    /** One query of the load. */
    method Ask(t: Thread, q: nat, ghost rows: seq<Stamped>) returns (answer: Rows, ghost more: seq<Stamped>)
      requires Holding(t, rows) && q == |rows| < 2
      modifies this`state, this`trace
      ensures q < |db| && answer == db[q]
      ensures more == rows + [Stamped(answer, old(state).Now())] && Holding(t, more)
      ensures trace == old(trace) + [Query(t)]
    {
      hide Inv, Begun;
      answer := db[q];
      more := rows + [Stamped(answer, state.Now())];
      Take(Query(t));
    }

    /** A query or a row that cannot be read ends the load. */
    ghost method GiveUp(t: Thread, rows: seq<Stamped>)
      requires Holding(t, rows)
      modifies this`state, this`trace
      ensures Valid() && !loaded && state.At(t).Failed? && trace == old(trace) + [QueryFails(t)]
    {
      hide Inv, Begun;
      Take(QueryFails(t));
    }

    method Keep(t: Thread, m: map<string, Entry>, a: map<string, string>, ghost rows: seq<Stamped>)
      requires Holding(t, rows) && Shows(rows, m, a)
      modifies this
      ensures Valid() && loaded && models == m && aliases == a && db == old(db)
      ensures state.At(t).Returned? && state.At(t).rows == rows
      ensures trace == old(trace) + [Store(t)]
    {
      hide Inv, Begun, MapOf;
      Take(Store(t));
      models, aliases, loaded := m, a, true;
    }

    /** A writer's transaction; the cache keeps what it has. */
    method Commit(table: seq<Rows>)
      requires Valid() && |table| == 2
      modifies this`db, this`state, this`trace
      ensures Valid() && db == table && trace == old(trace) + [Action.Commit(table)]
      ensures forall t: Thread :: state.At(t) == old(state).At(t)
    {
      hide Inv, Begun, MapOf;
      Take(Action.Commit(table));
      db := table;
    }

    /** `invalidateModelRuntimeCache`, by the writer of commit v. */
    method Invalidate(ghost v: nat)
      requires Valid() && Enabled(state, Action.Invalidate(v))
      modifies this
      ensures Valid() && !loaded && db == old(db) && trace == old(trace) + [Action.Invalidate(v)]
    {
      hide Inv, Begun, MapOf;
      Take(Action.Invalidate(v));
      loaded, models, aliases := false, map[], map[];
    }

    /** The write-locked part of `loadModelRuntime`. Writers may commit `between` the queries;
        they cannot clear the cache before the lock is released. A query or a row that cannot
        be read leaves the cache empty. */
    method Fill(t: Thread, between: seq<seq<Rows>>, firstFails: bool, secondFails: bool)
      returns (ok: bool, m: map<string, Entry>, a: map<string, string>)
      requires Valid() && Enabled(state, Acquire(t))
      requires forall table | table in between :: |table| == 2
      modifies this
      ensures Valid() && trace == old(trace) + [Acquire(t)] +
                (if old(loaded) then [] else LoadTrace(t, between, firstFails, secondFails))
      ensures ok <==> old(loaded) || !(firstFails || secondFails)
      ensures ok ==> state.At(t).Returned? && Shows(state.At(t).rows, m, a)
      ensures ok ==> loaded && models == m && aliases == a
      ensures !ok ==> state.At(t).Failed? && !loaded
    {
      hide Inv, Begun, MapOf, Next, Enabled, Follows, Commits;
      Recheck(t);
      if loaded {
        return true, models, aliases;
      }
      ok, m, a := Load(t, between, firstFails, secondFails);
    }

    /** The load proper. */
    method Load(t: Thread, between: seq<seq<Rows>>, firstFails: bool, secondFails: bool)
      returns (ok: bool, m: map<string, Entry>, a: map<string, string>)
      requires Holding(t, []) && forall table | table in between :: |table| == 2
      modifies this
      ensures Valid()
      ensures trace == old(trace) + LoadTrace(t, between, firstFails, secondFails)
      ensures ok <==> !(firstFails || secondFails)
      ensures ok ==> state.At(t).Returned? && Shows(state.At(t).rows, m, a)
      ensures ok ==> loaded && models == m && aliases == a
      ensures !ok ==> state.At(t).Failed? && !loaded
    {
      hide Inv, Begun, MapOf, Next, Enabled, Follows, Commits, Holding, LoadTrace;
      LoadTraceIs(trace, t, between, firstFails, secondFails);
      m, a := map[], map[];
      if firstFails {
        GiveUp(t, []);
        return false, m, a;
      }
      var modelRows, first := Ask(t, 0, []);
      m := FillMap(decoder.models(modelRows));
      Interleave(t, between, first);
      if secondFails {
        GiveUp(t, first);
        return false, m, a;
      }
      var aliasRows, second := Ask(t, 1, first);
      a := FillMap(decoder.aliases(aliasRows));
      Keep(t, m, a, second);
      ok := true;
    }

    /** What other goroutines may do to the database meanwhile. */
    method Interleave(ghost t: Thread, tables: seq<seq<Rows>>, ghost rows: seq<Stamped>)
      requires Holding(t, rows) && forall table | table in tables :: |table| == 2
      modifies this`db, this`state, this`trace
      ensures Holding(t, rows) && trace == old(trace) + Commits(tables)
    {
      hide Inv, Begun, MapOf, Next, Enabled, Follows;
      var i := 0;
      while i < |tables|
        invariant 0 <= i <= |tables| && Holding(t, rows)
        invariant trace == old(trace) + Commits(tables[..i])
      {
        CommitsOn(tables, i);
        Commit(tables[i]);
        i := i + 1;
      }
      assert tables[..i] == tables;
    }
  }

  function Commits(tables: seq<seq<Rows>>): seq<Action> {
    seq(|tables|, i requires 0 <= i < |tables| => Action.Commit(tables[i]))
  }

  lemma CommitsOn(tables: seq<seq<Rows>>, i: nat)
    requires i < |tables|
    ensures Commits(tables[..i + 1]) == Commits(tables[..i]) + [Action.Commit(tables[i])]
  {
  }

  /** The steps of a load that has the lock. */
  function LoadTrace(t: Thread, between: seq<seq<Rows>>, firstFails: bool, secondFails: bool): seq<Action> {
    if firstFails then [QueryFails(t)]
    else
      [Query(t)] + Commits(between) + (if secondFails then [QueryFails(t)] else [Query(t), Store(t)])
  }

  lemma LoadTraceIs(before: seq<Action>, t: Thread, between: seq<seq<Rows>>, firstFails: bool, secondFails: bool)
    ensures before + LoadTrace(t, between, firstFails, secondFails) ==
            if firstFails then before + [QueryFails(t)]
            else if secondFails then before + [Query(t)] + Commits(between) + [QueryFails(t)]
            else before + [Query(t)] + Commits(between) + [Query(t)] + [Store(t)]
  {
    hide Commits;
  }
}
