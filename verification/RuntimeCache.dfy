/** The lock-protected configuration caches: a double-checked load refilled by several
    separate database queries, and writers that commit first and clear the cache afterwards.

    Loaders and writers are interleaved one atomic step at a time. Every row read from the
    database carries the number of commits its query could see (`version`), and the state
    keeps every table the database has ever held, so staleness can be stated exactly. */
module RuntimeCache {

  /** What one query returns; nothing about it matters except equality. */
  type Rows(==, !new)

  /** The loader and writer goroutines. */
  type Thread = nat

  datatype Stamped = Stamped(value: Rows, version: nat)

  datatype Cached = Empty | Loaded(rows: seq<Stamped>)

  /** A commit is Pending until its writer clears the cache. A writer that returns early
      after its commit leaves it Dropped. */
  datatype WriteState = Pending | Flushed | Dropped

  /** Where a loader stands. `floor` remembers the newest flushed commit when it began. */
  datatype Loader =
    | Outside
    | Missed(floor: nat)
    | Loading(floor: nat, rows: seq<Stamped>)
    | Returned(floor: nat, rows: seq<Stamped>)
    | Failed

  datatype Holder = Free | HeldBy(thread: Thread)

  /** `history[v]` is the answer to every query after v commits and `writes[v]` the progress
      of the writer that made commit v; version 0 is the database as first opened. */
  datatype State = State(
    history: seq<seq<Rows>>,
    writes: seq<WriteState>,
    flushed: nat,
    cache: Cached,
    holder: Holder,
    loaders: map<Thread, Loader>)
  {
    function Now(): int { |history| - 1 }

    function At(t: Thread): Loader { if t in loaders then loaders[t] else Outside }

    function Queries(): nat { if history == [] then 0 else |history[0]| }
  }

  datatype Action =
    | Commit(table: seq<Rows>)
    | Invalidate(version: nat)
    | ReturnEarly(version: nat)
    | Begin(t: Thread)
    | Acquire(t: Thread)
    | Query(t: Thread)
    | QueryFails(t: Thread)
    | Store(t: Thread)

  function Initial(table: seq<Rows>): State {
    State([table], [Flushed], 0, Empty, Free, map[])
  }

  /** The read-locked check needs no writer inside; a miss goes on to ask for the lock. */
  function BeginLoad(s: State, t: Thread): State {
    s.(loaders := s.loaders[t :=
        match s.cache
        case Loaded(rows) => Returned(s.flushed, rows)
        case Empty => Missed(s.flushed)])
  }

  /** The second check, made with the lock held. */
  function AcquireLock(s: State, t: Thread, floor: nat): State {
    match s.cache
    case Loaded(rows) => s.(loaders := s.loaders[t := Returned(floor, rows)])
    case Empty => s.(holder := HeldBy(t), loaders := s.loaders[t := Loading(floor, [])])
  }

  predicate Enabled(s: State, a: Action) {
    match a
    case Commit(table) => |table| == s.Queries()
    case Invalidate(v) => v < |s.writes| && s.writes[v].Pending? && s.holder.Free?
    case ReturnEarly(v) => v < |s.writes| && s.writes[v].Pending?
    case Begin(t) => s.holder.Free? && !s.At(t).Missed? && !s.At(t).Loading?
    case Acquire(t) => s.holder.Free? && s.At(t).Missed?
    case Query(t) =>
      s.history != [] && s.At(t).Loading? && |s.At(t).rows| < |s.history[s.Now()]|
    case QueryFails(t) => s.At(t).Loading?
    case Store(t) => s.At(t).Loading? && |s.At(t).rows| == s.Queries()
  }

  function Next(s: State, a: Action): State
    requires Enabled(s, a)
  {
    match a
    case Commit(table) => s.(history := s.history + [table], writes := s.writes + [Pending])
    case Invalidate(v) =>
      s.(writes := s.writes[v := Flushed],
         flushed := if v > s.flushed then v else s.flushed,
         cache := Empty)
    case ReturnEarly(v) => s.(writes := s.writes[v := Dropped])
    case Begin(t) => BeginLoad(s, t)
    case Acquire(t) => AcquireLock(s, t, s.At(t).floor)
    case Query(t) =>
      var l := s.At(t);
      var row := Stamped(s.history[s.Now()][|l.rows|], s.Now());
      s.(loaders := s.loaders[t := Loading(l.floor, l.rows + [row])])
    case QueryFails(t) => s.(holder := Free, loaders := s.loaders[t := Failed])
    case Store(t) =>
      var l := s.At(t);
      s.(holder := Free, cache := Loaded(l.rows),
         loaders := s.loaders[t := Returned(l.floor, l.rows)])
  }

  /** `run` lists the states an interleaving passes through, from an empty cache on. */
  ghost predicate IsRun(run: seq<State>, acts: seq<Action>) {
    && |run| == |acts| + 1
    && (exists table :: run[0] == Initial(table))
    && forall i | 0 <= i < |acts| :: Enabled(run[i], acts[i]) && run[i + 1] == Next(run[i], acts[i])
  }

  /** Every table answers the same queries, and no flushed commit is newer than `flushed`. */
  ghost predicate WritesOk(s: State) {
    && |s.history| == |s.writes|
    && s.flushed < |s.history|
    && (forall v | 0 <= v < |s.history| :: |s.history[v]| == s.Queries())
    && (forall v | 0 <= v < |s.writes| :: s.writes[v].Flushed? ==> v <= s.flushed)
  }

  /** Row i of a (partial) load was the answer to query i at its own version, and later
      queries saw at least what earlier ones saw. */
  ghost predicate ReadInOrder(s: State, rows: seq<Stamped>)
    requires WritesOk(s)
  {
    && |rows| <= s.Queries()
    && (forall i | 0 <= i < |rows| ::
          rows[i].version < |s.history| && rows[i].value == s.history[rows[i].version][i])
    && (forall i, j | 0 <= i < j < |rows| :: rows[i].version <= rows[j].version)
  }

  ghost predicate NotOlder(rows: seq<Stamped>, version: nat) {
    forall i | 0 <= i < |rows| :: version <= rows[i].version
  }

  ghost predicate LoaderOk(s: State, l: Loader)
    requires WritesOk(s)
  {
    match l
    case Outside => true
    case Failed => true
    case Missed(floor) => floor <= s.flushed
    case Loading(floor, rows) =>
      floor <= s.flushed && ReadInOrder(s, rows) && NotOlder(rows, s.flushed)
    case Returned(floor, rows) =>
      |rows| == s.Queries() && ReadInOrder(s, rows) && NotOlder(rows, floor)
  }

  ghost predicate CacheOk(s: State)
    requires WritesOk(s)
  {
    s.cache.Loaded? ==>
      && s.holder.Free?
      && |s.cache.rows| == s.Queries()
      && ReadInOrder(s, s.cache.rows)
      && NotOlder(s.cache.rows, s.flushed)
  }

  ghost predicate Inv(s: State) {
    && WritesOk(s)
    && CacheOk(s)
    && (forall t :: LoaderOk(s, s.At(t)))
    && (forall t :: s.At(t).Loading? <==> s.holder == HeldBy(t))
  }

  /** A commit appends a version; what was read before stays what it was. */
  lemma CommitKeepsInv(s: State, table: seq<Rows>)
    requires Inv(s) && Enabled(s, Commit(table))
    ensures Inv(Next(s, Commit(table)))
  {
    var s' := Next(s, Commit(table));
    assert forall t :: s'.At(t) == s.At(t);
    assert forall v | 0 <= v < |s.history| :: s'.history[v] == s.history[v];
    forall t ensures LoaderOk(s', s'.At(t)) {
      assert LoaderOk(s, s.At(t));
    }
  }

  /** Clearing needs the lock, so no load is half way through when the floor rises. */
  lemma InvalidateKeepsInv(s: State, v: nat)
    requires Inv(s) && Enabled(s, Invalidate(v))
    ensures Inv(Next(s, Invalidate(v)))
  {
    var s' := Next(s, Invalidate(v));
    assert forall t :: s'.At(t) == s.At(t);
    forall t ensures LoaderOk(s', s'.At(t)) {
      assert LoaderOk(s, s.At(t)) && !s.At(t).Loading?;
    }
  }

  lemma QueryKeepsInv(s: State, t: Thread)
    requires Inv(s) && Enabled(s, Query(t))
    ensures Inv(Next(s, Query(t)))
  {
    var s' := Next(s, Query(t));
    assert forall u | u != t :: s'.At(u) == s.At(u);
    assert LoaderOk(s, s.At(t));
    assert LoaderOk(s', s'.At(t));
    forall u ensures LoaderOk(s', s'.At(u)) {
      assert LoaderOk(s, s.At(u));
    }
  }

  lemma LoaderMoveKeepsInv(s: State, a: Action, t: Thread)
    requires Inv(s) && Enabled(s, a)
    requires a in {Begin(t), Acquire(t), QueryFails(t), Store(t)}
    ensures Inv(Next(s, a))
  {
    var s' := Next(s, a);
    assert forall u | u != t :: s'.At(u) == s.At(u);
    assert LoaderOk(s, s.At(t));
    forall u ensures LoaderOk(s', s'.At(u)) {
      assert LoaderOk(s, s.At(u));
    }
  }

  lemma StepKeepsInv(s: State, a: Action)
    requires Inv(s) && Enabled(s, a)
    ensures Inv(Next(s, a))
  {
    match a
    case Commit(table) => CommitKeepsInv(s, table);
    case Invalidate(v) => InvalidateKeepsInv(s, v);
    case ReturnEarly(v) =>
      var s' := Next(s, a);
      forall t ensures LoaderOk(s', s'.At(t)) {
        assert LoaderOk(s, s.At(t)) && s'.At(t) == s.At(t);
      }
    case Query(t) => QueryKeepsInv(s, t);
    case Begin(t) => LoaderMoveKeepsInv(s, a, t);
    case Acquire(t) => LoaderMoveKeepsInv(s, a, t);
    case QueryFails(t) => LoaderMoveKeepsInv(s, a, t);
    case Store(t) => LoaderMoveKeepsInv(s, a, t);
  }

  lemma {:induction false} RunKeepsInv(run: seq<State>, acts: seq<Action>, k: nat)
    requires IsRun(run, acts) && k < |run|
    ensures Inv(run[k])
  {
    if k > 0 {
      RunKeepsInv(run, acts, k - 1);
      StepKeepsInv(run[k - 1], acts[k - 1]);
    }
  }

  /** What the cache would hand out is what the database holds now. */
  ghost predicate AgreesWithDatabase(s: State, rows: seq<Stamped>) {
    && s.history != []
    && |rows| == |s.history[s.Now()]|
    && forall i | 0 <= i < |rows| :: rows[i].value == s.history[s.Now()][i]
  }

  /** No commit after `version` has been followed by its writer's invalidation. */
  ghost predicate NoneFlushedAfter(s: State, version: nat) {
    forall v | version < v < |s.writes| :: !s.writes[v].Flushed?
  }

  /** Coherence. Whenever a filled cache differs from the database, the differing row predates
      a commit, and every commit made since that row was read belongs to a writer that has not
      cleared the cache yet, or that returned without doing so. */
  lemma StaleOnlyWhileAWriteIsUnflushed(run: seq<State>, acts: seq<Action>, k: nat)
    requires IsRun(run, acts) && k < |run|
    requires run[k].cache.Loaded? && !AgreesWithDatabase(run[k], run[k].cache.rows)
    ensures exists i | 0 <= i < |run[k].cache.rows| ::
              && run[k].cache.rows[i].version < run[k].Now()
              && NoneFlushedAfter(run[k], run[k].cache.rows[i].version)
  {
    RunKeepsInv(run, acts, k);
    var s := run[k];
    var rows := s.cache.rows;
    var i :| 0 <= i < |rows| && rows[i].value != s.history[s.Now()][i];
    assert rows[i].version < s.Now();
    assert NoneFlushedAfter(s, rows[i].version);
  }

  /** A filled cache equals the database from the moment the writer of the newest commit
      has cleared it, however many older writers are still pending. */
  lemma CoherentOnceTheNewestWriteIsFlushed(run: seq<State>, acts: seq<Action>, k: nat)
    requires IsRun(run, acts) && k < |run|
    requires run[k].writes != [] && run[k].writes[|run[k].writes| - 1].Flushed?
    requires run[k].cache.Loaded?
    ensures AgreesWithDatabase(run[k], run[k].cache.rows)
  {
    RunKeepsInv(run, acts, k);
  }

  lemma {:induction false} FlushedGrows(run: seq<State>, acts: seq<Action>, i: nat, j: nat)
    requires IsRun(run, acts) && i <= j < |run|
    ensures run[i].flushed <= run[j].flushed
    decreases j
  {
    if i < j {
      FlushedGrows(run, acts, i, j - 1);
    }
  }

  lemma {:induction false} FloorIsKept(run: seq<State>, acts: seq<Action>, j: nat, k: nat, t: Thread)
    requires IsRun(run, acts) && j < k < |run|
    requires acts[j] == Begin(t)
    requires forall m | j < m < k :: acts[m] != Begin(t)
    ensures !run[k].At(t).Outside?
    ensures !run[k].At(t).Failed? ==> run[k].At(t).floor == run[j].flushed
    decreases k
  {
    if j + 1 < k {
      FloorIsKept(run, acts, j, k - 1, t);
    }
  }

  /** Freshness. A load that begins after a writer cleared the cache returns nothing older
      than that write, even if commits slipped between its queries: every row is the answer
      to its query at some version no older than the write, and versions never go back from
      one query to the next. */
  lemma NeverOlderThanAFlushedWrite(
      run: seq<State>, acts: seq<Action>, i: nat, j: nat, k: nat, t: Thread, v: nat)
    requires IsRun(run, acts) && i < j < k < |run|
    requires acts[i] == Invalidate(v) && acts[j] == Begin(t)
    requires forall m | j < m < k :: acts[m] != Begin(t)
    requires run[k].At(t).Returned?
    ensures WritesOk(run[k])
    ensures |run[k].At(t).rows| == run[k].Queries()
    ensures NotOlder(run[k].At(t).rows, v)
    ensures ReadInOrder(run[k], run[k].At(t).rows)
  {
    RunKeepsInv(run, acts, k);
    assert LoaderOk(run[k], run[k].At(t));
    FloorIsKept(run, acts, j, k, t);
    assert v <= run[i + 1].flushed;
    FlushedGrows(run, acts, i + 1, j);
  }

  /** The exception: the model refresh returns after its commit when it cannot save its
      metadata. From any state whose cache agrees with the database, such a write leaves the
      cache stale exactly when it changed the table, with no invalidation left to come. */
  lemma EarlyReturnLeavesTheCacheStale(run: seq<State>, acts: seq<Action>, k: nat, table: seq<Rows>)
    requires IsRun(run, acts) && k < |run|
    requires run[k].cache.Loaded? && AgreesWithDatabase(run[k], run[k].cache.rows)
    requires |table| == run[k].Queries()
    ensures var v := |run[k].history|;
            && Enabled(run[k], Commit(table))
            && var s := Next(run[k], Commit(table));
            && Enabled(s, ReturnEarly(v))
            && var end := Next(s, ReturnEarly(v));
            && end.cache == run[k].cache
            && (!AgreesWithDatabase(end, end.cache.rows) <==> table != run[k].history[run[k].Now()])
            && (forall u | 0 <= u < |end.writes| && end.writes[u].Pending? ::
                  u < |run[k].writes| && run[k].writes[u].Pending?)
            && end.writes[v].Dropped?
  {
    RunKeepsInv(run, acts, k);
    var s := run[k];
    var end := Next(Next(s, Commit(table)), ReturnEarly(|s.history|));
    assert end.history[end.Now()] == table;
    if AgreesWithDatabase(end, end.cache.rows) {
      assert table == s.history[s.Now()];
    }
  }

  /** No later step makes up for it: a writer that returned early neither clears the cache nor
      becomes due to do so again. */
  lemma {:induction false} ReturnedEarlyForGood(run: seq<State>, acts: seq<Action>, i: nat, j: nat, v: nat)
    requires IsRun(run, acts) && i <= j < |run|
    requires v < |run[i].writes| && run[i].writes[v].Dropped?
    ensures v < |run[j].writes| && run[j].writes[v].Dropped?
    ensures forall m | i <= m < j :: acts[m] != Invalidate(v)
    decreases j - i
  {
    if i < j {
      ReturnedEarlyForGood(run, acts, i, j - 1, v);
    }
  }

  // ------------------------------------------------------------------------------------
  // Torn loads.
  // ------------------------------------------------------------------------------------

  /** The rows of a load were answered at one version, or at several. */
  predicate OneVersion(rows: seq<Stamped>) {
    rows != [] && rows[0].version == rows[|rows| - 1].version
  }

  /** These rows are what the database held at version v. */
  ghost predicate HeldAt(s: State, rows: seq<Stamped>, v: nat)
    requires WritesOk(s)
  {
    && v < |s.history| && |rows| == s.Queries()
    && forall i | 0 <= i < |rows| :: rows[i].value == s.history[v][i]
  }

  /** Every commit changes the answer to every query, and none restores an earlier one. */
  ghost predicate AlwaysDifferent(s: State)
    requires WritesOk(s)
  {
    forall u, v, i | 0 <= u < v < |s.history| && 0 <= i < s.Queries() ::
      s.history[u][i] != s.history[v][i]
  }

  /** A filled cache whose first and last answers have one version is the table of that
      version, in every run. */
  lemma OneVersionIsOneTable(run: seq<State>, acts: seq<Action>, k: nat)
    requires IsRun(run, acts) && k < |run|
    requires run[k].cache.Loaded? && OneVersion(run[k].cache.rows)
    ensures WritesOk(run[k]) && HeldAt(run[k], run[k].cache.rows, run[k].cache.rows[0].version)
  {
    RunKeepsInv(run, acts, k);
    var rows := run[k].cache.rows;
    forall i | 0 <= i < |rows|
      ensures rows[i].version == rows[0].version
    {
      assert i < |rows| - 1 ==> rows[i].version <= rows[|rows| - 1].version;
      assert i > 0 ==> rows[0].version <= rows[i].version;
    }
  }

  /** And where commits change every answer, nothing else is: the cache holds a table the
      database once had if and only if its first and last answers have one version. */
  lemma TornIffVersionsDiffer(run: seq<State>, acts: seq<Action>, k: nat)
    requires IsRun(run, acts) && k < |run|
    requires run[k].cache.Loaded? && run[k].cache.rows != []
    requires WritesOk(run[k]) && AlwaysDifferent(run[k])
    ensures (exists v: nat :: HeldAt(run[k], run[k].cache.rows, v)) <==> OneVersion(run[k].cache.rows)
  {
    RunKeepsInv(run, acts, k);
    var s := run[k];
    var rows := s.cache.rows;
    if OneVersion(rows) {
      OneVersionIsOneTable(run, acts, k);
    }
    if v: nat :| HeldAt(s, rows, v) {
      AnsweredAt(s, rows, v, 0);
      AnsweredAt(s, rows, v, |rows| - 1);
    }
  }

  lemma AnsweredAt(s: State, rows: seq<Stamped>, v: nat, i: nat)
    requires WritesOk(s) && AlwaysDifferent(s) && ReadInOrder(s, rows) && HeldAt(s, rows, v)
    requires i < |rows|
    ensures rows[i].version == v
  {
    var u := rows[i].version;
    assert s.history[u][i] == s.history[v][i];
  }

  /** Loader t reads its first answer in step f and its last in step l, and stores them in
      step e. */
  ghost predicate LoadSpans(run: seq<State>, acts: seq<Action>, t: Thread, f: nat, l: nat, e: nat) {
    && f <= l < e < |acts| && |run| == |acts| + 1
    && (forall m | f <= m <= e :: run[m].At(t).Loading?)
    && acts[f] == Query(t) && run[f].At(t).rows == []
    && acts[l] == Query(t) && |run[l].At(t).rows| + 1 == run[l].Queries()
    && acts[e] == Store(t)
  }

  /** In terms of steps: what the load stores has one version if and only if no writer
      committed between its first query and its last. */
  lemma UntornIffNoCommitBetween(run: seq<State>, acts: seq<Action>, t: Thread, f: nat, l: nat, e: nat)
    requires IsRun(run, acts) && LoadSpans(run, acts, t, f, l, e)
    ensures run[e + 1].cache.Loaded?
    ensures OneVersion(run[e + 1].cache.rows) <==> forall m | f <= m < l :: !acts[m].Commit?
  {
    RunKeepsInv(run, acts, l);
    RunKeepsInv(run, acts, f);
    assert run[f + 1].At(t).Loading?;
    RowsStay(run, acts, t, f + 1, l + 1);
    RowsStay(run, acts, t, l + 1, e);
    RunKeepsInv(run, acts, e);
    QueriesStay(run, acts, l, e);
    var rows := run[e].At(t).rows;
    assert rows[0].version == run[f].Now();
    assert rows[|rows| - 1].version == run[l].Now();
    CommitsCount(run, acts, f, l);
  }

  /** Every load that stores anything spans such steps. */
  lemma EveryLoadSpans(run: seq<State>, acts: seq<Action>, t: Thread, e: nat) returns (f: nat, l: nat)
    requires IsRun(run, acts) && e < |acts| && acts[e] == Store(t) && run[e].Queries() > 0
    ensures LoadSpans(run, acts, t, f, l, e)
  {
    l := AnsweredInStep(run, acts, t, e, run[e].Queries() - 1);
    QueriesStay(run, acts, l, e);
    f := l;
    if run[e].Queries() > 1 {
      f := AnsweredInStep(run, acts, t, l, 0);
    }
  }

  /** The step in which a load read answer n. */
  lemma {:induction false} AnsweredInStep(run: seq<State>, acts: seq<Action>, t: Thread, j: nat, n: nat)
      returns (q: nat)
    requires IsRun(run, acts) && j <= |acts| && |run| == |acts| + 1
    requires run[j].At(t).Loading? && n < |run[j].At(t).rows|
    ensures q < j && acts[q] == Query(t)
    ensures forall m | q <= m <= j :: run[m].At(t).Loading?
    ensures |run[q].At(t).rows| == n
    decreases j
  {
    AnswersComeFromQueries(run, acts, t, j - 1);
    hide IsRun, Next, Enabled, Inv;
    if run[j - 1].At(t).Loading? && n < |run[j - 1].At(t).rows| {
      q := AnsweredInStep(run, acts, t, j - 1, n);
    } else {
      q := j - 1;
    }
  }

  /** One step adds at most one answer to a load, and only by a query. */
  lemma AnswersComeFromQueries(run: seq<State>, acts: seq<Action>, t: Thread, m: nat)
    requires IsRun(run, acts) && m < |acts| && run[m + 1].At(t).Loading?
    ensures |run| == |acts| + 1
    ensures run[m].At(t).Loading? ==>
              || run[m + 1].At(t).rows == run[m].At(t).rows
              || (acts[m] == Query(t) && |run[m + 1].At(t).rows| == |run[m].At(t).rows| + 1)
    ensures !run[m].At(t).Loading? ==> run[m + 1].At(t).rows == []
  {
    RunKeepsInv(run, acts, m);
  }

  /** While a load is under way its answers are only added to. */
  lemma {:induction false} RowsStay(run: seq<State>, acts: seq<Action>, t: Thread, i: nat, j: nat)
    requires IsRun(run, acts) && i <= j < |run|
    requires forall m | i <= m <= j :: run[m].At(t).Loading?
    ensures run[i].At(t).Loading? && run[j].At(t).Loading?
    ensures run[i].At(t).rows <= run[j].At(t).rows
    decreases j - i
  {
    if i < j {
      RowsStay(run, acts, t, i, j - 1);
      assert run[j - 1].At(t).Loading? && run[j].At(t).Loading?;
      RunKeepsInv(run, acts, j - 1);
    }
  }

  lemma {:induction false} QueriesStay(run: seq<State>, acts: seq<Action>, i: nat, j: nat)
    requires IsRun(run, acts) && i <= j < |run|
    ensures run[i].Queries() == run[j].Queries()
    decreases j - i
  {
    if i < j {
      QueriesStay(run, acts, i, j - 1);
      RunKeepsInv(run, acts, j - 1);
    }
  }

  lemma {:induction false} CommitsCount(run: seq<State>, acts: seq<Action>, i: nat, j: nat)
    requires IsRun(run, acts) && i <= j < |run|
    ensures run[i].Now() <= run[j].Now()
    ensures run[i].Now() == run[j].Now() <==> forall m | i <= m < j :: !acts[m].Commit?
    decreases j - i
  {
    if i < j {
      CommitsCount(run, acts, i, j - 1);
    }
  }

  /** While a torn cache is there, no writer since its first answer has cleared it, so its
      newest commit is still to be cleared or was returned from early; any writer that does
      clear it, at once empties it. */
  lemma TornUntilCleared(run: seq<State>, acts: seq<Action>, k: nat)
    requires IsRun(run, acts) && k < |run|
    requires run[k].cache.Loaded? && run[k].cache.rows != [] && !OneVersion(run[k].cache.rows)
    ensures var s := run[k];
            var newest := s.cache.rows[|s.cache.rows| - 1].version;
            && s.cache.rows[0].version < newest < |s.writes|
            && NoneFlushedAfter(s, s.cache.rows[0].version)
            && !s.writes[newest].Flushed?
            && (forall v: nat | v < |s.writes| && s.writes[v].Pending? ::
                  Enabled(s, Invalidate(v)) && Next(s, Invalidate(v)).cache.Empty?)
  {
    RunKeepsInv(run, acts, k);
    var s := run[k];
    var rows := s.cache.rows;
    assert rows[0].version <= rows[|rows| - 1].version;
    assert NoneFlushedAfter(s, rows[0].version);
  }

  /** Such runs exist: the writer commits between the two queries, and the stored pair is a
      table the database never held. */
  lemma ALoadCanBeTorn(before: seq<Rows>, after: seq<Rows>)
      returns (run: seq<State>, acts: seq<Action>)
    requires |before| == |after| == 2 && before[0] != after[0] && before[1] != after[1]
    ensures IsRun(run, acts) && run[0] == Initial(before)
    ensures var end := run[|acts|];
            && end.history == [before, after]
            && end.cache == Loaded([Stamped(before[0], 0), Stamped(after[1], 1)])
            && end.writes == [Flushed, Pending]
  {
    var s0 := Initial(before);
    var s1 := Next(s0, Begin(0));
    var s2 := Next(s1, Acquire(0));
    var s3 := Next(s2, Query(0));
    var s4 := Next(s3, Commit(after));
    var s5 := Next(s4, Query(0));
    var s6 := Next(s5, Store(0));
    run := [s0, s1, s2, s3, s4, s5, s6];
    acts := [Begin(0), Acquire(0), Query(0), Commit(after), Query(0), Store(0)];
  }
}
