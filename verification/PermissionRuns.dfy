/**
 * Runs of the permission service, starting from an empty cache: overlapping queries, arbitrary
 * database changes and clock ticks in any order. A query that misses the cache reads the user's
 * assignments, then the children of one city after another, then the rights of one role after
 * another, each at a moment of its own, and writes its key, when the answer is yes, at a later one.
 */
module PermissionRuns {
  import opened Collections
  import opened CityHierarchy
  import opened Descent
  import opened Redis
  import opened Permissions

  /**
   * How far a query is. While it descends, `todo` are the cities whose children are still to be
   * read, the next one first, and `found` the children read so far; while it looks roles up,
   * `next` is the row whose role is next.
   */
  datatype Stage =
    | Begun
    | Descending(rows: seq<Row>, todo: seq<CityId>, found: set<CityId>)
    | Looking(rows: seq<Row>, next: nat)
    | Found
    | Answered(yes: bool, at: nat)

  datatype Process = Process(q: Query, begunAt: nat, stage: Stage)

  datatype State = State(db: Database, store: Store<string>, now: nat, queries: seq<Process>)

  /** Fetch and Descend bring rows and children in whatever order the database returns them. */
  datatype Event =
    | Ask(q: Query)
    | Fetch(k: nat, rows: seq<Row>)
    | Descend(k: nat, children: seq<CityId>)
    | Step(k: nat)
    | Change(db: Database)
    | Tick(ms: nat)

  function RowIds(rows: seq<Row>): seq<CityId> {
    seq(|rows|, i requires 0 <= i < |rows| => rows[i].cityId)
  }

  /** A scoped query with rows goes down from their cities; another looks up roles at once. */
  function AfterFetch(q: Query, rows: seq<Row>): Stage {
    if rows != [] && Scope(q).Some? then Descending(rows, RowIds(rows), {}) else Looking(rows, 0)
  }

  /** The children of the next city are read; when it was the last one, the scope is decided. */
  function AfterDescend(q: Query, now: nat, stage: Stage, children: seq<CityId>): Stage
    requires stage.Descending? && stage.todo != []
  {
    var todo, found := children + stage.todo[1..], stage.found + Elems(children);
    if todo != [] then Descending(stage.rows, todo, found) else Decided(q, now, stage.rows, found)
  }

  function Decided(q: Query, now: nat, rows: seq<Row>, found: set<CityId>): Stage {
    if Scope(q).Some? ==> Scope(q).value in RowCities(rows) + found then Looking(rows, 0) else Answered(false, now)
  }

  /** The next lookup, or the write. */
  ghost function Advance(db: Database, now: nat, q: Query, stage: Stage): Stage {
    match stage
    case Looking(rows, i) =>
      if rows == [] then Answered(HasRolePermission(db, CITIZEN, q.resource, q.action), now)
      else if i < |rows| && HasRolePermission(db, rows[i].assignment.role, q.resource, q.action) then Found
      else if i + 1 < |rows| then Looking(rows, i + 1)
      else Answered(false, now)
    case Found => Answered(true, now)
    case _ => stage
  }

  ghost predicate CanDescend(s: State, k: nat, children: seq<CityId>) {
    && k < |s.queries| && s.queries[k].stage.Descending? && s.queries[k].stage.todo != []
    && Lists(s.db.cities, s.queries[k].stage.todo[0], false, children)
  }

  ghost function Next(s: State, e: Event): State {
    match e
    case Ask(q) =>
      s.(queries := s.queries + [Process(q, s.now, if Cached(s.store, s.now, q) then Answered(true, s.now) else Begun)])
    case Fetch(k, rows) =>
      if k < |s.queries| && s.queries[k].stage.Begun? && RowsOf(s.db, s.queries[k].q.userId, rows) then
        s.(queries := s.queries[k := s.queries[k].(stage := AfterFetch(s.queries[k].q, rows))])
      else s
    case Descend(k, children) =>
      if CanDescend(s, k, children) then
        var p := s.queries[k];
        s.(queries := s.queries[k := p.(stage := AfterDescend(p.q, s.now, p.stage, children))])
      else s
    case Step(k) =>
      if k < |s.queries| then
        var p := s.queries[k];
        s.(queries := s.queries[k := p.(stage := Advance(s.db, s.now, p.q, p.stage))],
           store := if p.stage.Found? then Put(s.store, s.now, CacheKey(p.q), "true", TTL_SECONDS) else s.store)
      else s
    case Change(db) => s.(db := db)
    case Tick(ms) => s.(now := s.now + ms)
  }

  /** A run: it begins with an empty cache, and every event leads from one state to the next. */
  ghost predicate Run(states: seq<State>, events: seq<Event>) {
    && |states| == |events| + 1 && states[0].store == map[] && states[0].queries == []
    && forall i {:trigger events[i]} :: 0 <= i < |events| ==> states[i + 1] == Next(states[i], events[i])
  }

  lemma {:induction false} ClockMonotone(states: seq<State>, events: seq<Event>, j: nat, i: nat)
    requires Run(states, events) && j <= i < |states|
    ensures states[j].now <= states[i].now
  {
    if j < i {
      ClockMonotone(states, events, j, i - 1);
      assert states[i] == Next(states[i - 1], events[i - 1]);
    }
  }

  // ----- one query, between whose reads the database changes -----

  ghost function Play(s: State, events: seq<Event>): State
    decreases |events|
  {
    if events == [] then s else Play(Next(s, events[0]), events[1..])
  }

  function WithStage(s: State, k: nat, stage: Stage): State
    requires k < |s.queries|
  {
    s.(queries := s.queries[k := s.queries[k].(stage := stage)])
  }

  lemma LastStage(s: State, k: nat, first: Stage, second: Stage)
    requires k < |s.queries|
    ensures WithStage(WithStage(s, k, first), k, second) == WithStage(s, k, second)
  {
  }

  /**
   * While nothing else happens, a query that descends through cities not below themselves finds all
   * that lies below.
   */
  lemma {:induction false} DescentEnds(s: State, k: nat) returns (descent: seq<Event>)
    requires k < |s.queries| && s.queries[k].stage.Descending? && s.queries[k].stage.todo != []
    requires forall c :: c in s.queries[k].stage.todo ==> !Below(s.db.cities, c, c)
    ensures var p, stage := s.queries[k], s.queries[k].stage;
            var found := stage.found + BelowAny(s.db.cities, stage.todo);
            Play(s, descent) == WithStage(s, k, Decided(p.q, s.now, stage.rows, found))
    decreases Weight(s.db.cities, s.queries[k].stage.todo)
  {
    var db, p, stage := s.db.cities, s.queries[k], s.queries[k].stage;
    var children := SomeListing(db, stage.todo[0]);
    OneDown(db, stage.todo, children);
    var todo, found := children + stage.todo[1..], stage.found + Elems(children);
    assert found + BelowAny(db, todo) == stage.found + BelowAny(db, stage.todo);
    var s1 := WithStage(s, k, AfterDescend(p.q, s.now, stage, children));
    assert Next(s, Descend(k, children)) == s1;
    var more := [];
    if todo == [] {
      assert Play(s1, []) == s1;
    } else {
      more := DescentEnds(s1, k);
      LastStage(s, k, s1.queries[k].stage, Decided(p.q, s.now, stage.rows, found + BelowAny(db, todo)));
    }
    descent := [Descend(k, children)] + more;
    assert descent[1..] == more;
  }

  ghost function Steps(s: State, k: nat, n: nat): State
    decreases n
  {
    if n == 0 then s else Steps(Next(s, Step(k)), k, n - 1)
  }

  /** Looking up the roles from row `i` on: as many steps as there are rows left, and the write, are enough. */
  lemma {:induction false} LookupsEnd(s: State, k: nat, rows: seq<Row>, i: nat)
    requires k < |s.queries| && s.queries[k].stage == Looking(rows, i) && i < |rows|
    ensures var q, s' := s.queries[k].q, Steps(s, k, |rows| - i + 1);
            var found := exists j ::
              i <= j < |rows| && HasRolePermission(s.db, rows[j].assignment.role, q.resource, q.action);
            && s'.queries == s.queries[k := s.queries[k].(stage := Answered(found, s.now))]
            && s'.store == if found then Put(s.store, s.now, CacheKey(q), "true", TTL_SECONDS) else s.store
    decreases |rows| - i
  {
    var q, s1 := s.queries[k].q, Next(s, Step(k));
    var n := |rows| - i;
    if s1.queries[k].stage == Looking(rows, i + 1) {
      LookupsEnd(s1, k, rows, i + 1);
    } else if s1.queries[k].stage.Found? {
      Idle(Next(s1, Step(k)), k, n - 1);
    } else {
      Idle(s1, k, n);
    }
  }

  lemma {:induction false} Idle(s: State, k: nat, n: nat)
    requires k < |s.queries| && s.queries[k].stage.Answered?
    ensures Steps(s, k, n) == s
  {
    if n > 0 {
      assert Next(s, Step(k)) == s;
      Idle(s, k, n - 1);
    }
  }

  /** The closure decides the scope: with rows, the query goes on to the lookups or answers no. */
  lemma DescentDecides(s: State, k: nat, q: Query, rows: seq<Row>) returns (descent: seq<Event>)
    requires k < |s.queries| && s.queries[k].q == q && s.queries[k].stage == AfterFetch(q, rows)
    requires Scope(q).Some? ==> ClosureEnds(s.db, RowCities(rows))
    ensures var stage := if rows != [] && !ScopeHolds(s.db, q, RowCities(rows)) then Answered(false, s.now)
      else Looking(rows, 0);
            Play(s, descent) == WithStage(s, k, stage)
  {
    if rows != [] && Scope(q).Some? {
      forall c ensures c in RowIds(rows) <==> c in RowCities(rows) {
        InRowIds(rows, c);
      }
      descent := DescentEnds(s, k);
      forall x ensures x in BelowAny(s.db.cities, RowIds(rows)) + RowCities(rows) <==>
          x in Managed(s.db.cities, RowCities(rows)) {
        InBelowAny(s.db.cities, RowIds(rows), x);
      }
    } else {
      descent := [];
      assert WithStage(s, k, Looking(rows, 0)) == s;
    }
  }

  lemma InRowIds(rows: seq<Row>, c: CityId)
    ensures c in RowIds(rows) <==> c in RowCities(rows)
  {
    if c in RowCities(rows) {
      var row :| row in rows && row.cityId == c;
      var n :| 0 <= n < |rows| && rows[n] == row;
      assert RowIds(rows)[n] == c;
    }
  }

  /** The query is asked in state `s`, and fetches its rows while the tables are `a`. */
  ghost function Fetched(s: State, q: Query, rows: seq<Row>, a: Database): State {
    Next(Next(s.(db := a), Ask(q)), Fetch(|s.queries|, rows))
  }

  /**
   * A query whose reads of assignments, cities and rights fall into three states of the database
   * answers, and leaves the store, as if it had been asked of the tables it saw.
   */
  lemma InterruptedQuery(s: State, q: Query, rows: seq<Row>, a: Database, c: Database, r: Database)
      returns (descent: seq<Event>)
    requires RowsOf(a, q.userId, rows) && !Cached(s.store, s.now, q)
    requires Scope(q).Some? ==> ClosureEnds(c, AssignedCities(a, q.userId))
    ensures Play(Fetched(s, q, rows, a).(db := c), descent).db == c
    ensures var s2 := Play(Fetched(s, q, rows, a).(db := c), descent);
            var s', seen := Steps(s2.(db := r), |s.queries|, |rows| + 1), Compose(a, c, r);
            && s'.queries == s.queries + [Process(q, s.now, Answered(Permits(seen, q), s.now))]
            && s'.store == StoreAfter(seen, s.store, s.now, q)
  {
    var k := |s.queries|;
    ComposedRows(a, c, r, q.userId, rows);
    var fetched := Fetched(s, q, rows, a).(db := c);
    descent := DescentDecides(fetched, k, q, rows);
    var s2 := Play(fetched, descent).(db := r);
    LookupsAnswer(s2, k, q, rows, a, c);
    assert s2.queries == s.queries + [s2.queries[k]];
  }

  lemma LookupsAnswer(s: State, k: nat, q: Query, rows: seq<Row>, a: Database, c: Database)
    requires RowsOf(a, q.userId, rows) && k < |s.queries| && s.queries[k].q == q && !Cached(s.store, s.now, q)
    requires s.queries[k].stage == if rows != [] && !ScopeHolds(c, q, RowCities(rows)) then Answered(false, s.now)
      else Looking(rows, 0)
    ensures var s', seen := Steps(s, k, |rows| + 1), Compose(a, c, s.db);
            && s'.queries == s.queries[k := s.queries[k].(stage := Answered(Permits(seen, q), s.now))]
            && s'.store == StoreAfter(seen, s.store, s.now, q)
  {
    ComposedRows(a, c, s.db, q.userId, rows);
    if rows == [] {
      Unassigned(a, c, s.db, q);
      assert Steps(s, k, 1) == Next(s, Step(k));
    } else if !ScopeHolds(c, q, RowCities(rows)) {
      OutOfScope(a, c, s.db, q, rows);
      Idle(s, k, |rows| + 1);
    } else {
      LookupsEnd(s, k, rows, 0);
      LookupsDecide(a, c, s.db, q, rows);
    }
  }

  /** In scope, the lookups of all rows decide. */
  lemma LookupsDecide(a: Database, c: Database, r: Database, q: Query, rows: seq<Row>)
    requires RowsOf(a, q.userId, rows) && rows != [] && ScopeHolds(c, q, RowCities(rows))
    ensures Permits(Compose(a, c, r), q) <==>
            exists i :: 0 <= i < |rows| && HasRolePermission(r, rows[i].assignment.role, q.resource, q.action)
  {
    if i :| 0 <= i < |rows| && HasRolePermission(r, rows[i].assignment.role, q.resource, q.action) {
      RoleFound(a, c, r, q, rows, i);
    } else {
      NoRoleFound(a, c, r, q, rows);
    }
  }

  /** A query that nothing overlaps answers and leaves the store as hasPermission does. */
  lemma AskAlone(s: State, q: Query, rows: seq<Row>) returns (descent: seq<Event>)
    requires RowsOf(s.db, q.userId, rows) && !Cached(s.store, s.now, q)
    requires Scope(q).Some? ==> ClosureEnds(s.db, AssignedCities(s.db, q.userId))
    ensures var s' := Steps(Play(Fetched(s, q, rows, s.db), descent), |s.queries|, |rows| + 1);
            && s'.queries == s.queries + [Process(q, s.now, Answered(Answer(s.db, s.store, s.now, q), s.now))]
            && s'.store == StoreAfter(s.db, s.store, s.now, q)
  {
    descent := InterruptedQuery(s, q, rows, s.db, s.db, s.db);
    assert Fetched(s, q, rows, s.db).(db := s.db) == Fetched(s, q, rows, s.db);
    assert Compose(s.db, s.db, s.db) == s.db;
  }
}
